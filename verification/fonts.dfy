/** The font-metrics oracle.

    The handler measures text through PIL: `font.getbbox(s)` for the width of
    one line, `font.getmetrics()` for ascent and descent, and
    `draw.multiline_textbbox` for the box of the drawn block; fonts come from
    `ImageFont.truetype(path, size)`, which may raise `OSError`, with
    `ImageFont.load_default()` as the fallback. None of these is modelled: they
    are uninterpreted functions collected in a `Metrics` value that every
    operation takes as a parameter. */
module Fonts {
  import opened Options

  /** A loaded font: the TrueType face at a given size, or PIL's built-in default. */
  datatype Font = TrueType(size: int) | Default

  /** An axis-aligned rectangle `(left, top, right, bottom)` as PIL reports bounding boxes. */
  datatype Rect = Rect(left: int, top: int, right: int, bottom: int)

  datatype Metrics = Metrics(
    /** `bbox[2] - bbox[0]` for `bbox = font.getbbox(s)` */
    width: (Font, string) -> int,
    /** `ascent + descent` from `font.getmetrics()` */
    lineHeight: Font -> int,
    /** whether `ImageFont.truetype(font_path, size)` succeeds */
    loads: int -> bool,
    /** `draw.multiline_textbbox((x, y), "\n".join(lines), font=font)` */
    textBox: (Font, int, int, seq<string>) -> Rect)

  /** `ImageFont.truetype(font_path, size)`: the face at `size`, or `None` for `OSError`. */
  function Load(m: Metrics, size: int): (r: Option<Font>)
    ensures r.Some? <==> m.loads(size)
    ensures r.Some? ==> r.value == TrueType(size)
  {
    if m.loads(size) then Some(TrueType(size)) else None
  }
}
