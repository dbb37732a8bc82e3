/** Region boxes: clamping to the image (translate_image_api.py:90-100),
    growing the box downward when the text is taller (139-149), and the white
    padded rectangle drawn behind the text (158-163). */
module Boxes {
  import opened Options
  import opened Fonts

  /** A region box `(x, y, w, h)` in pixels, after the handler has parsed it into integers. */
  datatype Box = Box(x: int, y: int, w: int, h: int)

  /** Pixels of margin around the text in the cover rectangle (line 159). */
  const Padding: int := 4

  /** The box lies inside a `imgW` by `imgH` image. */
  predicate InImage(b: Box, imgW: int, imgH: int)
  {
    0 <= b.x && 0 <= b.y && b.x + b.w <= imgW && b.y + b.h <= imgH
  }

  /** Lines 91-98: a negative origin is moved to 0 without shrinking the box,
      then width and height are cut so that the box ends inside the image. */
  function Clamp(b: Box, imgW: int, imgH: int): (c: Box)
    ensures InImage(c, imgW, imgH)
    ensures c.x == if b.x < 0 then 0 else b.x
    ensures c.y == if b.y < 0 then 0 else b.y
    ensures c.w <= b.w && c.h <= b.h
    ensures c.w == b.w || c.x + c.w == imgW
    ensures c.h == b.h || c.y + c.h == imgH
  {
    var x := if b.x < 0 then 0 else b.x;
    var y := if b.y < 0 then 0 else b.y;
    var w := if x + b.w > imgW then imgW - x else b.w;
    var h := if y + b.h > imgH then imgH - y else b.h;
    Box(x, y, w, h)
  }

  /** Lines 91-100: the clamped box, or `None` when it has no area left and the region is skipped. */
  function ClampRegion(b: Box, imgW: int, imgH: int): (r: Option<Box>)
    ensures r.Some? ==> InImage(r.value, imgW, imgH) && r.value.w > 0 && r.value.h > 0
    ensures r.Some? ==> r.value.w <= b.w && r.value.h <= b.h
    ensures r.Some? ==> r.value == Clamp(b, imgW, imgH)
    ensures r.None? <==> Clamp(b, imgW, imgH).w <= 0 || Clamp(b, imgW, imgH).h <= 0
  {
    var c := Clamp(b, imgW, imgH);
    if c.w <= 0 || c.h <= 0 then None else Some(c)
  }

  /** A box already inside the image with positive area passes the clamp unchanged. */
  lemma ClampKeepsInsideBox(b: Box, imgW: int, imgH: int)
    requires InImage(b, imgW, imgH) && b.w > 0 && b.h > 0
    ensures ClampRegion(b, imgW, imgH) == Some(b)
  {
  }

  /** A box starting left of or above the image is moved to the edge without
      shrinking: it keeps its full width (height) whenever that fits in the
      image, so it covers pixels right of (below) the original box. */
  lemma ClampNegativeOriginKeepsSize(b: Box, imgW: int, imgH: int)
    ensures b.x < 0 && b.w <= imgW ==> Clamp(b, imgW, imgH).x == 0 && Clamp(b, imgW, imgH).w == b.w
    ensures b.y < 0 && b.h <= imgH ==> Clamp(b, imgW, imgH).y == 0 && Clamp(b, imgW, imgH).h == b.h
  {
  }

  /** Clamping is idempotent: a clamped box is its own clamp. */
  lemma ClampIdempotent(b: Box, imgW: int, imgH: int)
    ensures Clamp(Clamp(b, imgW, imgH), imgW, imgH) == Clamp(b, imgW, imgH)
  {
  }

  /** Lines 144-149: when the text block of height `textHeight` is taller than
      the box, the box grows downward to the block height, but never past the
      bottom of the image. */
  function ExpandHeight(b: Box, textHeight: int, imgH: int): (r: Box)
    requires b.y + b.h <= imgH
    ensures r.x == b.x && r.y == b.y && r.w == b.w
    ensures b.h <= r.h && r.y + r.h <= imgH
    ensures textHeight <= b.h ==> r == b
    ensures textHeight > b.h ==> r.h <= textHeight && (r.h == textHeight || r.y + r.h == imgH)
    ensures b.y + textHeight <= imgH ==> textHeight <= r.h
  {
    if textHeight > b.h then
      var newH := if b.y + textHeight > imgH then imgH - b.y else textHeight;
      b.(h := newH)
    else b
  }

  /** The rectangle lies within `[0, imgW] x [0, imgH]`. */
  predicate RectInImage(r: Rect, imgW: int, imgH: int)
  {
    0 <= r.left <= r.right <= imgW && 0 <= r.top <= r.bottom <= imgH
  }

  /** `outer` contains `inner`. */
  predicate Contains(outer: Rect, inner: Rect)
  {
    outer.left <= inner.left && inner.right <= outer.right &&
    outer.top <= inner.top && inner.bottom <= outer.bottom
  }

  /** Lines 159-163: the text bounding box grown by `Padding` on every side and
      cut to the image. */
  function CoverRect(textBox: Rect, imgW: int, imgH: int): (r: Rect)
    ensures 0 <= r.left && 0 <= r.top && r.right <= imgW && r.bottom <= imgH
    ensures r.left >= textBox.left - Padding && r.top >= textBox.top - Padding
    ensures r.right <= textBox.right + Padding && r.bottom <= textBox.bottom + Padding
    ensures r.left == 0 || r.left == textBox.left - Padding
    ensures r.top == 0 || r.top == textBox.top - Padding
    ensures r.right == imgW || r.right == textBox.right + Padding
    ensures r.bottom == imgH || r.bottom == textBox.bottom + Padding
    ensures RectInImage(textBox, imgW, imgH) ==> RectInImage(r, imgW, imgH) && Contains(r, textBox)
  {
    Rect(
      if textBox.left - Padding > 0 then textBox.left - Padding else 0,
      if textBox.top - Padding > 0 then textBox.top - Padding else 0,
      if textBox.right + Padding < imgW then textBox.right + Padding else imgW,
      if textBox.bottom + Padding < imgH then textBox.bottom + Padding else imgH)
  }
}
