/** The per-region body of `overlay_text` (translate_image_api.py:69-167),
    without the drawing: for each OCR result, skip it when its text has no
    words or its clamped box has no area; otherwise search for a font size,
    grow the box downward if the text is still taller, and compute the white
    cover rectangle around the text's bounding box. The text is drawn with its
    top-left corner at the clamped `(x, y)` (line 167). */
module Overlay {
  import opened Options
  import opened Words
  import opened Fonts
  import opened Boxes
  import opened Fitting

  /** Line 35: the smallest font size the search may reach. */
  const MinFontSize: int := 14

  /** One OCR result: the words of its (translated) text and its parsed box. */
  datatype Region = Region(words: seq<string>, box: Box)

  /** What is drawn for one region: the chosen font and lines, the box after
      clamping and downward growth (its corner is the text origin), and the
      white rectangle drawn behind the text. */
  datatype Placement = Placement(fit: Fit, box: Box, cover: Rect)

  /** Lines 70-163 for one region. */
  function LayoutRegion(m: Metrics, imgW: int, imgH: int, region: Region): (r: Option<Placement>)
    ensures r.None? <==> |region.words| == 0 || ClampRegion(region.box, imgW, imgH).None?
    ensures r.Some? ==>
      var p := r.value;
      var c := Clamp(region.box, imgW, imgH);
      && InImage(p.box, imgW, imgH) && p.box.w > 0 && p.box.h > 0
      && p.box.x == c.x && p.box.y == c.y && p.box.w == c.w && c.h <= p.box.h
      && IsFitOutcome(m, region.words, c.w, c.h, MinFontSize, p.fit)
      && var tb := m.textBox(p.fit.font, c.x, c.y, p.fit.lines);
         && 0 <= p.cover.left && 0 <= p.cover.top && p.cover.right <= imgW && p.cover.bottom <= imgH
         && tb.left - Padding <= p.cover.left && tb.top - Padding <= p.cover.top
         && p.cover.right <= tb.right + Padding && p.cover.bottom <= tb.bottom + Padding
         && (p.cover.left == 0 || p.cover.left == tb.left - Padding)
         && (p.cover.top == 0 || p.cover.top == tb.top - Padding)
         && (p.cover.right == imgW || p.cover.right == tb.right + Padding)
         && (p.cover.bottom == imgH || p.cover.bottom == tb.bottom + Padding)
         && (RectInImage(tb, imgW, imgH) ==> RectInImage(p.cover, imgW, imgH) && Contains(p.cover, tb))
  {
    if |region.words| == 0 then None
    else
      match ClampRegion(region.box, imgW, imgH)
      case None => None
      case Some(b) =>
        var fit := FitText(m, region.words, b.w, b.h, MinFontSize);
        FitTextOutcome(m, region.words, b.w, b.h, MinFontSize);
        var grown := ExpandHeight(b, BlockHeight(m, fit.font, fit.lines), imgH);
        var textBox := m.textBox(fit.font, b.x, b.y, fit.lines);
        Some(Placement(fit, grown, CoverRect(textBox, imgW, imgH)))
  }

  /** The lines drawn for a region hold exactly the region's words. */
  lemma LayoutRegionKeepsWords(m: Metrics, imgW: int, imgH: int, region: Region)
    requires AllWords(region.words)
    requires LayoutRegion(m, imgW, imgH, region).Some?
    ensures SplitAll(LayoutRegion(m, imgW, imgH, region).value.fit.lines) == region.words
  {
    var b := ClampRegion(region.box, imgW, imgH).value;
    FitTextKeepsWords(m, region.words, b.w, b.h, MinFontSize);
  }

  /** When the text at the chosen size still overflows the box, the box grows
      to the text height, or down to the image bottom if that comes first. */
  lemma LayoutRegionGrowsToText(m: Metrics, imgW: int, imgH: int, region: Region)
    requires LayoutRegion(m, imgW, imgH, region).Some?
    ensures var p := LayoutRegion(m, imgW, imgH, region).value;
      var textHeight := BlockHeight(m, p.fit.font, p.fit.lines);
      && (textHeight <= Clamp(region.box, imgW, imgH).h ==> p.box == Clamp(region.box, imgW, imgH))
      && (p.box.y + textHeight <= imgH ==> textHeight <= p.box.h)
      && (textHeight > Clamp(region.box, imgW, imgH).h ==>
            p.box.h == (if p.box.y + textHeight > imgH then imgH - p.box.y else textHeight))
  {
  }

  /** The loop of line 69: every OCR result is laid out on its own, in order. */
  function OverlayAll(m: Metrics, imgW: int, imgH: int, regions: seq<Region>): (r: seq<Option<Placement>>)
    ensures |r| == |regions|
    ensures forall i :: 0 <= i < |regions| ==> r[i] == LayoutRegion(m, imgW, imgH, regions[i])
  {
    if |regions| == 0 then []
    else [LayoutRegion(m, imgW, imgH, regions[0])] + OverlayAll(m, imgW, imgH, regions[1..])
  }

  /** Regions do not influence each other: laying out two batches one after
      the other is laying out their concatenation. */
  lemma {:induction false} OverlayAllAppend(m: Metrics, imgW: int, imgH: int, a: seq<Region>, b: seq<Region>)
    ensures OverlayAll(m, imgW, imgH, a + b) == OverlayAll(m, imgW, imgH, a) + OverlayAll(m, imgW, imgH, b)
    decreases |a|
  {
    if |a| == 0 {
      assert a + b == b;
    } else {
      assert (a + b)[0] == a[0];
      assert (a + b)[1..] == a[1..] + b;
      OverlayAllAppend(m, imgW, imgH, a[1..], b);
    }
  }
}
