# Text overlay layout core

A Dafny model of the layout logic inside the `overlay_text` handler of
`translate_image_api.py`. The handler draws translated text over the regions
where OCR found the original text. For each region it does the following:

1. It clamps the region's box to the image. A box with no area left is skipped.
2. It wraps the words greedily to the box width (`wrap_text_to_width`).
3. It lowers the font size one point at a time, starting at
   `max(min_font_size, h)`, until the wrapped block fits the box or the size
   reaches `min_font_size` (14).
4. If the text is still taller than the box, it grows the box downward,
   but never past the bottom of the image.
5. It draws a white rectangle behind the text's bounding box. The rectangle is
   padded by 4 pixels and clamped to the image.
6. It draws the text with its top-left corner at the clamped `(x, y)`.

PIL's font metrics are not modelled. They are uninterpreted functions carried
in a `Metrics` value:

- the width of a string;
- the line height (`ascent + descent`);
- whether the TrueType face loads at a given size;
- the bounding box of the drawn block.

A font is either the TrueType face at some size or PIL's default font, which
the handler falls back to when loading fails.

Modules:

- `Options`: `Option`.
- `Words`: words, `Join` (`" ".join`) and `Split` (`str.split()` on spaces), with the round trip between them.
- `Fonts`: the metrics oracle and the font loader.
- `Wrapping`: the greedy wrapper and its properties.
- `Boxes`: clamping, downward growth and the cover rectangle.
- `Fitting`: the size search. `FitSearch` is the `while True` loop as written. `FitText` is the same search as a recursive function. `IsFitOutcome` is a declarative description of the result. The search meets it, and only one result does.
- `Overlay`: one region end to end, and the loop over all regions.

Facts about the handler that shape the model:

- The font size drops by exactly one per round.
- The fit test's block height is the line height times the number of lines, with no line spacing. The drawn block, including PIL's default line spacing, is the abstract `textBox`.
- Only the box's height ever grows. Its width never grows, and nothing is re-wrapped after the growth.
- The cover rectangle is padded by 4 pixels.
- A box with a negative `x` is moved to `x = 0` and keeps its full width. So `(-5, 0, 10, 10)` on a 100 by 100 image becomes `(0, 0, 10, 10)`, and the same holds for `y` and the height.
- A font that fails to load inside the loop ends the search. The lines wrapped for the previous size are kept.

## Model

| member | source | states |
|---|---|---|
| Words.SplitJoin | translate_image_api.py:49-57 | re-splitting words joined by single spaces gives back exactly those words, so a line built by the wrapper can be read back as its words |
| Wrapping.WrapFrom | translate_image_api.py:53-65 | the wrapping loop closes at most one line per remaining word and always emits the line being built |
| Wrapping.Wrap | translate_image_api.py:44-66 | no words give no lines; otherwise at least one line and never more lines than words |
| Wrapping.WrapKeepsWords | translate_image_api.py:49-66 | splitting every wrapped line and concatenating gives exactly the input words: none dropped, duplicated or reordered |
| Wrapping.WrapLineShape | translate_image_api.py:53-65 | every line is one or more words joined by single spaces; the wrapper never emits an empty line |
| Wrapping.WrapWidthBound | translate_image_api.py:57-64 | a line wider than the maximum is a single word; every line of two or more words fits the width |
| Wrapping.WrapBreaksGreedily | translate_image_api.py:57-64 | for each pair of consecutive lines, the first line with the next line's first word appended is wider than the maximum, so no break was premature |
| Boxes.Clamp | translate_image_api.py:91-98 | the clamped box starts at a non-negative corner and ends inside the image; a negative origin moves to 0; width and height never grow; each is either unchanged or cut to end exactly at the image edge |
| Boxes.ClampRegion | translate_image_api.py:91-100 | a region is skipped exactly when the clamped box has no area; otherwise the surviving box is the clamped box, with positive width and height, inside the image and no larger than given |
| Boxes.ClampKeepsInsideBox | translate_image_api.py:91-100 | a box already inside the image with positive area passes unchanged |
| Boxes.ClampNegativeOriginKeepsSize | translate_image_api.py:91-98 | a box starting left of (above) the image moves to the edge and keeps its full width (height) whenever that fits in the image, so it covers pixels outside the original box |
| Boxes.ClampIdempotent | translate_image_api.py:91-98 | clamping an already clamped box changes nothing |
| Boxes.ExpandHeight | translate_image_api.py:144-149 | the box only grows downward: position and width are kept, height never shrinks and the box stays inside the image; a text that fits leaves it unchanged; otherwise the new height is the text height or reaches the image bottom, whichever comes first |
| Boxes.CoverRect | translate_image_api.py:158-163 | the cover lies within the image bounds, extends at most 4 pixels beyond the text box on each side, pads fully wherever the image allows, and contains the text box when the text box is inside the image |
| Fitting.AnyLineTooWide | translate_image_api.py:114-120 | the early-exit scan reports a too-wide line exactly when some line is wider than the box |
| Fitting.StartSize | translate_image_api.py:103 | the first size tried is the larger of the minimum size and the box height |
| Fitting.FitTextOutcome | translate_image_api.py:102-137 | the search stays between the minimum and the start size; every larger size was tried and failed; a fitting exit fits; a non-fitting exit is at the minimum; a load failure at the start pins the minimum with the default font; a load failure in the loop keeps the previous size's lines |
| Fitting.FitOutcomeUnique | translate_image_api.py:102-137 | the outcome description admits exactly one result, so the search is deterministic and that description characterises it completely |
| Fitting.LargestFitPreferred | translate_image_api.py:112-137 | if the starting face loads and the wrap at an in-range size s fits, the search never settles below s |
| Fitting.LargestFitFitted | translate_image_api.py:112-137 | if moreover every face from s up to the start loads, the search ends with a fitting result |
| Fitting.FitTextKeepsWords | translate_image_api.py:110-137 | whichever way the search ends, its lines hold exactly the input words |
| Fitting.FitSearch | translate_image_api.py:102-137 | the loop as written computes the search result and meets the outcome description; it runs at most start - minimum + 1 rounds, one size lower per round, and exactly one round when the start face fails to load |
| Overlay.LayoutRegion | translate_image_api.py:69-163 | a region is skipped exactly when it has no words or its clamped box has no area; otherwise the text origin is the clamped corner, the box stays in the image and only grows in height, the font, size and lines are the search's result for the clamped box with minimum size 14 (largest fitting size first, both load-failure paths), and the cover is the bounding box of the text drawn at the clamped corner with the chosen font and lines, padded by 4 wherever the image allows, within the image bounds, and containing that text box when it is inside the image |
| Overlay.LayoutRegionKeepsWords | translate_image_api.py:110-152 | the lines drawn for a region hold exactly its words |
| Overlay.LayoutRegionGrowsToText | translate_image_api.py:139-149 | a region whose text fits keeps its clamped box; otherwise the new height is exactly the text height, or the distance to the image bottom when the text would pass it |
| Overlay.OverlayAll | translate_image_api.py:69-72 | one result per region, in input order, each the region's own layout |
| Overlay.OverlayAllAppend | translate_image_api.py:69-72 | regions do not influence each other: laying out a concatenation of region lists is concatenating their layouts |

## Left out

- Flask routing, JSON validation and HTTP responses (lines 1-12, 169-177) are request plumbing.
- Fetching the image with `requests`, decoding it with PIL and encoding the PNG (lines 17-27, 170-172) are I/O.
- `ImageFont.truetype`, `load_default`, `getbbox`, `getmetrics` and `multiline_textbbox` are foreign calls. They are uninterpreted fields of `Metrics`. The default font's metrics are as abstract as the TrueType face's.
- The drawing calls `draw.rectangle` and `draw.multiline_text` (lines 164, 167) have effects on the canvas. They are not modelled. The model computes what would be drawn: the font, the lines, the origin and the cover rectangle.
- The JSON key fallbacks, Python truthiness and `int()` coercion (lines 70, 75-88) are dynamic typing. A region is modelled as already parsed: a list of words and an integer box. A missing or malformed box is therefore not modelled.
- Python's Unicode-aware `str.split()` is not modelled. Text is taken as already split into non-empty words without spaces. `Words.Split` models splitting on the space character only. A region with no words is the "text is blank" skip of line 71.
- The fit test's height (lines 125, 142) counts no line spacing, but the drawn block measured at line 155 uses PIL's default spacing between lines. The two heights can differ. The model keeps the first as `BlockHeight` and the second inside the abstract `textBox`.
- The grown height from line 149 is not used by anything later in the handler. The model returns it in the placement, but nothing depends on it.
