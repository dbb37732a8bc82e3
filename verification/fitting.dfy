/** The font-size search of translate_image_api.py:102-137.

    The search starts at `max(min_font_size, h)`, wraps the words to the box
    width, and while some line is wider than the box or the lines together are
    taller than it, and the size is still above the minimum, drops the size by
    exactly one, loads the face at the new size and wraps again. A font that
    fails to load at the start pins the size to the minimum with PIL's default
    font; one that fails inside the loop ends the search at once, keeping the
    lines wrapped for the previous size. */
module Fitting {
  import opened Options
  import opened Words
  import opened Fonts
  import opened Wrapping

  /** No line is wider than `w` (the negation of `too_wide`, lines 114-120). */
  predicate LinesFitWidth(m: Metrics, font: Font, lines: seq<string>, w: int)
  {
    forall i :: 0 <= i < |lines| ==> m.width(font, lines[i]) <= w
  }

  /** `total_text_height` (lines 123-125 and 140-142): one line height per line, no spacing. */
  function BlockHeight(m: Metrics, font: Font, lines: seq<string>): int
  {
    m.lineHeight(font) * |lines|
  }

  /** The wrapped block fits the `w` by `h` box. */
  predicate Fits(m: Metrics, font: Font, lines: seq<string>, w: int, h: int)
  {
    LinesFitWidth(m, font, lines, w) && BlockHeight(m, font, lines) <= h
  }

  /** Lines 114-120: scan the lines, stopping at the first one wider than `w`. */
  method AnyLineTooWide(m: Metrics, font: Font, lines: seq<string>, w: int) returns (tooWide: bool)
    ensures tooWide <==> !LinesFitWidth(m, font, lines, w)
  {
    tooWide := false;
    var k := 0;
    while k < |lines|
      invariant 0 <= k <= |lines|
      invariant !tooWide
      invariant forall i :: 0 <= i < k ==> m.width(font, lines[i]) <= w
    {
      if m.width(font, lines[k]) > w {
        tooWide := true;
        break;
      }
      k := k + 1;
    }
  }

  /** How the search ended. */
  datatype Exit =
    | Fitted      // the loop condition failed because the block fits
    | AtMinimum   // the block does not fit but the size is no longer above the minimum
    | LoadFailed  // the face at the next smaller size failed to load (lines 131-133)

  /** The font, size and lines the search settles on. */
  datatype Fit = Fit(font: Font, size: int, lines: seq<string>, exit: Exit)

  /** Line 103: the first size tried. */
  function StartSize(minSize: int, h: int): (s: int)
    ensures s >= minSize && s >= h
    ensures s == minSize || s == h
  {
    if minSize > h then minSize else h
  }

  /** The size `s` was tried by a search that got past it: its face loaded and its wrap did not fit. */
  predicate FailedAt(m: Metrics, words: seq<string>, w: int, h: int, s: int)
  {
    m.loads(s) && !Fits(m, TrueType(s), Wrap(m, TrueType(s), w, words), w, h)
  }

  /** The loop of lines 112-137 from a state with the given font, size and lines. */
  function Shrink(m: Metrics, words: seq<string>, w: int, h: int, minSize: int,
                  font: Font, size: int, lines: seq<string>): Fit
    decreases size - minSize
  {
    if !Fits(m, font, lines, w, h) && size > minSize then
      match Load(m, size - 1)
      case None => Fit(Default, size - 1, lines, LoadFailed)
      case Some(next) => Shrink(m, words, w, h, minSize, next, size - 1, Wrap(m, next, w, words))
    else
      Fit(font, size, lines, if Fits(m, font, lines, w, h) then Fitted else AtMinimum)
  }

  /** Lines 103-137 as a function: load the starting face (or fall back), wrap, shrink. */
  function FitText(m: Metrics, words: seq<string>, w: int, h: int, minSize: int): Fit
  {
    var start := StartSize(minSize, h);
    match Load(m, start)
    case None => Shrink(m, words, w, h, minSize, Default, minSize, Wrap(m, Default, w, words))
    case Some(font) => Shrink(m, words, w, h, minSize, font, start, Wrap(m, font, w, words))
  }

  /** What the search promises, independently of how it runs:
      - the size stays between the minimum and the starting size;
      - if the starting face fails to load, the default font is used at the
        minimum size with its own wrap, and nothing else is tried;
      - otherwise every size above the result was tried and failed, largest first;
      - a `Fitted` result fits, an `AtMinimum` result is at the minimum and does not fit;
      - the face of a `Fitted` or `AtMinimum` result is the one at its size, and
        its lines are that face's wrap;
      - a `LoadFailed` result carries the default font, a size whose face did
        not load, and the lines wrapped for the size just above it. */
  ghost predicate IsFitOutcome(m: Metrics, words: seq<string>, w: int, h: int, minSize: int, r: Fit)
  {
    var start := StartSize(minSize, h);
    && minSize <= r.size <= start
    && (r.exit == Fitted ==> Fits(m, r.font, r.lines, w, h))
    && (r.exit == AtMinimum ==> r.size == minSize && !Fits(m, r.font, r.lines, w, h))
    && (!m.loads(start) ==>
          && r.font == Default && r.size == minSize && r.exit != LoadFailed
          && r.lines == Wrap(m, Default, w, words))
    && (m.loads(start) ==>
          && (forall s :: r.size < s <= start ==> FailedAt(m, words, w, h, s))
          && (r.exit != LoadFailed ==>
                m.loads(r.size) && r.font == TrueType(r.size) && r.lines == Wrap(m, r.font, w, words))
          && (r.exit == LoadFailed ==>
                && r.font == Default && r.size < start && !m.loads(r.size)
                && r.lines == Wrap(m, TrueType(r.size + 1), w, words)))
  }

  /** The loop from a loaded face at `size` meets the outcome contract for the
      sizes from `size` down, given that every size above it failed. */
  lemma {:induction false} ShrinkOutcome(m: Metrics, words: seq<string>, w: int, h: int, minSize: int, size: int)
    requires m.loads(StartSize(minSize, h)) && m.loads(size)
    requires minSize <= size <= StartSize(minSize, h)
    requires forall s :: size < s <= StartSize(minSize, h) ==> FailedAt(m, words, w, h, s)
    ensures IsFitOutcome(m, words, w, h, minSize,
              Shrink(m, words, w, h, minSize, TrueType(size), size, Wrap(m, TrueType(size), w, words)))
    decreases size - minSize
  {
    var lines := Wrap(m, TrueType(size), w, words);
    if !Fits(m, TrueType(size), lines, w, h) && size > minSize {
      assert FailedAt(m, words, w, h, size);
      if m.loads(size - 1) {
        ShrinkOutcome(m, words, w, h, minSize, size - 1);
      }
    }
  }

  /** `FitText` meets the outcome contract. */
  lemma FitTextOutcome(m: Metrics, words: seq<string>, w: int, h: int, minSize: int)
    ensures IsFitOutcome(m, words, w, h, minSize, FitText(m, words, w, h, minSize))
  {
    var start := StartSize(minSize, h);
    if m.loads(start) {
      ShrinkOutcome(m, words, w, h, minSize, start);
    }
  }

  /** The outcome contract pins the result down: the search is deterministic
      and any two results meeting it are equal. */
  lemma {:induction false} FitOutcomeUnique(m: Metrics, words: seq<string>, w: int, h: int, minSize: int, r1: Fit, r2: Fit)
    requires IsFitOutcome(m, words, w, h, minSize, r1)
    requires IsFitOutcome(m, words, w, h, minSize, r2)
    ensures r1 == r2
  {
    // Each size is compared against the other's "every larger size failed".
    ghost var failed1 := FailedAt(m, words, w, h, r1.size);
    ghost var failed2 := FailedAt(m, words, w, h, r2.size);
  }

  /** Largest size first: if the starting face loads and the wrap at a size
      `s` in range fits, the search never settles below `s`, since every size
      below which it settles was tried and failed. */
  lemma LargestFitPreferred(m: Metrics, words: seq<string>, w: int, h: int, minSize: int, s: int)
    requires minSize <= s <= StartSize(minSize, h)
    requires m.loads(StartSize(minSize, h)) && m.loads(s)
    requires Fits(m, TrueType(s), Wrap(m, TrueType(s), w, words), w, h)
    ensures FitText(m, words, w, h, minSize).size >= s
  {
    FitTextOutcome(m, words, w, h, minSize);
    assert !FailedAt(m, words, w, h, s);
  }

  /** When moreover every face from `s` up to the start loads, the search
      cannot stop on a load failure and ends with a fitting result. */
  lemma LargestFitFitted(m: Metrics, words: seq<string>, w: int, h: int, minSize: int, s: int)
    requires minSize <= s <= StartSize(minSize, h)
    requires forall t :: s <= t <= StartSize(minSize, h) ==> m.loads(t)
    requires Fits(m, TrueType(s), Wrap(m, TrueType(s), w, words), w, h)
    ensures FitText(m, words, w, h, minSize).exit == Fitted
  {
    LargestFitPreferred(m, words, w, h, minSize, s);
    FitTextOutcome(m, words, w, h, minSize);
  }

  /** Whatever way the search ends, its lines hold exactly the input words. */
  lemma FitTextKeepsWords(m: Metrics, words: seq<string>, w: int, h: int, minSize: int)
    requires AllWords(words)
    ensures SplitAll(FitText(m, words, w, h, minSize).lines) == words
  {
    FitTextOutcome(m, words, w, h, minSize);
    var r := FitText(m, words, w, h, minSize);
    if r.exit == LoadFailed {
      WrapKeepsWords(m, TrueType(r.size + 1), w, words);
    } else {
      WrapKeepsWords(m, r.font, w, words);
    }
  }

  /** Lines 103-137 as the handler runs them: a `while True` loop that lowers
      `fontSize` by one per round. `rounds` counts the rounds. */
  method FitSearch(m: Metrics, words: seq<string>, w: int, h: int, minSize: int) returns (r: Fit, rounds: nat)
    ensures r == FitText(m, words, w, h, minSize)
    ensures IsFitOutcome(m, words, w, h, minSize, r)
    ensures rounds <= StartSize(minSize, h) - minSize + 1
    ensures !m.loads(StartSize(minSize, h)) ==> rounds == 1
    ensures m.loads(StartSize(minSize, h)) ==>
              rounds == StartSize(minSize, h) - r.size + (if r.exit == LoadFailed then 0 else 1)
  {
    var start := StartSize(minSize, h);
    var fontSize := start;
    var font: Font;
    var loaded := Load(m, fontSize);
    if loaded.None? {
      font := Default;
      fontSize := minSize;
    } else {
      font := loaded.value;
    }
    var lines := Wrap(m, font, w, words);
    var how := Fitted;
    rounds := 0;
    while true
      invariant minSize <= fontSize <= start
      invariant Shrink(m, words, w, h, minSize, font, fontSize, lines) == FitText(m, words, w, h, minSize)
      invariant m.loads(start) ==> rounds == start - fontSize
      invariant !m.loads(start) ==> rounds == 0 && fontSize == minSize
      decreases fontSize - minSize
    {
      rounds := rounds + 1;
      var tooWide := AnyLineTooWide(m, font, lines, w);
      var lineHeight := m.lineHeight(font);
      var totalTextHeight := lineHeight * |lines|;
      if (tooWide || totalTextHeight > h) && fontSize > minSize {
        fontSize := fontSize - 1;
        var next := Load(m, fontSize);
        if next.None? {
          font := Default;
          how := LoadFailed;
          break;
        }
        font := next.value;
        lines := Wrap(m, font, w, words);
      } else {
        how := if tooWide || totalTextHeight > h then AtMinimum else Fitted;
        break;
      }
    }
    r := Fit(font, fontSize, lines, how);
    FitTextOutcome(m, words, w, h, minSize);
  }
}
