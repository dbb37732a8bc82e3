/** The greedy word wrapper `wrap_text_to_width` (translate_image_api.py:44-66).

    Words are added to the current line while the line with one more word
    measures at most `maxWidth`; otherwise the current line is closed and the
    word starts the next one. A word is never broken, so a single word wider
    than `maxWidth` becomes a line of its own that overflows. */
module Wrapping {
  import opened Words
  import opened Fonts

  /** The loop over `words[1:]` with `current` the line being built. */
  function WrapFrom(m: Metrics, font: Font, maxWidth: int, current: string, rest: seq<string>): (lines: seq<string>)
    ensures 1 <= |lines| <= |rest| + 1
    decreases |rest|
  {
    if |rest| == 0 then [current]
    else
      var candidate := current + " " + rest[0];
      if m.width(font, candidate) <= maxWidth then
        WrapFrom(m, font, maxWidth, candidate, rest[1..])
      else
        [current] + WrapFrom(m, font, maxWidth, rest[0], rest[1..])
  }

  /** `wrap_text_to_width(text, font, max_width)` with `words == text.split()`. */
  function Wrap(m: Metrics, font: Font, maxWidth: int, words: seq<string>): (lines: seq<string>)
    ensures |lines| == 0 <==> |words| == 0
    ensures |lines| <= |words|
  {
    if |words| == 0 then [] else WrapFrom(m, font, maxWidth, words[0], words[1..])
  }

  /** Wrapping from a current line holding the words `g` loses, repeats and
      reorders nothing: the words of the lines are `g` followed by `rest`. */
  lemma {:induction false} WrapFromKeepsWords(m: Metrics, font: Font, maxWidth: int, g: seq<string>, rest: seq<string>)
    requires |g| > 0 && AllWords(g) && AllWords(rest)
    ensures SplitAll(WrapFrom(m, font, maxWidth, Join(g), rest)) == g + rest
    decreases |rest|
  {
    if |rest| == 0 {
      SplitJoin(g);
      assert SplitAll([Join(g)]) == Split(Join(g)) + SplitAll([]);
      assert g + rest == g;
    } else {
      var candidate := Join(g) + " " + rest[0];
      JoinSnoc(g, rest[0]);
      if m.width(font, candidate) <= maxWidth {
        WrapFromKeepsWords(m, font, maxWidth, g + [rest[0]], rest[1..]);
        assert g + [rest[0]] + rest[1..] == g + rest;
      } else {
        var tail := WrapFrom(m, font, maxWidth, rest[0], rest[1..]);
        assert Join([rest[0]]) == rest[0];
        WrapFromKeepsWords(m, font, maxWidth, [rest[0]], rest[1..]);
        SplitAllAppend([Join(g)], tail);
        SplitJoin(g);
        assert SplitAll([Join(g)]) == Split(Join(g)) + SplitAll([]);
        assert [rest[0]] + rest[1..] == rest;
      }
    }
  }

  /** Wrap completeness: re-splitting the wrapped lines gives back exactly the input words. */
  lemma WrapKeepsWords(m: Metrics, font: Font, maxWidth: int, words: seq<string>)
    requires AllWords(words)
    ensures SplitAll(Wrap(m, font, maxWidth, words)) == words
  {
    if |words| > 0 {
      assert Join([words[0]]) == words[0];
      WrapFromKeepsWords(m, font, maxWidth, [words[0]], words[1..]);
      assert [words[0]] + words[1..] == words;
    }
  }

  /** Every line built from the current words `g` is one or more words joined
      by single spaces, and the first line starts with the first word of `g`. */
  lemma {:induction false} WrapFromLineShape(m: Metrics, font: Font, maxWidth: int, g: seq<string>, rest: seq<string>)
    requires |g| > 0 && AllWords(g) && AllWords(rest)
    ensures var lines := WrapFrom(m, font, maxWidth, Join(g), rest);
      && Split(lines[0]) != [] && Split(lines[0])[0] == g[0]
      && forall i :: 0 <= i < |lines| ==> Split(lines[i]) != [] && Join(Split(lines[i])) == lines[i]
    decreases |rest|
  {
    SplitJoin(g);
    if |rest| > 0 {
      var candidate := Join(g) + " " + rest[0];
      JoinSnoc(g, rest[0]);
      if m.width(font, candidate) <= maxWidth {
        WrapFromLineShape(m, font, maxWidth, g + [rest[0]], rest[1..]);
      } else {
        assert Join([rest[0]]) == rest[0];
        WrapFromLineShape(m, font, maxWidth, [rest[0]], rest[1..]);
      }
    }
  }

  /** Each wrapped line is a non-empty run of words joined by single spaces. */
  lemma WrapLineShape(m: Metrics, font: Font, maxWidth: int, words: seq<string>)
    requires AllWords(words)
    ensures var lines := Wrap(m, font, maxWidth, words);
      forall i :: 0 <= i < |lines| ==> Split(lines[i]) != [] && Join(Split(lines[i])) == lines[i]
  {
    if |words| > 0 {
      assert Join([words[0]]) == words[0];
      WrapFromLineShape(m, font, maxWidth, [words[0]], words[1..]);
    }
  }

  /** Every line of two or more words measures at most `maxWidth`. */
  predicate MultiWordLinesFit(m: Metrics, font: Font, maxWidth: int, lines: seq<string>)
  {
    forall i :: 0 <= i < |lines| && |Split(lines[i])| >= 2 ==> m.width(font, lines[i]) <= maxWidth
  }

  /** If the current line is one word or already fits, every line of two or
      more words measures at most `maxWidth`. */
  lemma {:induction false} WrapFromWidthBound(m: Metrics, font: Font, maxWidth: int, g: seq<string>, rest: seq<string>)
    requires |g| > 0 && AllWords(g) && AllWords(rest)
    requires |g| == 1 || m.width(font, Join(g)) <= maxWidth
    ensures MultiWordLinesFit(m, font, maxWidth, WrapFrom(m, font, maxWidth, Join(g), rest))
    decreases |rest|
  {
    SplitJoin(g);
    if |rest| > 0 {
      var candidate := Join(g) + " " + rest[0];
      JoinSnoc(g, rest[0]);
      if m.width(font, candidate) <= maxWidth {
        var lines := WrapFrom(m, font, maxWidth, Join(g), rest);
        var lines' := WrapFrom(m, font, maxWidth, Join(g + [rest[0]]), rest[1..]);
        assert lines == lines';
        WrapFromWidthBound(m, font, maxWidth, g + [rest[0]], rest[1..]);
      } else {
        assert Join([rest[0]]) == rest[0];
        WrapFromWidthBound(m, font, maxWidth, [rest[0]], rest[1..]);
        var lines := WrapFrom(m, font, maxWidth, Join(g), rest);
        var tail := WrapFrom(m, font, maxWidth, rest[0], rest[1..]);
        assert tail == WrapFrom(m, font, maxWidth, Join([rest[0]]), rest[1..]);
        assert lines == [Join(g)] + tail;
        forall i | 0 <= i < |lines| && |Split(lines[i])| >= 2
          ensures m.width(font, lines[i]) <= maxWidth
        {
          if i > 0 {
            assert lines[i] == tail[i - 1];
            assert |Split(tail[i - 1])| >= 2;
            assert m.width(font, tail[i - 1]) <= maxWidth;
          } else {
            assert lines[0] == Join(g);
            assert Split(lines[0]) == g;
            assert m.width(font, Join(g)) <= maxWidth;
          }
        }
      }
    }
  }

  /** Width bound: a line wider than `maxWidth` is a single word; lines of
      two or more words always fit. */
  lemma WrapWidthBound(m: Metrics, font: Font, maxWidth: int, words: seq<string>)
    requires AllWords(words)
    ensures var lines := Wrap(m, font, maxWidth, words);
      forall i :: 0 <= i < |lines| && m.width(font, lines[i]) > maxWidth ==> |Split(lines[i])| == 1
  {
    if |words| > 0 {
      assert Join([words[0]]) == words[0];
      WrapFromWidthBound(m, font, maxWidth, [words[0]], words[1..]);
      WrapFromLineShape(m, font, maxWidth, [words[0]], words[1..]);
    }
  }

  /** Every break between consecutive lines was forced: the earlier line with
      the later line's first word appended measures more than `maxWidth`. */
  predicate BreaksForced(m: Metrics, font: Font, maxWidth: int, lines: seq<string>)
    decreases |lines|
  {
    |lines| < 2 ||
      (&& Split(lines[1]) != []
       && m.width(font, lines[0] + " " + Split(lines[1])[0]) > maxWidth
       && BreaksForced(m, font, maxWidth, lines[1..]))
  }

  /** A line is closed only when appending the next line's first word would overflow. */
  lemma {:induction false} WrapFromBreaksGreedily(m: Metrics, font: Font, maxWidth: int, g: seq<string>, rest: seq<string>)
    requires |g| > 0 && AllWords(g) && AllWords(rest)
    ensures BreaksForced(m, font, maxWidth, WrapFrom(m, font, maxWidth, Join(g), rest))
    decreases |rest|
  {
    if |rest| > 0 {
      var candidate := Join(g) + " " + rest[0];
      JoinSnoc(g, rest[0]);
      var lines := WrapFrom(m, font, maxWidth, Join(g), rest);
      if m.width(font, candidate) <= maxWidth {
        assert lines == WrapFrom(m, font, maxWidth, Join(g + [rest[0]]), rest[1..]);
        WrapFromBreaksGreedily(m, font, maxWidth, g + [rest[0]], rest[1..]);
      } else {
        var tail := WrapFrom(m, font, maxWidth, rest[0], rest[1..]);
        assert tail == WrapFrom(m, font, maxWidth, Join([rest[0]]), rest[1..]);
        WrapFromBreaksGreedily(m, font, maxWidth, [rest[0]], rest[1..]);
        WrapFromLineShape(m, font, maxWidth, [rest[0]], rest[1..]);
        assert lines == [Join(g)] + tail;
        assert lines[1..] == tail;
      }
    }
  }

  /** Greedy break justification: no line could have taken the next line's first word. */
  lemma WrapBreaksGreedily(m: Metrics, font: Font, maxWidth: int, words: seq<string>)
    requires AllWords(words)
    ensures BreaksForced(m, font, maxWidth, Wrap(m, font, maxWidth, words))
  {
    if |words| > 0 {
      assert Wrap(m, font, maxWidth, words) == WrapFrom(m, font, maxWidth, Join([words[0]]), words[1..]);
      WrapFromBreaksGreedily(m, font, maxWidth, [words[0]], words[1..]);
    }
  }
}
