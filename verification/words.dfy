/** Words and lines of text.

    The handler splits the translated text with `str.split()` and builds every
    line by joining words with a single space. Here a word is a non-empty
    string without spaces, `Join` is `" ".join(...)` and `Split` is
    `str.split()` restricted to the space character: runs of spaces separate
    words and empty pieces are dropped. */
module Words {

  /** A token as `str.split()` returns it: non-empty, no separator inside. */
  predicate IsWord(w: string)
  {
    |w| > 0 && ' ' !in w
  }

  predicate AllWords(ws: seq<string>)
  {
    forall i :: 0 <= i < |ws| ==> IsWord(ws[i])
  }

  /** `" ".join(ws)` */
  function Join(ws: seq<string>): string
  {
    if |ws| == 0 then ""
    else if |ws| == 1 then ws[0]
    else ws[0] + " " + Join(ws[1..])
  }

  /** The pending word `cur`, if there is one, as a list of zero or one words. */
  function Pending(cur: string): seq<string>
  {
    if cur == "" then [] else [cur]
  }

  /** Scans `s` left to right; `cur` holds the characters of the word being read. */
  function SplitFrom(s: string, cur: string): seq<string>
    decreases |s|
  {
    if |s| == 0 then Pending(cur)
    else if s[0] == ' ' then Pending(cur) + SplitFrom(s[1..], "")
    else SplitFrom(s[1..], cur + [s[0]])
  }

  /** `s.split()` for text whose only whitespace is the space character. */
  function Split(s: string): seq<string>
  {
    SplitFrom(s, "")
  }

  /** The words of all lines, in order: `[w for ln in lines for w in ln.split()]`. */
  function SplitAll(lines: seq<string>): seq<string>
  {
    if |lines| == 0 then [] else Split(lines[0]) + SplitAll(lines[1..])
  }

  /** Reading a run of non-space characters only extends the pending word. */
  lemma {:induction false} SplitFromRun(run: string, rest: string, cur: string)
    requires ' ' !in run
    ensures SplitFrom(run + rest, cur) == SplitFrom(rest, cur + run)
    decreases |run|
  {
    if |run| == 0 {
      assert run + rest == rest;
      assert cur + run == cur;
    } else {
      assert (run + rest)[0] == run[0];
      assert (run + rest)[1..] == run[1..] + rest;
      SplitFromRun(run[1..], rest, cur + [run[0]]);
      assert cur + [run[0]] + run[1..] == cur + run;
    }
  }

  /** Splitting undoes joining: `" ".join(ws).split() == ws` for words `ws`. */
  lemma {:induction false} SplitJoin(ws: seq<string>)
    requires AllWords(ws)
    ensures Split(Join(ws)) == ws
    decreases |ws|
  {
    if |ws| == 0 {
    } else if |ws| == 1 {
      SplitFromRun(ws[0], "", "");
      assert ws[0] + "" == ws[0];
      assert "" + ws[0] == ws[0];
    } else {
      var rest := Join(ws[1..]);
      assert Join(ws) == ws[0] + (" " + rest);
      SplitFromRun(ws[0], " " + rest, "");
      assert "" + ws[0] == ws[0];
      assert (" " + rest)[0] == ' ';
      assert (" " + rest)[1..] == rest;
      assert AllWords(ws[1..]);
      SplitJoin(ws[1..]);
    }
  }

  /** Appending a word to a joined line adds one space and the word. */
  lemma {:induction false} JoinSnoc(ws: seq<string>, w: string)
    requires |ws| > 0
    ensures Join(ws + [w]) == Join(ws) + " " + w
    decreases |ws|
  {
    if |ws| == 1 {
      assert ws + [w] == [ws[0], w];
      assert [ws[0], w][1..] == [w];
    } else {
      assert (ws + [w])[1..] == ws[1..] + [w];
      JoinSnoc(ws[1..], w);
    }
  }

  /** The words of two blocks of lines are the words of the first followed by those of the second. */
  lemma {:induction false} SplitAllAppend(a: seq<string>, b: seq<string>)
    ensures SplitAll(a + b) == SplitAll(a) + SplitAll(b)
    decreases |a|
  {
    if |a| == 0 {
      assert a + b == b;
    } else {
      assert (a + b)[0] == a[0];
      assert (a + b)[1..] == a[1..] + b;
      SplitAllAppend(a[1..], b);
    }
  }
}
