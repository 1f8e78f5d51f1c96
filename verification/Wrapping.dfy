/**
 The paragraph wrapper of scripts/gen-rules-index.py: words are put on a line greedily. A way
 to break the first `n` words into lines is given by the index of each line's first word.
 The words (code spans and links whole) are found by a regular expression, and given.
 */
module Wrapping {
  import opened Text

  function LineLength(words: seq<string>, i: nat, j: nat): nat
    requires i < j <= |words|
    decreases j
  {
    if j == i + 1 then |words[i]| else LineLength(words, i, j - 1) + 1 + |words[j - 1]|
  }

  lemma {:induction false} LengthOfJoined(words: seq<string>, i: nat, j: nat)
    requires i < j <= |words|
    ensures |Joined(words, i, j, ' ')| == LineLength(words, i, j)
    decreases j
  {
    if j > i + 1 {
      LengthOfJoined(words, i, j - 1);
    }
  }

  lemma {:induction false} ShorterFromLater(words: seq<string>, i: nat, k: nat, j: nat)
    requires i <= k < j <= |words|
    ensures LineLength(words, k, j) <= LineLength(words, i, j)
    decreases j
  {
    if k < j - 1 {
      ShorterFromLater(words, i, k, j - 1);
    }
  }

  /** A line is within the width, or is one word that is too long on its own. */
  predicate Fits(words: seq<string>, i: nat, j: nat, width: int)
    requires i < j <= |words|
  {
    j == i + 1 || LineLength(words, i, j) <= width
  }

  /** Where line `k` ends. */
  function EndOfLine(starts: seq<nat>, k: nat, n: nat): nat
    requires k < |starts|
  {
    if k + 1 < |starts| then starts[k + 1] else n
  }

  /** `starts` breaks the first `n` words into lines. */
  ghost predicate Breaks(words: seq<string>, n: nat, starts: seq<nat>)
    requires n <= |words|
  {
    && (n == 0 <==> starts == [])
    && (n > 0 ==> starts[0] == 0)
    && (forall a, b :: 0 <= a < b < |starts| ==> starts[a] < starts[b])
    && (forall a :: 0 <= a < |starts| ==> starts[a] < n)
  }

  ghost predicate LineFits(words: seq<string>, n: nat, starts: seq<nat>, width: int, k: nat)
    requires n <= |words| && Breaks(words, n, starts) && k < |starts|
  {
    Fits(words, starts[k], EndOfLine(starts, k, n), width)
  }

  ghost predicate IsWrapping(words: seq<string>, n: nat, starts: seq<nat>, width: int)
    requires n <= |words|
  {
    Breaks(words, n, starts) && forall k :: 0 <= k < |starts| ==> LineFits(words, n, starts, width, k)
  }

  /** The greedy choice: a word that does not fit after its line's words starts a new one. */
  function Greedy(words: seq<string>, n: nat, width: int): (r: seq<nat>)
    requires n <= |words|
    ensures Breaks(words, n, r)
  {
    if n == 0 then []
    else
      var before := Greedy(words, n - 1, width);
      if before != [] && LineLength(words, before[|before| - 1], n - 1) + 1 + |words[n - 1]| <= width then before
      else before + [n - 1]
  }

  function Rendered(words: seq<string>, n: nat, starts: seq<nat>): (r: seq<string>)
    requires n <= |words| && Breaks(words, n, starts)
    ensures |r| == |starts|
  {
    seq(|starts|, k requires 0 <= k < |starts| => Joined(words, starts[k], EndOfLine(starts, k, n), ' '))
  }

  /** The lines written: those of the greedy choice, and a blank one. */
  method Para(words: seq<string>, width: int) returns (out: seq<string>)
    requires forall k :: 0 <= k < |words| ==> words[k] != ""
    ensures out == Rendered(words, |words|, Greedy(words, |words|, width)) + [""]
  {
    out := [];
    var line := "";
    for n := 0 to |words|
      invariant var starts := Greedy(words, n, width);
        if n == 0 then out == [] && line == ""
        else line != "" && out + [line] == Rendered(words, n, starts)
    {
      ghost var starts, next := Greedy(words, n, width), Greedy(words, n + 1, width);
      var word := words[n];
      if n > 0 {
        assert line == Rendered(words, n, starts)[|starts| - 1];
        LengthOfJoined(words, starts[|starts| - 1], n);
        RenderOneMore(words, n, starts, next);
      }
      if line != "" && |line| + 1 + |word| > width {
        out := out + [line];
        line := word;
      } else {
        line := if line != "" then line + " " + word else word;
      }
    }
    if line != "" {
      out := out + [line];
    }
    out := out + [""];
  }

  lemma RenderLonger(words: seq<string>, n: nat, starts: seq<nat>)
    requires 0 < n < |words| && Breaks(words, n, starts) && Breaks(words, n + 1, starts)
    ensures var r, last := Rendered(words, n, starts), |starts| - 1;
      Rendered(words, n + 1, starts) == r[..last] + [r[last] + " " + words[n]]
  {
    var r, last := Rendered(words, n, starts), |starts| - 1;
    assert Rendered(words, n + 1, starts)[last] == r[last] + " " + words[n];
  }

  lemma RenderNewLine(words: seq<string>, n: nat, starts: seq<nat>)
    requires 0 < n < |words| && Breaks(words, n, starts) && Breaks(words, n + 1, starts + [n])
    ensures Rendered(words, n + 1, starts + [n]) == Rendered(words, n, starts) + [words[n]]
  {
  }

  lemma RenderOneMore(words: seq<string>, n: nat, starts: seq<nat>, next: seq<nat>)
    requires 0 < n < |words| && Breaks(words, n, starts) && Breaks(words, n + 1, next)
    requires next == starts || next == starts + [n]
    ensures var r, last := Rendered(words, n, starts), |starts| - 1;
      Rendered(words, n + 1, next) == if next == starts then r[..last] + [r[last] + " " + words[n]] else r + [words[n]]
  {
    if next == starts { RenderLonger(words, n, starts); } else { RenderNewLine(words, n, starts); }
  }

  // ----- The greedy choice is a wrapping, and no wrapping has fewer lines

  lemma LastLineFits(words: seq<string>, n: nat, starts: seq<nat>, width: int)
    requires 0 < n <= |words| && IsWrapping(words, n, starts, width)
    ensures Fits(words, starts[|starts| - 1], n, width)
  {
    assert LineFits(words, n, starts, width, |starts| - 1);
  }

  /** The lines before the last are as they were when the last word is added. */
  lemma WithOneMoreWord(words: seq<string>, n: nat, starts: seq<nat>, more: seq<nat>, width: int)
    requires 0 < n <= |words| && IsWrapping(words, n - 1, starts, width) && Breaks(words, n, more)
    requires more == starts + [n - 1] || (more == starts && Fits(words, starts[|starts| - 1], n, width))
    ensures IsWrapping(words, n, more, width)
  {
    forall k | 0 <= k < |more|
      ensures LineFits(words, n, more, width, k)
    {
      if k < |starts| {
        assert LineFits(words, n - 1, starts, width, k);
      }
    }
  }

  lemma {:induction false} GreedyWraps(words: seq<string>, n: nat, width: int)
    requires n <= |words|
    ensures IsWrapping(words, n, Greedy(words, n, width), width)
  {
    if n > 0 {
      GreedyWraps(words, n - 1, width);
      WithOneMoreWord(words, n, Greedy(words, n - 1, width), Greedy(words, n, width), width);
    }
  }

  /** A wrapping without its last word: the word's line is shorter, or gone. */
  lemma WithoutLastWord(words: seq<string>, n: nat, starts: seq<nat>, fewer: seq<nat>, width: int)
    requires 0 < n <= |words| && IsWrapping(words, n, starts, width)
    requires var last := |starts| - 1; fewer == if starts[last] == n - 1 then starts[..last] else starts
    ensures IsWrapping(words, n - 1, fewer, width)
  {
    var m := n - 1;
    assert Breaks(words, m, fewer);
    forall k | 0 <= k < |fewer|
      ensures LineFits(words, m, fewer, width, k)
    {
      assert LineFits(words, n, starts, width, k);
    }
  }

  /** `starts` has as few lines as `other`, and then its last line starts no earlier. */
  predicate Ahead(starts: seq<nat>, other: seq<nat>) {
    |starts| <= |other| && (starts != [] && |starts| == |other| ==> other[|other| - 1] <= starts[|starts| - 1])
  }

  /** What is ahead without the last word stays ahead with it. */
  lemma AheadOneMore(words: seq<string>, n: nat, before: seq<nat>, other: seq<nat>, width: int)
    requires 0 < n <= |words| && Breaks(words, n - 1, before) && other != [] && other[|other| - 1] < n
    requires Fits(words, other[|other| - 1], n, width)
    requires Ahead(before, if other[|other| - 1] == n - 1 then other[..|other| - 1] else other)
    requires before == Greedy(words, n - 1, width)
    ensures Ahead(Greedy(words, n, width), other)
  {
    var o := other[|other| - 1];
    if o < n - 1 && |before| == |other| {
      ShorterFromLater(words, o, before[|before| - 1], n);
    }
  }

  /** No wrapping has fewer lines, and of those with as many none starts its last line later. */
  lemma {:induction false} GreedyStaysAhead(words: seq<string>, n: nat, other: seq<nat>, width: int)
    requires n <= |words| && IsWrapping(words, n, other, width)
    ensures Ahead(Greedy(words, n, width), other)
  {
    if n > 0 {
      var last := |other| - 1;
      var fewer := if other[last] == n - 1 then other[..last] else other;
      LastLineFits(words, n, other, width);
      WithoutLastWord(words, n, other, fewer, width);
      GreedyStaysAhead(words, n - 1, fewer, width);
      AheadOneMore(words, n, Greedy(words, n - 1, width), other, width);
    }
  }

  /**
   Wrapping is optimal: every line of more than one word is within the width, and no way to
   break the same words, in order, into such lines has fewer of them.
   */
  lemma GreedyIsOptimal(words: seq<string>, width: int)
    ensures IsWrapping(words, |words|, Greedy(words, |words|, width), width)
    ensures forall other: seq<nat> :: IsWrapping(words, |words|, other, width) ==>
      |Greedy(words, |words|, width)| <= |other|
  {
    GreedyWraps(words, |words|, width);
    forall other: seq<nat> | IsWrapping(words, |words|, other, width)
      ensures |Greedy(words, |words|, width)| <= |other|
    {
      GreedyStaysAhead(words, |words|, other, width);
    }
  }

  /** The words of the first `m` lines. */
  function WordsOfLines(words: seq<string>, n: nat, starts: seq<nat>, m: nat): seq<string>
    requires n <= |words| && Breaks(words, n, starts) && m <= |starts|
  {
    if m == 0 then [] else WordsOfLines(words, n, starts, m - 1) + words[starts[m - 1]..EndOfLine(starts, m - 1, n)]
  }

  /** Every word is on exactly one line, in order. */
  lemma {:induction false} LinesHoldEveryWordOnce(words: seq<string>, n: nat, starts: seq<nat>, m: nat)
    requires n <= |words| && Breaks(words, n, starts) && m <= |starts|
    ensures WordsOfLines(words, n, starts, m) == words[..if m == 0 then 0 else EndOfLine(starts, m - 1, n)]
  {
    if m > 0 {
      LinesHoldEveryWordOnce(words, n, starts, m - 1);
    }
  }

  /** The lines written, joined by blanks, are the words joined by blanks. */
  lemma {:induction false} LinesAreText(words: seq<string>, n: nat, starts: seq<nat>, m: nat)
    requires n <= |words| && Breaks(words, n, starts) && m <= |starts|
    ensures var end := if m == 0 then 0 else EndOfLine(starts, m - 1, n);
      end <= n && Joined(Rendered(words, n, starts), 0, m, ' ') == Joined(words, 0, end, ' ')
  {
    if m > 0 {
      LinesAreText(words, n, starts, m - 1);
      var from, end := starts[m - 1], EndOfLine(starts, m - 1, n);
      if m > 1 { JoinedParts(words, from, end); }
    }
  }

  lemma {:induction false} JoinedParts(words: seq<string>, m: nat, n: nat)
    requires 0 < m < n <= |words|
    ensures Joined(words, 0, n, ' ') == Joined(words, 0, m, ' ') + [' '] + Joined(words, m, n, ' ')
    decreases n
  {
    if m < n - 1 {
      JoinedParts(words, m, n - 1);
    }
  }

  /**
   The lines that the greedy choice writes: joined by blanks they are the text, and each is no
   longer than the width or a single word.
   */
  lemma LinesAreRight(words: seq<string>, width: int)
    ensures var n := |words|; var lines := Rendered(words, n, Greedy(words, n, width));
      && Joined(lines, 0, |lines|, ' ') == Joined(words, 0, n, ' ')
      && forall k :: 0 <= k < |lines| ==> |lines[k]| <= width || lines[k] in words
  {
    var n := |words|;
    var starts := Greedy(words, n, width);
    LinesAreText(words, n, starts, |starts|);
    GreedyWraps(words, n, width);
    forall k | 0 <= k < |starts|
      ensures var line := Rendered(words, n, starts)[k]; |line| <= width || line in words
    {
      assert LineFits(words, n, starts, width, k);
      LengthOfJoined(words, starts[k], EndOfLine(starts, k, n));
    }
  }
}
