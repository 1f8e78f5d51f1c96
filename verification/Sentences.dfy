/**
 The sentences of a block, as scripts/check-spec-prose.py splits them, and the slices that
 scripts/gen-rules-index.py makes of a block with code spans.
 */
module Sentences {
  import opened Wrappers
  import opened Text
  import opened Words
  import opened Leftmost
  import opened CodeSpans

  // ----- The boundary: `[.!?]["'”’)\]*_]*\s+(?=[A-Z0-9§*"“‘(\[`_])`

  predicate Ends(c: char) { c == '.' || c == '!' || c == '?' }

  predicate Closes(c: char) {
    c == '"' || c == '\'' || c == '\U{201D}' || c == '\U{2019}' || c == ')' || c == ']' || c == '*' || c == '_'
  }

  predicate Opens(c: char) {
    'A' <= c <= 'Z' || '0' <= c <= '9' || c == '\U{A7}' || c == '*' || c == '"' || c == '\U{201C}' ||
    c == '\U{2018}' || c == '(' || c == '[' || c == '`' || c == '_'
  }

  function SkipClosers(s: string, i: nat): (r: nat)
    requires i <= |s|
    ensures i <= r <= |s|
    ensures forall k :: i <= k < r ==> Closes(s[k])
    ensures r < |s| ==> !Closes(s[r])
    decreases |s| - i
  {
    if i < |s| && Closes(s[i]) then SkipClosers(s, i + 1) else i
  }

  /** The end of the boundary that starts at `i`: where the next sentence starts. */
  function Boundary(s: string, i: nat): (r: Option<nat>)
    requires i < |s|
    ensures r.Some? ==> i + 1 < r.value < |s| && IsSpace(s[r.value - 1]) && Opens(s[r.value])
    ensures r.Some? ==> forall k :: i <= k < r.value ==> !IsAlnum(s[k])
  {
    if !Ends(s[i]) then None
    else
      var j := SkipClosers(s, i + 1);
      var e := SkipSpaces(s, j);
      if j < e < |s| && Opens(s[e]) then Some(e) else None
  }

  // ----- Abbreviations end no sentence

  const ABBREVIATIONS: seq<string> := ["e.g.", "i.e.", "cf.", "vs.", "etc.", "approx."]

  function Lower(c: char): char { if 'A' <= c <= 'Z' then c - 'A' + 'a' else c }

  predicate EndsWith(s: string, suffix: string) {
    |suffix| <= |s| && forall k :: 0 <= k < |suffix| ==> Lower(s[|s| - |suffix| + k]) == suffix[k]
  }

  predicate Abbreviated(head: string) {
    var h := head[..TrimTo(head, 0, |head|)];
    exists k :: 0 <= k < |ABBREVIATIONS| && EndsWith(h, ABBREVIATIONS[k])
  }

  // ----- The sentences of a block

  datatype Sentence = Sentence(off: nat, text: string)

  /** What is yielded from position `i` of a block on, when the current sentence started at `start`. */
  function SentencesFrom(s: string, start: nat, i: nat): seq<Sentence>
    requires start <= i <= |s|
    decreases |s| - i
  {
    if i == |s| then
      var tail := Strip(s[start..]);
      if tail != "" then [Sentence(start, tail)] else []
    else match Boundary(s, i)
      case None => SentencesFrom(s, start, i + 1)
      case Some(e) =>
        var head := s[start..i + 1];
        if Abbreviated(head) then SentencesFrom(s, start, e)
        else [Sentence(start, Strip(head))] + SentencesFrom(s, e, e)
  }

  method SentencesOf(block: string) returns (out: seq<Sentence>)
    ensures out == SentencesFrom(block, 0, 0)
  {
    out := [];
    var start: nat, i: nat := 0, 0;
    while i < |block|
      invariant start <= i <= |block|
      invariant out + SentencesFrom(block, start, i) == SentencesFrom(block, 0, 0)
      decreases |block| - i
    {
      var m := Boundary(block, i);
      if m == None {
        i := i + 1;
        continue;
      }
      var head := block[start..i + 1];
      i := m.value;
      if Abbreviated(head) { continue; }
      out := out + [Sentence(start, Strip(head))];
      start := m.value;
    }
    var tail := Strip(block[start..]);
    if tail != "" {
      out := out + [Sentence(start, tail)];
    }
  }

  // ----- Splitting conserves words

  /** `total` of `measure`: the words of every sentence. */
  function TotalWords(sentences: seq<Sentence>): nat {
    if sentences == [] then 0 else WordsIn(sentences[0].text) + TotalWords(sentences[1..])
  }

  function TotalCount(sentences: seq<Sentence>): nat {
    if sentences == [] then 0 else WordCount(sentences[0].text) + TotalCount(sentences[1..])
  }

  lemma {:induction false} TotalsAgree(sentences: seq<Sentence>)
    ensures TotalWords(sentences) == TotalCount(sentences)
  {
    if sentences != [] {
      WordsAreCounted(sentences[0].text);
      TotalsAgree(sentences[1..]);
    }
  }

  lemma WordsOfHead(s: string, start: nat, t: string)
    requires start + |t| <= |s| && forall j :: 0 <= j < |t| ==> t[j] == s[start + j]
    ensures WordCount(Strip(t)) == CountIn(s, start, start + |t|)
  {
    WordsOfStripped(t);
    WordsOfSlice(s, start, t);
  }

  lemma WordsOfPart(s: string, a: nat, b: nat)
    requires a <= b <= |s|
    ensures WordCount(Strip(s[a..b])) == CountIn(s, a, b)
  {
    hide CountIn, Strip;
    WordsOfHead(s, a, s[a..b]);
  }

  lemma TotalOneMore(sentence: Sentence, rest: seq<Sentence>)
    ensures TotalCount([sentence] + rest) == WordCount(sentence.text) + TotalCount(rest)
  {
    assert ([sentence] + rest)[1..] == rest;
  }

  lemma WordsOfTail(s: string, start: nat)
    requires start <= |s|
    ensures TotalCount(SentencesFrom(s, start, |s|)) == CountIn(s, start, |s|)
  {
    assert WordCount("") == 0;
    hide CountIn, Strip;
    assert s[start..] == s[start..|s|];
    WordsOfPart(s, start, |s|);
    TotalOneMore(Sentence(start, Strip(s[start..])), []);
  }

  /** Between a sentence and the next lie only marks and blanks. */
  lemma WordsOfBoundary(s: string, start: nat, i: nat, e: nat)
    requires start <= i < |s| && Boundary(s, i) == Some(e)
    ensures WordCount(Strip(s[start..i + 1])) + CountIn(s, e, |s|) == CountIn(s, start, |s|)
  {
    hide CountIn, Strip;
    WordsOfPart(s, start, i + 1);
    NoWordsWithoutAlnum(s, start, i + 1, e);
    CountSplits(s, start, e, |s|);
  }

  lemma {:induction false} WordsFrom(s: string, start: nat, i: nat)
    requires start <= i <= |s|
    ensures TotalCount(SentencesFrom(s, start, i)) == CountIn(s, start, |s|)
    decreases |s| - i
  {
    if i == |s| {
      WordsOfTail(s, start);
    } else {
      match Boundary(s, i)
      case None => WordsFrom(s, start, i + 1);
      case Some(e) =>
        if Abbreviated(s[start..i + 1]) {
          WordsFrom(s, start, e);
        } else {
          WordsFrom(s, e, e);
          WordsOfBoundary(s, start, i, e);
          TotalOneMore(Sentence(start, Strip(s[start..i + 1])), SentencesFrom(s, e, e));
        }
    }
  }

  /** However a block is split, its sentences hold its words: no word is lost, cut or counted twice. */
  lemma SplittingConservesWords(block: string)
    ensures TotalWords(SentencesFrom(block, 0, 0)) == WordsIn(block)
  {
    TotalsAgree(SentencesFrom(block, 0, 0));
    WordsFrom(block, 0, 0);
    WordsAreCounted(block);
  }

  // ----- The slices of scripts/gen-rules-index.py's `sentences_of`

  /** A block with each code span written as so many `X`. */
  function Masked(text: string): (r: string)
    ensures |r| == |text|
    ensures forall k :: 0 <= k < |text| ==> r[k] == if Inside(Spans(text), k) then 'X' else text[k]
  {
    seq(|text|, k requires 0 <= k < |text| => if Inside(Spans(text), k) then 'X' else text[k])
  }

  function Starts(sentences: seq<Sentence>): (r: seq<nat>)
    ensures |r| == |sentences|
  {
    seq(|sentences|, k requires 0 <= k < |sentences| => sentences[k].off)
  }

  /** Each start, with the text up to the next one. */
  function Slices(text: string, starts: seq<nat>): (r: seq<Sentence>)
    requires forall k :: 0 <= k < |starts| ==> starts[k] <= |text|
    requires forall a, b :: 0 <= a < b < |starts| ==> starts[a] < starts[b]
    ensures |r| == |starts|
  {
    seq(|starts|, k requires 0 <= k < |starts| =>
      Sentence(starts[k], text[starts[k]..if k + 1 < |starts| then starts[k + 1] else |text|]))
  }

  /** A sentence starts where the block does, or after a blank and before its text. */
  predicate IsStart(s: string, first: nat, off: nat) {
    off == first || (0 < off < |s| && IsSpace(s[off - 1]))
  }

  ghost predicate AreStarts(s: string, first: nat, starts: seq<nat>) {
    && (starts != [] ==> starts[0] == first)
    && (forall k :: 0 <= k < |starts| ==> starts[k] < |s| && IsStart(s, first, starts[k]))
    && (forall a, b :: 0 <= a < b < |starts| ==> starts[a] < starts[b])
  }

  lemma StartsOfMore(s: string, start: nat, e: nat, text: string, rest: seq<Sentence>)
    requires start < e < |s| && IsSpace(s[e - 1]) && AreStarts(s, e, Starts(rest))
    ensures AreStarts(s, start, Starts([Sentence(start, text)] + rest))
  {
    var starts := Starts([Sentence(start, text)] + rest);
    assert starts == [start] + Starts(rest);
    forall k | 0 <= k < |starts|
      ensures starts[k] < |s| && IsStart(s, start, starts[k]) && (k > 0 ==> e <= starts[k])
    {
      assert k > 0 ==> IsStart(s, e, Starts(rest)[k - 1]);
    }
  }

  lemma {:induction false} SentencesStart(s: string, start: nat, i: nat)
    requires start <= i <= |s|
    ensures AreStarts(s, start, Starts(SentencesFrom(s, start, i)))
    decreases |s| - i
  {
    if i < |s| {
      match Boundary(s, i)
      case None => SentencesStart(s, start, i + 1);
      case Some(e) =>
        var head := s[start..i + 1];
        if Abbreviated(head) {
          SentencesStart(s, start, e);
        } else {
          SentencesStart(s, e, e);
          StartsOfMore(s, start, e, Strip(head), SentencesFrom(s, e, e));
        }
    }
  }

  method SlicesOf(text: string) returns (out: seq<Sentence>)
    ensures SentencesFrom(Masked(text), 0, 0) == [] ==> out == []
    ensures AreStarts(Masked(text), 0, Starts(SentencesFrom(Masked(text), 0, 0)))
    ensures out == Slices(text, Starts(SentencesFrom(Masked(text), 0, 0)))
  {
    var masked := Masked(text);
    var found := SentencesOf(masked);
    SentencesStart(masked, 0, 0);
    out := Slices(text, Starts(found));
  }

  function Concat(sentences: seq<Sentence>, n: nat): string
    requires n <= |sentences|
  {
    if n == 0 then "" else Concat(sentences, n - 1) + sentences[n - 1].text
  }

  lemma {:induction false} SlicesJoin(text: string, starts: seq<nat>, n: nat)
    requires forall k :: 0 <= k < |starts| ==> starts[k] <= |text|
    requires forall a, b :: 0 <= a < b < |starts| ==> starts[a] < starts[b]
    requires starts != [] && starts[0] == 0 && n <= |starts|
    ensures Concat(Slices(text, starts), n) == text[..if n < |starts| then starts[n] else |text|]
  {
    if n > 0 {
      SlicesJoin(text, starts, n - 1);
    }
  }

  /** A block with no sentence is blank. */
  lemma {:induction false} NoSentenceInBlank(s: string, start: nat, i: nat)
    requires start <= i <= |s| && SentencesFrom(s, start, i) == []
    ensures forall k :: start <= k < |s| ==> IsSpace(s[k])
    decreases |s| - i
  {
    if i == |s| {
      var t := s[start..];
      assert SkipSpaces(t, 0) == |t|;
      assert forall k :: start <= k < |s| ==> s[k] == t[k - start];
    } else {
      match Boundary(s, i)
      case None => NoSentenceInBlank(s, start, i + 1);
      case Some(e) => NoSentenceInBlank(s, start, e);
    }
  }

  /** A boundary ends with a blank, and no blank of a masked text is in a code span. */
  lemma NotCutByStart(text: string, off: nat, span: Span)
    requires IsStart(Masked(text), 0, off) && span in Spans(text)
    ensures !(span.start < off < span.end)
  {
    if span.start < off < span.end {
      assert Inside(Spans(text), off - 1);
    }
  }

  /**
   The slices of a block that is not blank have strictly increasing offsets from 0, join to the
   block exactly, and never start strictly inside a code span.
   */
  lemma SlicesAreLossless(text: string)
    requires exists k :: 0 <= k < |text| && !IsSpace(text[k])
    ensures var starts := Starts(SentencesFrom(Masked(text), 0, 0));
      AreStarts(Masked(text), 0, starts) && starts != [] && starts[0] == 0 &&
      Concat(Slices(text, starts), |starts|) == text &&
      forall k, span :: 0 <= k < |starts| && span in Spans(text) ==> !(span.start < starts[k] < span.end)
  {
    var masked := Masked(text);
    var starts := Starts(SentencesFrom(masked, 0, 0));
    SentencesStart(masked, 0, 0);
    var k :| 0 <= k < |text| && !IsSpace(text[k]);
    assert !IsSpace(masked[k]);
    if SentencesFrom(masked, 0, 0) == [] {
      NoSentenceInBlank(masked, 0, 0);
    }
    SlicesJoin(text, starts, |starts|);
    forall k, span | 0 <= k < |starts| && span in Spans(text)
      ensures !(span.start < starts[k] < span.end)
    {
      NotCutByStart(text, starts[k], span);
    }
  }
}
