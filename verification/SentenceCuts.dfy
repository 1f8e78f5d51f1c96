/** Where scripts/check-spec-prose.py cuts a block into sentences, said of its characters alone. */
module SentenceCuts {
  import opened Wrappers
  import opened Text
  import opened Leftmost
  import opened CodeSpans
  import opened Sentences

  // ----- The places of a cut

  const ENDS := ".!?"
  const CLOSERS := "\"'\U{201D}\U{2019})]*_"
  const OPENERS := "\U{A7}*\"\U{201C}\U{2018}([`_"

  ghost predicate ClosersThenBlanks(s: string, i: nat, j: nat, e: nat)
    requires e <= |s|
  {
    && i < j < e && (forall k :: i < k < j ==> s[k] in CLOSERS) && (forall k :: j <= k < e ==> IsSpace(s[k]))
  }

  /** An end mark at `i`, closers, at least one blank, and an opener at `e`. */
  ghost predicate IsBoundary(s: string, i: nat, e: nat) {
    && i < e < |s| && s[i] in ENDS && ('A' <= s[e] <= 'Z' || '0' <= s[e] <= '9' || s[e] in OPENERS)
    && exists j: nat :: ClosersThenBlanks(s, i, j, e)
  }

  ghost predicate SpelledAt(s: string, start: nat, i: nat, suffix: string)
    requires start <= i < |s|
  {
    |suffix| <= i + 1 - start && forall k :: 0 <= k < |suffix| ==> Lower(s[i + 1 - |suffix| + k]) == suffix[k]
  }

  /** The text from `start` through the end mark at `i` ends in an abbreviation. */
  ghost predicate Abbreviates(s: string, start: nat, i: nat)
    requires start <= i < |s|
  {
    exists k :: 0 <= k < |ABBREVIATIONS| && SpelledAt(s, start, i, ABBREVIATIONS[k])
  }

  /** A sentence from `start` on can end at `i`, and the next start at `e`. */
  ghost predicate CanCut(s: string, start: nat, i: nat, e: nat) {
    start <= i && IsBoundary(s, i, e) && !Abbreviates(s, start, i)
  }

  /** It ends at the first such place. */
  ghost predicate FirstCut(s: string, start: nat, i: nat, e: nat) {
    CanCut(s, start, i, e) && forall x: nat, y: nat :: CanCut(s, start, x, y) ==> i <= x && e <= y
  }

  ghost predicate NoCut(s: string, start: nat) { forall x: nat, y: nat :: !CanCut(s, start, x, y) }

  ghost predicate AllBlank(s: string, a: nat, b: nat)
    requires b <= |s|
  {
    forall k :: a <= k < b ==> IsSpace(s[k])
  }

  ghost predicate IsPart(text: string, s: string, a: nat, b: nat, x: nat, y: nat)
    requires a <= b <= |s|
  {
    && a <= x <= y <= b && text == s[x..y] && AllBlank(s, a, x) && AllBlank(s, y, b)
    && (x < y ==> !IsSpace(s[x]) && !IsSpace(s[y - 1]))
  }

  /** `text` is what lies from `a` to `b` without the blanks around it. */
  ghost predicate IsStripped(text: string, s: string, a: nat, b: nat)
    requires a <= b <= |s|
  {
    exists x: nat, y: nat :: IsPart(text, s, a, b, x, y)
  }

  /** The sentence is cut off where the next one, at `e`, makes it: its text runs through its end mark. */
  ghost predicate IsFollowed(s: string, x: Sentence, e: nat) {
    exists i: nat :: FirstCut(s, x.off, i, e) && IsStripped(x.text, s, x.off, i + 1)
  }

  /** The last sentence runs to the end, and nothing in it can be cut. */
  ghost predicate IsLast(s: string, x: Sentence) {
    x.off <= |s| && NoCut(s, x.off) && x.text != "" && IsStripped(x.text, s, x.off, |s|)
  }

  ghost predicate FollowedAt(s: string, found: seq<Sentence>, a: nat, b: nat)
    requires a < |found| && b < |found|
  {
    IsFollowed(s, found[a], found[b].off)
  }

  /** The sentences from `start` on: none when all is blank, and else each up to the first cut after its start. */
  ghost predicate AreSentences(s: string, start: nat, found: seq<Sentence>)
    requires start <= |s|
  {
    if found == [] then AllBlank(s, start, |s|)
    else
      && found[0].off == start && IsLast(s, found[|found| - 1])
      && forall a, b :: 0 <= a < b < |found| && b == a + 1 ==> FollowedAt(s, found, a, b)
  }

  // ----- The scanner finds them

  lemma BoundaryIsFound(s: string, i: nat, e: nat)
    requires i < |s|
    ensures IsBoundary(s, i, e) <==> Boundary(s, i) == Some(e)
  {
    if IsBoundary(s, i, e) {
      var j: nat :| ClosersThenBlanks(s, i, j, e);
      assert !Closes(s[j]) && !IsSpace(s[e]);
      assert SkipClosers(s, i + 1) == j;
      assert SkipSpaces(s, j) == e;
    }
    if Boundary(s, i) == Some(e) {
      assert ClosersThenBlanks(s, i, SkipClosers(s, i + 1), e);
    }
  }

  /** No end mark lies inside a boundary. */
  lemma NoMarkInside(s: string, i: nat, e: nat, k: nat)
    requires IsBoundary(s, i, e) && i < k < e
    ensures !Ends(s[k])
  {
    var j: nat :| ClosersThenBlanks(s, i, j, e);
    assert k < j ==> Closes(s[k]);
    assert k >= j ==> IsSpace(s[k]);
  }

  lemma AbbreviationIsFound(s: string, start: nat, i: nat)
    requires start <= i < |s| && Ends(s[i])
    ensures Abbreviated(s[start..i + 1]) <==> Abbreviates(s, start, i)
  {
    var head := s[start..i + 1];
    assert head[|head| - 1] == s[i];
    assert TrimTo(head, 0, |head|) == |head| && head[..|head|] == head;
    forall k | 0 <= k < |ABBREVIATIONS|
      ensures EndsWith(head, ABBREVIATIONS[k]) <==> SpelledAt(s, start, i, ABBREVIATIONS[k])
    {
      SuffixIsSpelled(s, start, i, head, ABBREVIATIONS[k]);
    }
  }

  lemma SuffixIsSpelled(s: string, start: nat, i: nat, head: string, suffix: string)
    requires start <= i < |s| && head == s[start..i + 1]
    ensures EndsWith(head, suffix) <==> SpelledAt(s, start, i, suffix)
  {
    if |suffix| <= |head| {
      assert forall m :: 0 <= m < |head| ==> head[m] == s[start + m];
    }
  }

  lemma StripIsStripped(s: string, a: nat, b: nat)
    requires a <= b <= |s|
    ensures IsStripped(Strip(s[a..b]), s, a, b)
  {
    var t := s[a..b];
    var i := SkipSpaces(t, 0);
    var j := TrimTo(t, i, |t|);
    assert forall k :: a <= k < b ==> s[k] == t[k - a];
    assert t[i..j] == s[a + i..a + j];
    assert IsPart(Strip(t), s, a, b, a + i, a + j);
  }

  /** No cut of the sentence from `start` has its end mark before `i`. */
  ghost predicate NoneBefore(s: string, start: nat, i: nat) {
    forall x: nat, y: nat :: CanCut(s, start, x, y) ==> i <= x
  }

  lemma OneMoreScanned(s: string, start: nat, i: nat, n: nat)
    requires start <= i < |s| && n == i + 1 && NoneBefore(s, start, i) && Boundary(s, i) == None
    ensures NoneBefore(s, start, n)
  {
    forall x: nat, y: nat | CanCut(s, start, x, y)
      ensures n <= x
    {
      if x == i { BoundaryIsFound(s, i, y); }
    }
  }

  lemma PastAbbreviation(s: string, start: nat, i: nat, e: nat)
    requires start <= i < |s| && NoneBefore(s, start, i) && Boundary(s, i) == Some(e) && Abbreviated(s[start..i + 1])
    ensures NoneBefore(s, start, e)
  {
    BoundaryIsFound(s, i, e);
    AbbreviationIsFound(s, start, i);
    forall x: nat, y: nat | CanCut(s, start, x, y)
      ensures e <= x
    {
      if i < x < e { NoMarkInside(s, i, e, x); }
    }
  }

  lemma CutIsFirst(s: string, start: nat, i: nat, e: nat)
    requires start <= i < |s| && NoneBefore(s, start, i) && Boundary(s, i) == Some(e) && !Abbreviated(s[start..i + 1])
    ensures FirstCut(s, start, i, e)
  {
    BoundaryIsFound(s, i, e);
    AbbreviationIsFound(s, start, i);
    forall x: nat, y: nat | CanCut(s, start, x, y)
      ensures i <= x && e <= y
    {
      if x == i {
        BoundaryIsFound(s, i, y);
      } else if x < e {
        NoMarkInside(s, i, e, x);
      }
    }
  }

  lemma OneMoreSentence(s: string, x: Sentence, e: nat, rest: seq<Sentence>)
    requires x.off <= e <= |s| && AreSentences(s, e, rest) && rest != [] && IsFollowed(s, x, e)
    ensures AreSentences(s, x.off, [x] + rest)
  {
    var found := [x] + rest;
    forall a, b | 0 <= a < b < |found| && b == a + 1
      ensures FollowedAt(s, found, a, b)
    {
      if a > 0 { assert FollowedAt(s, rest, a - 1, b - 1); }
    }
  }

  lemma TailIsLast(s: string, start: nat)
    requires start <= |s| && NoneBefore(s, start, |s|)
    ensures AreSentences(s, start, SentencesFrom(s, start, |s|))
  {
    StripIsStripped(s, start, |s|);
    assert s[start..] == s[start..|s|];
    var tail := Strip(s[start..]);
    if tail == "" {
      var x: nat, y: nat :| IsPart(tail, s, start, |s|, x, y);
      assert x == y;
    } else {
      assert IsLast(s, Sentence(start, tail));
    }
  }

  lemma {:induction false} ScannerFinds(s: string, start: nat, i: nat)
    requires start <= i <= |s| && NoneBefore(s, start, i)
    ensures AreSentences(s, start, SentencesFrom(s, start, i))
    decreases |s| - i
  {
    hide AreSentences, NoneBefore, Boundary, Abbreviated, FirstCut;
    if i == |s| {
      TailIsLast(s, start);
    } else {
      match Boundary(s, i)
      case None =>
        OneMoreScanned(s, start, i, i + 1);
        ScannerFinds(s, start, i + 1);
      case Some(e) =>
        if Abbreviated(s[start..i + 1]) {
          PastAbbreviation(s, start, i, e);
          ScannerFinds(s, start, e);
        } else {
          NothingBeforeStart(s, e);
          ScannerFinds(s, e, e);
          CutFound(s, start, i, e);
        }
    }
  }

  lemma NothingBeforeStart(s: string, start: nat)
    ensures NoneBefore(s, start, start)
  {
  }

  lemma CutFound(s: string, start: nat, i: nat, e: nat)
    requires start <= i < e < |s| && NoneBefore(s, start, i)
    requires Boundary(s, i) == Some(e) && !Abbreviated(s[start..i + 1])
    requires AreSentences(s, e, SentencesFrom(s, e, e))
    ensures AreSentences(s, start, [Sentence(start, Strip(s[start..i + 1]))] + SentencesFrom(s, e, e))
  {
    hide SentencesFrom, Strip;
    CutIsFirst(s, start, i, e);
    StripIsStripped(s, start, i + 1);
    var x, rest := Sentence(start, Strip(s[start..i + 1])), SentencesFrom(s, e, e);
    assert IsFollowed(s, x, e);
    assert !AllBlank(s, e, |s|) by { assert !IsSpace(s[e]); }
    OneMoreSentence(s, x, e, rest);
  }

  /**
   The sentences of a block: each later start is the first place after the one before it that an
   end mark, closers and at least one blank precede and an opener follows, where the text up to
   the end mark ends in no abbreviation; each text is what lies up to the end mark, stripped; and
   after the last start there is no such place.
   */
  lemma SentencesAreCut(block: string)
    ensures AreSentences(block, 0, SentencesFrom(block, 0, 0))
  {
    NothingBeforeStart(block, 0);
    ScannerFinds(block, 0, 0);
  }

  // ----- The slices are cut where the sentences start

  ghost predicate HidesSpans(text: string, spans: seq<Span>, masked: string) {
    |masked| == |text| && forall k :: 0 <= k < |text| ==> masked[k] == if Inside(spans, k) then 'X' else text[k]
  }

  /** Each slice runs from its sentence's start to the next one's, or to the end. */
  ghost predicate AreSlices(text: string, found: seq<Sentence>, slices: seq<Sentence>) {
    |slices| == |found| && forall k :: 0 <= k < |slices| ==>
      var end := if k + 1 < |found| then found[k + 1].off else |text|;
      slices[k].off == found[k].off <= end <= |text| && slices[k].text == text[found[k].off..end]
  }

  lemma SlicesAreBetween(text: string, found: seq<Sentence>)
    requires AreStarts(text, 0, Starts(found))
    ensures AreSlices(text, found, Slices(text, Starts(found)))
  {
    var starts := Starts(found);
    var slices := Slices(text, starts);
    forall k | 0 <= k < |slices|
      ensures var end := if k + 1 < |found| then found[k + 1].off else |text|;
        slices[k].off == found[k].off <= end <= |text| && slices[k].text == text[found[k].off..end]
    {
      if k + 1 < |found| { assert starts[k] < starts[k + 1]; }
    }
  }

  /** The slices of a text are those between the sentences that are cut when its code spans are written as `X`s. */
  lemma SlicesAreCut(text: string, spans: seq<Span>, masked: string)
    requires AreLeftmost(CodePattern(text), 0, spans) && HidesSpans(text, spans, masked)
    ensures var starts := Starts(SentencesFrom(Masked(text), 0, 0));
      AreStarts(Masked(text), 0, starts) &&
      exists found :: AreSentences(masked, 0, found) && AreSlices(text, found, Slices(text, starts))
  {
    hide AreLeftmost, CodePattern, SentencesFrom;
    SpansAreLeftmost(text, spans);
    assert masked == Masked(text);
    var found := SentencesFrom(masked, 0, 0);
    SentencesAreCut(masked);
    SentencesStart(masked, 0, 0);
    SlicesAreBetween(text, found);
  }
}
