/**
 The truncator of scripts/gen-rules-index.py: a sentence of more than `limit` words is cut after
 a clause, or else at the limit, but never inside a code span or a bold run.
 The end of the last keyword is found by a regular expression, and given.
 */
module Shortening {
  import opened Wrappers
  import opened Text
  import opened Leftmost
  import opened CodeSpans
  import opened BoldRuns

  const MARK := " \U{2026}"

  // ----- Code spans and bold runs

  function Uncut(s: string): seq<Span> { Spans(s) + BoldFrom(s, 0) }

  /** A span lies in the text and ends with a backtick or a star. */
  ghost predicate Delimited(s: string, span: Span) {
    span.start < span.end <= |s| && (s[span.end - 1] == TICK || s[span.end - 1] == STAR)
  }

  lemma {:induction false} BoldDelimited(s: string, i: nat)
    ensures forall a :: 0 <= a < |BoldFrom(s, i)| ==> Delimited(s, BoldFrom(s, i)[a])
    decreases |s| - i
  {
    if i < |s| {
      match BoldEnd(s, i)
      case Some(e) => BoldDelimited(s, e);
      case None => BoldDelimited(s, i + 1);
    }
  }

  lemma UncutDelimited(s: string)
    ensures forall a :: 0 <= a < |Uncut(s)| ==> Delimited(s, Uncut(s)[a])
  {
    BoldDelimited(s, 0);
    SpansAreApart(s, 0);
    assert forall a :: 0 <= a < |Spans(s)| ==> IsSpan(s, 0, Spans(s)[a]);
  }

  // ----- Words: `split(" ")` and `" ".join`

  function NextBlank(s: string, i: nat): (r: nat)
    requires i <= |s|
    ensures i <= r <= |s| && forall k :: i <= k < r ==> s[k] != ' '
    ensures r < |s| ==> s[r] == ' '
    decreases |s| - i
  {
    if i < |s| && s[i] != ' ' then NextBlank(s, i + 1) else i
  }

  /** The words of a text from `i` on. */
  function WordsFrom(s: string, i: nat): (r: seq<string>)
    requires i <= |s|
    ensures r != []
    decreases |s| - i
  {
    var j := NextBlank(s, i);
    if j == |s| then [s[i..]] else [s[i..j]] + WordsFrom(s, j + 1)
  }

  // ----- The word loop

  /** The word the loop stops before. */
  function StopAt(words: seq<string>, spans: seq<Span>, limit: int, n: nat): (r: nat)
    requires n <= |words|
    ensures n <= r <= |words|
    ensures r < |words| ==> r >= limit && !Within(spans, StartOf(words, r))
    ensures forall k :: n <= k < r && k >= limit ==> Within(spans, StartOf(words, k))
    decreases |words| - n
  {
    if n == |words| || (n >= limit && !Within(spans, StartOf(words, n))) then n
    else StopAt(words, spans, limit, n + 1)
  }

  predicate Dropped(c: char) { c == ',' || c == ';' || c == ':' }

  /** How much of the first `n` characters `rstrip(",;:")` keeps. */
  function KeptTo(s: string, n: nat): (r: nat)
    requires n <= |s|
    ensures r <= n && forall k :: r <= k < n ==> Dropped(s[k])
    ensures r > 0 ==> !Dropped(s[r - 1])
  {
    if n > 0 && Dropped(s[n - 1]) then KeptTo(s, n - 1) else n
  }

  function StripMarks(s: string): string { s[..KeptTo(s, |s|)] }

  // ----- The clause cut

  /** A colon or a semicolon before a blank, after the last keyword and in no span. */
  predicate ClauseEnd(s: string, spans: seq<Span>, last: int, i: nat)
    requires i < |s|
  {
    (s[i] == ':' || s[i] == ';') && i + 1 < |s| && IsSpace(s[i + 1]) && i > last && !Within(spans, i)
  }

  function FirstClause(s: string, spans: seq<Span>, last: int, i: nat): (r: nat)
    requires i <= |s|
    ensures i <= r <= |s|
    ensures r < |s| ==> ClauseEnd(s, spans, last, r)
    ensures forall k :: i <= k < r ==> !ClauseEnd(s, spans, last, k)
    decreases |s| - i
  {
    if i == |s| || ClauseEnd(s, spans, last, i) then i else FirstClause(s, spans, last, i + 1)
  }

  /** What `shorten` returns. */
  function Shortened(sentence: string, limit: int, last: int): string {
    var words, spans := WordsFrom(sentence, 0), Uncut(sentence);
    if |words| <= limit then sentence
    else
      var c := FirstClause(sentence, spans, last, 0);
      if c < |sentence| && |WordsFrom(sentence[..c], 0)| <= limit then sentence[..c] + MARK
      else StripMarks(Joined(words, 0, StopAt(words, spans, limit, 0), ' ')) + MARK
  }

  method Shorten(sentence: string, limit: int, last: int) returns (short: string)
    ensures short == Shortened(sentence, limit, last)
  {
    var words := WordsFrom(sentence, 0);
    if |words| <= limit { return sentence; }
    var spans := Uncut(sentence);
    var i: nat := 0;
    while i < |sentence| && !ClauseEnd(sentence, spans, last, i)
      invariant i <= |sentence| && FirstClause(sentence, spans, last, i) == FirstClause(sentence, spans, last, 0)
    {
      i := i + 1;
    }
    if i < |sentence| {
      var head := sentence[..i];
      if |WordsFrom(head, 0)| <= limit { return head + MARK; }
    }
    var out: string, n: nat, pos := "", 0, 0;
    while n < |words|
      invariant n <= |words| && pos == StartOf(words, n) && out == Joined(words, 0, n, ' ')
      invariant StopAt(words, spans, limit, n) == StopAt(words, spans, limit, 0)
    {
      if n >= limit && !Within(spans, pos) { break; }
      out := if n == 0 then words[n] else out + " " + words[n];
      pos := pos + |words[n]| + 1;
      n := n + 1;
    }
    short := StripMarks(out) + MARK;
  }

  // ----- The words of a sentence are its slices

  /** Word `n` is at its place in the text, between blanks or at an end. */
  ghost predicate IsWordAt(s: string, words: seq<string>, i: nat, n: nat)
    requires n < |words|
  {
    var a := i + StartOf(words, n);
    var e := a + |words[n]|;
    && e <= |s| && words[n] == s[a..e]
    && (if n + 1 < |words| then e < |s| && s[e] == ' ' else e == |s|)
  }

  lemma {:induction false} StartOfTail(word: string, rest: seq<string>, n: nat)
    requires n <= |rest|
    ensures StartOf([word] + rest, n + 1) == |word| + 1 + StartOf(rest, n)
  {
    if n > 0 { StartOfTail(word, rest, n - 1); }
  }

  lemma FirstWordIsSlice(s: string, i: nat)
    requires i <= |s|
    ensures IsWordAt(s, WordsFrom(s, i), i, 0)
  {
    var j := NextBlank(s, i);
    assert s[i..] == s[i..|s|];
  }

  lemma LaterWordIsSlice(s: string, i: nat, j: nat, rest: seq<string>, n: nat)
    requires i <= j < |s| && 0 < n <= |rest| && IsWordAt(s, rest, j + 1, n - 1)
    ensures IsWordAt(s, [s[i..j]] + rest, i, n)
  {
    StartOfTail(s[i..j], rest, n - 1);
  }

  lemma {:induction false} WordsAreSlices(s: string, i: nat, n: nat)
    requires i <= |s| && n < |WordsFrom(s, i)|
    ensures IsWordAt(s, WordsFrom(s, i), i, n)
    decreases |s| - i
  {
    var j := NextBlank(s, i);
    if n == 0 {
      FirstWordIsSlice(s, i);
    } else {
      WordsAreSlices(s, j + 1, n - 1);
      LaterWordIsSlice(s, i, j, WordsFrom(s, j + 1), n);
    }
  }

  /** Joined again, the first words are the text up to the blank after them. */
  lemma {:induction false} JoinIsPrefix(s: string, n: nat)
    requires 0 < n <= |WordsFrom(s, 0)|
    ensures var words := WordsFrom(s, 0); var e := StartOf(words, n) - 1;
      0 <= e <= |s| && Joined(words, 0, n, ' ') == s[..e] && (if n < |words| then e < |s| && s[e] == ' ' else e == |s|)
  {
    var words := WordsFrom(s, 0);
    WordsAreSlices(s, 0, n - 1);
    if n > 1 {
      JoinIsPrefix(s, n - 1);
      var a := StartOf(words, n - 1);
      assert s[..a] == s[..a - 1] + " ";
    }
  }

  // ----- How many words a prefix has

  /** The blanks among the first `k` characters. */
  function Blanks(s: string, k: nat): nat
    requires k <= |s|
  {
    if k == 0 then 0 else Blanks(s, k - 1) + (if s[k - 1] == ' ' then 1 else 0)
  }

  lemma {:induction false} NoBlanks(s: string, i: nat, k: nat)
    requires i <= k <= |s| && forall j :: i <= j < k ==> s[j] != ' '
    ensures Blanks(s, k) == Blanks(s, i)
  {
    if i < k { NoBlanks(s, i, k - 1); }
  }

  lemma {:induction false} BlanksInPrefix(s: string, e: nat, k: nat)
    requires k <= e <= |s|
    ensures Blanks(s[..e], k) == Blanks(s, k)
  {
    if k > 0 { BlanksInPrefix(s, e, k - 1); }
  }

  /** A text has one word more than it has blanks. */
  lemma {:induction false} WordsByBlanks(s: string, i: nat)
    requires i <= |s|
    ensures |WordsFrom(s, i)| + Blanks(s, i) == 1 + Blanks(s, |s|)
    decreases |s| - i
  {
    var j := NextBlank(s, i);
    NoBlanks(s, i, j);
    if j < |s| { WordsByBlanks(s, j + 1); }
  }

  /** No word has a blank. */
  lemma {:induction false} NoBlankInWord(s: string, i: nat, n: nat)
    requires i <= |s| && n < |WordsFrom(s, i)|
    ensures forall k :: 0 <= k < |WordsFrom(s, i)[n]| ==> WordsFrom(s, i)[n][k] != ' '
    decreases |s| - i
  {
    if n > 0 { NoBlankInWord(s, NextBlank(s, i) + 1, n - 1); }
  }

  lemma BlanksOver(s: string, word: string, a: nat)
    requires a + |word| <= |s| && word == s[a..a + |word|] && forall k :: 0 <= k < |word| ==> word[k] != ' '
    ensures Blanks(s, a + |word|) == Blanks(s, a)
  {
    assert forall k :: a <= k < a + |word| ==> s[k] == word[k - a];
    NoBlanks(s, a, a + |word|);
  }

  /** Across word `n` there is no blank. */
  lemma BlanksOverWord(s: string, n: nat)
    requires n < |WordsFrom(s, 0)|
    ensures var words := WordsFrom(s, 0); var a := StartOf(words, n);
      a + |words[n]| <= |s| && Blanks(s, a + |words[n]|) == Blanks(s, a)
  {
    WordsAreSlices(s, 0, n);
    NoBlankInWord(s, 0, n);
    hide WordsFrom, StartOf, Blanks;
    BlanksOver(s, WordsFrom(s, 0)[n], StartOf(WordsFrom(s, 0), n));
  }

  /** Up to the end of word `n` there are `n` blanks. */
  lemma {:induction false} BlanksBefore(s: string, n: nat)
    requires n < |WordsFrom(s, 0)|
    ensures var words := WordsFrom(s, 0); var a := StartOf(words, n);
      a + |words[n]| <= |s| && Blanks(s, a) == n == Blanks(s, a + |words[n]|)
  {
    hide WordsFrom;
    BlanksOverWord(s, n);
    if n > 0 {
      WordsAreSlices(s, 0, n - 1);
      BlanksBefore(s, n - 1);
    }
  }

  /** Where the first `n` words end, the marks `,;:` there dropped. */
  function EndOf(s: string, n: nat): (r: nat)
    requires n <= |WordsFrom(s, 0)|
    ensures r <= |s|
  {
    if n == 0 then 0
    else
      JoinIsPrefix(s, n);
      KeptTo(s, StartOf(WordsFrom(s, 0), n) - 1)
  }

  /** Cut after its first `n` words, with the marks there dropped, a text has `n` words. */
  lemma WordsOfCut(s: string, n: nat)
    requires 0 < n <= |WordsFrom(s, 0)|
    ensures |WordsFrom(s[..EndOf(s, n)], 0)| == n
  {
    hide KeptTo, Blanks;
    var words := WordsFrom(s, 0);
    var e, m := StartOf(words, n) - 1, EndOf(s, n);
    JoinIsPrefix(s, n);
    BlanksBefore(s, n - 1);
    NoBlanks(s, m, e);
    BlanksInPrefix(s, m, m);
    WordsByBlanks(s[..m], 0);
    assert Blanks(s[..m], 0) == 0 by { NoBlanks(s[..m], 0, 0); BlanksInPrefix(s, m, 0); BlanksBefore(s, 0); }
  }

  // ----- What a shortened sentence is

  /** A cut of a sentence at `m`: the text before it and the mark. */
  ghost predicate CutAt(sentence: string, short: string, m: int) {
    0 <= m <= |sentence| && short == sentence[..m] + MARK
  }

  lemma PrefixNotCut(s: string, e: nat, spans: seq<Span>)
    requires e <= |s| && (e < |s| ==> s[e] == ' ' && !Within(spans, e + 1))
    requires forall a :: 0 <= a < |spans| ==> Delimited(s, spans[a])
    ensures !Within(spans, KeptTo(s, e))
  {
    var m := KeptTo(s, e);
    forall a | 0 <= a < |spans|
      ensures !(spans[a].start < m < spans[a].end)
    {
      assert Delimited(s, spans[a]);
      assert !Dropped(s[spans[a].end - 1]) && s[spans[a].end - 1] != ' ';
    }
  }

  lemma {:induction false} KeptInPrefix(s: string, e: nat, n: nat)
    requires n <= e <= |s|
    ensures KeptTo(s[..e], n) == KeptTo(s, n)
  {
    if n > 0 { KeptInPrefix(s, e, n - 1); }
  }

  /** `k` is strictly inside one of the spans. */
  ghost predicate CutBy(spans: seq<Span>, k: int) { exists a :: 0 <= a < |spans| && spans[a].start < k < spans[a].end }

  ghost predicate InLeftmost(matches: (nat, nat) -> bool, k: int) {
    exists spans :: AreLeftmost(matches, 0, spans) && CutBy(spans, k)
  }

  /** Place `k` is strictly inside a code span or a bold run. */
  ghost predicate InCodeOrBold(s: string, k: int) { InLeftmost(CodePattern(s), k) || InLeftmost(BoldPattern(s), k) }

  lemma CodesCut(s: string, k: int)
    ensures InLeftmost(CodePattern(s), k) <==> CutBy(Spans(s), k)
  {
    hide AreLeftmost, Spans, CutBy;
    SpansAreLeftmost(s, Spans(s));
    forall spans { SpansAreLeftmost(s, spans); }
  }

  lemma BoldsCut(s: string, k: int)
    ensures InLeftmost(BoldPattern(s), k) <==> CutBy(BoldFrom(s, 0), k)
  {
    hide AreLeftmost, BoldFrom, CutBy;
    BoldsAreLeftmost(s, BoldFrom(s, 0));
    forall spans { BoldsAreLeftmost(s, spans); }
  }

  lemma WithinEither(a: seq<Span>, b: seq<Span>, k: int)
    ensures Within(a + b, k) <==> CutBy(a, k) || CutBy(b, k)
  {
    if i :| 0 <= i < |a| && a[i].start < k < a[i].end {
      assert (a + b)[i] == a[i];
    }
    if i :| 0 <= i < |b| && b[i].start < k < b[i].end {
      assert (a + b)[|a| + i] == b[i];
    }
  }

  /** The spans that are not cut are the code spans and the bold runs, all of them and no other. */
  lemma UncutIsCodeOrBold(s: string, k: int)
    ensures Within(Uncut(s), k) <==> InCodeOrBold(s, k)
  {
    hide CutBy, InLeftmost, Within;
    CodesCut(s, k);
    BoldsCut(s, k);
    WithinEither(Spans(s), BoldFrom(s, 0), k);
  }

  lemma UncutIsAll(s: string)
    ensures forall k :: Within(Uncut(s), k) <==> InCodeOrBold(s, k)
  {
    forall k { UncutIsCodeOrBold(s, k); }
  }

  /** A colon or a semicolon before a blank, past the last keyword and not inside a code span or a bold run. */
  ghost predicate EndsClause(s: string, last: int, m: int) {
    && last < m && 0 <= m < |s| - 1 && (s[m] == ';' || s[m] == ':') && IsSpace(s[m + 1])
    && !InCodeOrBold(s, m)
  }

  /** The first such place, when at most `limit` words precede it. */
  ghost predicate IsClauseCut(s: string, limit: int, last: int, m: int) {
    && EndsClause(s, last, m) && (forall i :: 0 <= i < m ==> !EndsClause(s, last, i))
    && |WordsFrom(s[..m], 0)| <= limit
  }

  /** The first word from `limit` on that does not start inside a code span or a bold run, or the sentence's end. */
  ghost predicate IsStop(s: string, limit: int, n: nat) {
    var words := WordsFrom(s, 0);
    && n <= |words| && (n < |words| ==> n >= limit && !InCodeOrBold(s, StartOf(words, n)))
    && forall k :: 0 <= k < n && k >= limit ==> InCodeOrBold(s, StartOf(words, k))
  }

  /** The first `e` characters without the marks `,;:` at their end are the first `m`. */
  predicate LosesMarks(s: string, e: nat, m: nat)
    requires e <= |s|
  {
    && m <= e && (forall k :: m <= k < e ==> s[k] == ',' || s[k] == ';' || s[k] == ':')
    && (m > 0 ==> s[m - 1] != ',' && s[m - 1] != ';' && s[m - 1] != ':')
  }

  /** The end of the word before the stop, the marks there dropped. */
  ghost predicate IsWordCut(s: string, limit: int, m: nat) {
    var words := WordsFrom(s, 0);
    exists n :: IsStop(s, limit, n) &&
      if n == 0 then m == 0 else 0 < StartOf(words, n) <= |s| + 1 && LosesMarks(s, StartOf(words, n) - 1, m)
  }

  lemma NothingJoined(words: seq<string>)
    ensures Joined(words, 0, 0, ' ') == ""
  {
  }

  /** What the word loop writes is the sentence up to its cut. */
  lemma WordLoopWrites(s: string, n: nat)
    requires n <= |WordsFrom(s, 0)|
    ensures StripMarks(Joined(WordsFrom(s, 0), 0, n, ' ')) == s[..EndOf(s, n)]
  {
    hide WordsFrom, StartOf, Joined, KeptTo;
    NothingJoined(WordsFrom(s, 0));
    if n > 0 {
      var e := StartOf(WordsFrom(s, 0), n) - 1;
      JoinIsPrefix(s, n);
      KeptInPrefix(s, e, e);
      assert s[..e][..KeptTo(s, e)] == s[..KeptTo(s, e)];
    }
  }

  lemma NotWithinStart(spans: seq<Span>)
    ensures !Within(spans, 0)
  {
  }

  lemma WordLoopCuts(s: string, limit: int)
    ensures var n := StopAt(WordsFrom(s, 0), Uncut(s), limit, 0);
      IsWordCut(s, limit, EndOf(s, n)) && !InCodeOrBold(s, EndOf(s, n))
  {
    hide InCodeOrBold, WordsFrom, Uncut, Within;
    var words, spans := WordsFrom(s, 0), Uncut(s);
    var n := StopAt(words, spans, limit, 0);
    UncutIsAll(s);
    assert IsStop(s, limit, n);
    UncutDelimited(s);
    if n > 0 {
      JoinIsPrefix(s, n);
      PrefixNotCut(s, StartOf(words, n) - 1, spans);
    } else {
      NotWithinStart(spans);
    }
  }

  /** Where a sentence of more than `limit` words is cut. */
  function CutOf(s: string, limit: int, last: int): (m: nat)
    ensures m <= |s|
  {
    var c := FirstClause(s, Uncut(s), last, 0);
    if c < |s| && |WordsFrom(s[..c], 0)| <= limit then c else EndOf(s, StopAt(WordsFrom(s, 0), Uncut(s), limit, 0))
  }

  lemma CutIsCutOf(s: string, limit: int, last: int)
    requires |WordsFrom(s, 0)| > limit
    ensures Shortened(s, limit, last) == s[..CutOf(s, limit, last)] + MARK
  {
    WordLoopWrites(s, StopAt(WordsFrom(s, 0), Uncut(s), limit, 0));
  }

  ghost predicate NoClauseCut(s: string, limit: int, last: int) { forall c :: !IsClauseCut(s, limit, last, c) }

  lemma ClauseCutIsFirst(s: string, limit: int, last: int)
    ensures var c := FirstClause(s, Uncut(s), last, 0);
      NoClauseCut(s, limit, last) <==> c == |s| || |WordsFrom(s[..c], 0)| > limit
  {
    hide InCodeOrBold, Within, Uncut, WordsFrom;
    var c := FirstClause(s, Uncut(s), last, 0);
    UncutIsAll(s);
    assert forall i: nat :: i < |s| ==> (ClauseEnd(s, Uncut(s), last, i) <==> EndsClause(s, last, i));
    assert c < |s| && |WordsFrom(s[..c], 0)| <= limit ==> IsClauseCut(s, limit, last, c);
    assert forall d :: IsClauseCut(s, limit, last, d) ==> d == c;
  }

  /** Stopping at the limit would fall inside a span, and no clause end will do. */
  ghost predicate LimitInSpan(s: string, limit: int, last: int) {
    && NoClauseCut(s, limit, last) && 0 <= limit < |WordsFrom(s, 0)|
    && InCodeOrBold(s, StartOf(WordsFrom(s, 0), limit))
  }

  /** Stopping at the limit, or before any later word, would fall inside a span, and no clause end will do. */
  ghost predicate RestInSpans(s: string, limit: nat, last: int) {
    && NoClauseCut(s, limit, last)
    && forall k :: limit <= k < |WordsFrom(s, 0)| ==> InCodeOrBold(s, StartOf(WordsFrom(s, 0), k))
  }

  /** The cut leaves more than `limit` words exactly when stopping at the limit would fall inside a span. */
  lemma OverLimitIff(s: string, limit: int, last: int)
    requires |WordsFrom(s, 0)| > limit
    ensures |WordsFrom(s[..CutOf(s, limit, last)], 0)| > limit <==> limit < 1 || LimitInSpan(s, limit, last)
  {
    hide InCodeOrBold, Within, Uncut, WordsFrom;
    var n := StopAt(WordsFrom(s, 0), Uncut(s), limit, 0);
    UncutIsAll(s);
    ClauseCutIsFirst(s, limit, last);
    if n > 0 {
      WordsOfCut(s, n);
    } else {
      NotWithinStart(Uncut(s));
    }
  }

  /** Cut after its first words, a sentence loses only the marks at its end when those are all its words. */
  lemma EndLosesMarks(s: string, n: nat)
    requires 0 < n <= |WordsFrom(s, 0)|
    ensures LosesMarks(s, |s|, EndOf(s, n)) <==> n == |WordsFrom(s, 0)|
  {
    hide WordsFrom, StartOf;
    JoinIsPrefix(s, n);
    assert !Dropped(' ');
  }

  lemma ClauseKeepsMore(s: string, last: int, c: nat)
    requires c < |s| && ClauseEnd(s, Uncut(s), last, c)
    ensures !LosesMarks(s, |s|, c)
  {
    hide Uncut, Within;
    assert IsSpace(s[c + 1]);
  }

  /** The marks at the end of a sentence are what is dropped exactly when no word is. */
  lemma KeptWholeIff(s: string, limit: nat, last: int)
    requires |WordsFrom(s, 0)| > limit >= 1
    ensures LosesMarks(s, |s|, CutOf(s, limit, last)) <==> RestInSpans(s, limit, last)
  {
    hide WordsFrom, StartOf, Uncut, Within, StopAt, InCodeOrBold, LosesMarks, NoClauseCut, EndOf;
    var n, c := StopAt(WordsFrom(s, 0), Uncut(s), limit, 0), FirstClause(s, Uncut(s), last, 0);
    UncutIsAll(s);
    ClauseCutIsFirst(s, limit, last);
    EndLosesMarks(s, n);
    if c < |s| { ClauseKeepsMore(s, last, c); }
  }

  /** `short` is the sentence up to `m` and the mark, cut where it should be. */
  ghost predicate IsShortening(sentence: string, short: string, limit: int, last: int, m: nat) {
    && CutAt(sentence, short, m) && !InCodeOrBold(sentence, m)
    && (IsClauseCut(sentence, limit, last, m) ||
        (IsWordCut(sentence, limit, m) && NoClauseCut(sentence, limit, last)))
    && (|WordsFrom(sentence[..m], 0)| > limit <==> limit < 1 || LimitInSpan(sentence, limit, last))
    && (limit >= 1 ==> (LosesMarks(sentence, |sentence|, m) <==> RestInSpans(sentence, limit, last)))
  }

  lemma CutIsShortening(s: string, limit: int, last: int)
    requires |WordsFrom(s, 0)| > limit
    ensures IsShortening(s, Shortened(s, limit, last), limit, last, CutOf(s, limit, last))
  {
    CutIsAllowed(s, limit, last);
    hide InCodeOrBold, WordsFrom, LimitInSpan, RestInSpans, NoClauseCut, IsWordCut, IsClauseCut, CutOf, Shortened,
      LosesMarks;
    CutIsCutOf(s, limit, last);
    OverLimitIff(s, limit, last);
    if limit >= 1 { KeptWholeIff(s, limit, last); }
  }

  lemma CutIsAllowed(s: string, limit: int, last: int)
    requires |WordsFrom(s, 0)| > limit
    ensures var m := CutOf(s, limit, last);
      !InCodeOrBold(s, m) && (IsClauseCut(s, limit, last, m) || (IsWordCut(s, limit, m) && NoClauseCut(s, limit, last)))
  {
    hide InCodeOrBold, WordsFrom, IsWordCut, Uncut, Within;
    UncutIsAll(s);
    var c := FirstClause(s, Uncut(s), last, 0);
    assert forall i: nat :: i < |s| ==> (ClauseEnd(s, Uncut(s), last, i) <==> EndsClause(s, last, i));
    ClauseCutIsFirst(s, limit, last);
    WordLoopCuts(s, limit);
  }

  /**
   A shortened sentence is the sentence itself, when it is short enough, or else a prefix of it
   and the mark: nothing is reworded, the cut is strictly inside no code span or bold run, and
   it is after a clause or, where no clause end will do, before the first word from the limit on
   that does not start inside a span. More than `limit` words are left exactly when stopping at
   the limit would fall inside a span and no clause end will do; and when every later word starts
   inside one too, and only then, no word is left out although the mark is added.
   */
  lemma ShortenedIsCut(sentence: string, limit: int, last: int)
    ensures var short := Shortened(sentence, limit, last);
      if |WordsFrom(sentence, 0)| <= limit then short == sentence
      else exists m :: IsShortening(sentence, short, limit, last, m)
  {
    hide IsShortening;
    if |WordsFrom(sentence, 0)| > limit { CutIsShortening(sentence, limit, last); }
  }

  lemma SpanOfTicks(s: string)
    requires s == "`a b`"
    ensures Inside(Spans(s), 3) && Within(Uncut(s), 3)
  {
    hide BoldFrom, WordsFrom;
    assert Ticks(s, 3) == Ticks(s, 2) == 0 && Ticks(s, 4) == 1;
    assert CloseFrom(s, 3, 1) == Some(4);
    assert SpanEnd(s, 0, 1) == Some(5);
    assert Spans(s)[0] == Span(0, 5) == Uncut(s)[0];
  }

  lemma WordsOfTicks(s: string)
    requires s == "`a b`"
    ensures |WordsFrom(s, 0)| == 2 && StartOf(WordsFrom(s, 0), 1) == 3
  {
    hide Spans, Uncut;
    WordsAreSlices(s, 0, 0);
    NoBlanks(s, 0, 2);
    NoBlanks(s, 3, 5);
    WordsByBlanks(s, 0);
    NoBlankInWord(s, 0, 0);
    assert s[2] == ' ' && s[0] != ' ' && s[1] != ' ' && s[3] != ' ' && s[4] != ' ';
  }

  lemma {:induction false} NoClauseIn(s: string, spans: seq<Span>, last: int, i: nat)
    requires i <= |s| && forall k :: i <= k < |s| ==> s[k] != ':' && s[k] != ';'
    ensures FirstClause(s, spans, last, i) == |s|
    decreases |s| - i
  {
    if i < |s| { NoClauseIn(s, spans, last, i + 1); }
  }

  lemma TicksHoldTheRest(s: string)
    requires s == "`a b`"
    ensures |WordsFrom(s, 0)| == 2 && RestInSpans(s, 1, 0)
  {
    hide WordsFrom, Uncut, StartOf, Within, FirstClause, InCodeOrBold, NoClauseCut;
    WordsOfTicks(s);
    SpanOfTicks(s);
    UncutIsCodeOrBold(s, 3);
    NoClauseIn(s, Uncut(s), 0, 0);
    ClauseCutIsFirst(s, 1, 0);
  }

  lemma NothingLost(s: string, m: nat)
    requires s != "" && !Dropped(s[|s| - 1]) && LosesMarks(s, |s|, m)
    ensures s[..m] == s
  {
  }

  /** A code span of two words, with a limit of one: both words are kept, and the mark is added all the same. */
  lemma CodeSpanIsKeptWhole()
    ensures var s := "`a b`"; |WordsFrom(s, 0)| == 2 && Shortened(s, 1, 0) == s + MARK
  {
    var s := "`a b`";
    assert !Dropped(s[|s| - 1]);
    hide *;
    TicksHoldTheRest(s);
    KeptWholeIff(s, 1, 0);
    NothingLost(s, CutOf(s, 1, 0));
    CutIsCutOf(s, 1, 0);
  }
}
