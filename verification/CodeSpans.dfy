/** The inline code spans of a text: `(`+)(.+?)\1` in scripts/check-spec-prose.py. */
module CodeSpans {
  import opened Wrappers
  import opened Text
  import opened Leftmost

  const TICK := '`'

  /** How many backticks there are from `i` on, before another character. */
  function Ticks(s: string, i: nat): (r: nat)
    ensures i <= |s| ==> i + r <= |s|
    ensures forall k :: i <= k < i + r ==> k < |s| && s[k] == TICK
    ensures i + r < |s| ==> s[i + r] != TICK
    decreases |s| - i
  {
    if i < |s| && s[i] == TICK then 1 + Ticks(s, i + 1) else 0
  }

  /** The first run of `n` backticks from `j` on. */
  function CloseFrom(s: string, j: nat, n: nat): (r: Option<nat>)
    requires n > 0
    ensures r.Some? ==> j <= r.value && r.value + n <= |s| && s[r.value + n - 1] == TICK
    decreases |s| - j
  {
    if j + n > |s| then None
    else if Ticks(s, j) >= n then Some(j)
    else CloseFrom(s, j + 1, n)
  }

  /** The end of the match at `i` that opens with `n` backticks, or else with fewer. */
  function SpanEnd(s: string, i: nat, n: nat): (r: Option<nat>)
    ensures r.Some? ==> i + 2 < r.value <= |s| && s[r.value - 1] == TICK
  {
    if n == 0 then None
    else match CloseFrom(s, i + n + 1, n)
      case Some(j) => Some(j + n)
      case None => SpanEnd(s, i, n - 1)
  }

  /** The spans from `i` on, left to right. */
  function SpansFrom(s: string, i: nat): (r: seq<Span>)
    decreases |s| - i
  {
    if i >= |s| then []
    else match SpanEnd(s, i, Ticks(s, i))
      case Some(e) => [Span(i, e)] + SpansFrom(s, e)
      case None => SpansFrom(s, i + 1)
  }

  function Spans(s: string): seq<Span> { SpansFrom(s, 0) }

  ghost predicate IsSpan(s: string, i: nat, span: Span) {
    i <= span.start && span.start + 2 < span.end <= |s| && s[span.start] == TICK == s[span.end - 1]
  }

  ghost predicate SpansOf(s: string, i: nat, spans: seq<Span>) {
    && (forall a :: 0 <= a < |spans| ==> IsSpan(s, i, spans[a]))
    && (forall a, b :: 0 <= a < b < |spans| ==> spans[a].end <= spans[b].start)
  }

  lemma OneMoreSpan(s: string, i: nat, e: nat, rest: seq<Span>)
    requires IsSpan(s, i, Span(i, e)) && SpansOf(s, e, rest)
    ensures SpansOf(s, i, [Span(i, e)] + rest)
  {
    var all := [Span(i, e)] + rest;
    forall a | 0 <= a < |all|
      ensures IsSpan(s, i, all[a]) && (a > 0 ==> e <= all[a].start)
    {
      assert a > 0 ==> IsSpan(s, e, rest[a - 1]);
    }
  }

  /** Spans lie in the text in order, apart from each other, and start and end with a backtick. */
  lemma {:induction false} SpansAreApart(s: string, i: nat)
    ensures SpansOf(s, i, SpansFrom(s, i))
    decreases |s| - i
  {
    if i < |s| {
      match SpanEnd(s, i, Ticks(s, i))
      case Some(e) =>
        SpansAreApart(s, e);
        OneMoreSpan(s, i, e, SpansFrom(s, e));
      case None =>
        SpansAreApart(s, i + 1);
        LaterSpans(s, i, SpansFrom(s, i + 1));
    }
  }

  lemma LaterSpans(s: string, i: nat, spans: seq<Span>)
    requires SpansOf(s, i + 1, spans)
    ensures SpansOf(s, i, spans)
  {
    assert forall a :: 0 <= a < |spans| ==> IsSpan(s, i + 1, spans[a]);
  }

  // ----- What a code span is

  /** There are `n` backticks at `i`. */
  predicate TicksAt(s: string, i: nat, n: nat) { i + n <= |s| && forall k :: i <= k < i + n ==> s[k] == '`' }

  /** `n` backticks at `i` are closed at `j`: the first `n` backticks after them and at least one character. */
  ghost predicate ClosedAt(s: string, i: nat, n: nat, j: nat) {
    && n > 0 && TicksAt(s, i, n) && i + n < j && TicksAt(s, j, n)
    && forall l :: i + n < l < j ==> !TicksAt(s, l, n)
  }

  /** The code span at `i` ends at `e`: it opens with the most backticks that are closed. */
  ghost predicate IsCode(s: string, i: nat, e: nat) {
    exists n: nat, j: nat :: ClosedAt(s, i, n, j) && e == j + n && NoLonger(s, i, n)
  }

  ghost predicate NoLonger(s: string, i: nat, n: nat) { forall m: nat, l: nat :: ClosedAt(s, i, m, l) ==> m <= n }

  ghost function CodePattern(s: string): (nat, nat) -> bool { (i: nat, e: nat) => IsCode(s, i, e) }

  lemma CodeIsPattern(s: string)
    ensures IsPattern(CodePattern(s))
  {
    forall i: nat, e: nat, f: nat | IsCode(s, i, e) && IsCode(s, i, f)
      ensures e == f
    {
      var n: nat, j: nat :| ClosedAt(s, i, n, j) && e == j + n && NoLonger(s, i, n);
      var m: nat, l: nat :| ClosedAt(s, i, m, l) && f == l + m && NoLonger(s, i, m);
      assert m == n && j == l;
    }
  }

  lemma TicksAreAt(s: string, i: nat, n: nat)
    requires i <= |s|
    ensures TicksAt(s, i, n) <==> n <= Ticks(s, i)
  {
  }

  /** The search for the closing backticks finds the first. */
  lemma {:induction false} CloseIsFirst(s: string, j: nat, n: nat)
    requires n > 0
    ensures match CloseFrom(s, j, n)
      case Some(r) => TicksAt(s, r, n) && forall l :: j <= l < r ==> !TicksAt(s, l, n)
      case None => forall l :: j <= l ==> !TicksAt(s, l, n)
    decreases |s| - j
  {
    if j + n <= |s| {
      TicksAreAt(s, j, n);
      if Ticks(s, j) < n { CloseIsFirst(s, j + 1, n); }
    }
  }

  lemma CloseIsClosed(s: string, i: nat, n: nat)
    requires i < |s| && 0 < n <= Ticks(s, i)
    ensures match CloseFrom(s, i + n + 1, n)
      case Some(j) => ClosedAt(s, i, n, j)
      case None => forall l: nat :: !ClosedAt(s, i, n, l)
  {
    CloseIsFirst(s, i + n + 1, n);
    TicksAreAt(s, i, n);
  }

  /** No run of more than `m` and at most `n` backticks is closed. */
  ghost predicate NoneBetween(s: string, i: nat, m: nat, n: nat) {
    forall x: nat, l: nat :: m < x <= n ==> !ClosedAt(s, i, x, l)
  }

  /** Of the runs of at most `n` backticks, the longest that is closed. */
  lemma {:induction false} EndIsLongest(s: string, i: nat, n: nat)
    requires i < |s| && n <= Ticks(s, i)
    ensures match SpanEnd(s, i, n)
      case Some(e) => exists m: nat, j: nat :: ClosedAt(s, i, m, j) && e == j + m && NoneBetween(s, i, m, n)
      case None => NoneBetween(s, i, 0, n)
  {
    hide ClosedAt, CloseFrom;
    if n > 0 {
      CloseIsClosed(s, i, n);
      if CloseFrom(s, i + n + 1, n) == None {
        EndIsLongest(s, i, n - 1);
      }
    }
  }

  lemma EndIsCode(s: string, i: nat)
    requires i < |s|
    ensures match SpanEnd(s, i, Ticks(s, i))
      case Some(e) => IsCode(s, i, e)
      case None => forall e: nat :: !IsCode(s, i, e)
  {
    EndIsLongest(s, i, Ticks(s, i));
    forall m: nat, l: nat | ClosedAt(s, i, m, l)
      ensures m <= Ticks(s, i)
    {
      TicksAreAt(s, i, m);
    }
  }

  lemma NoCodePastEnd(s: string, i: nat)
    requires i >= |s|
    ensures AreLeftmost(CodePattern(s), i, [])
  {
    assert forall k: nat, n: nat, j: nat :: i <= k ==> !ClosedAt(s, k, n, j);
  }

  lemma {:induction false} SpansFromAreLeftmost(s: string, i: nat)
    ensures AreLeftmost(CodePattern(s), i, SpansFrom(s, i))
    decreases |s| - i
  {
    hide AreLeftmost, IsCode;
    CodeIsPattern(s);
    if i < |s| {
      EndIsCode(s, i);
      match SpanEnd(s, i, Ticks(s, i))
      case Some(e) =>
        SpansFromAreLeftmost(s, e);
        MatchFirst(CodePattern(s), i, e, SpansFrom(s, e));
      case None =>
        SpansFromAreLeftmost(s, i + 1);
        NoMatchFirst(CodePattern(s), i, i + 1, SpansFrom(s, i + 1));
    } else {
      NoCodePastEnd(s, i);
    }
  }

  /** The spans of a text are the leftmost code spans, all of them and no other. */
  lemma SpansAreLeftmost(s: string, spans: seq<Span>)
    ensures spans == Spans(s) <==> AreLeftmost(CodePattern(s), 0, spans)
  {
    CodeIsPattern(s);
    SpansFromAreLeftmost(s, 0);
    if AreLeftmost(CodePattern(s), 0, spans) { LeftmostIsUnique(CodePattern(s), 0, spans, Spans(s)); }
  }

  /** Without a backtick there is no span. */
  lemma {:induction false} NoTickNoSpan(s: string, i: nat)
    requires forall k :: 0 <= k < |s| ==> s[k] != TICK
    ensures SpansFrom(s, i) == []
    decreases |s| - i
  {
    if i < |s| { NoTickNoSpan(s, i + 1); }
  }
}
