/**
 What `finditer` and `sub` find of a pattern: the matches met from left to right, each sought
 after the end of the one before. `match(i, e)` says that the pattern matches from `i` to `e`.
 */
module Leftmost {

  datatype Span = Span(start: nat, end: nat)

  predicate Over(span: Span, k: int) { span.start <= k < span.end }

  predicate Inside(spans: seq<Span>, k: int) {
    exists a :: 0 <= a < |spans| && Over(spans[a], k)
  }

  /** `i` is strictly inside a span: text is cut there. */
  predicate Within(spans: seq<Span>, i: int) {
    exists a :: 0 <= a < |spans| && spans[a].start < i < spans[a].end
  }

  /** No match is empty, and from one place there is at most one. */
  ghost predicate IsPattern(matches: (nat, nat) -> bool) {
    && (forall i, e :: matches(i, e) ==> i < e)
    && (forall i, e, f :: matches(i, e) && matches(i, f) ==> e == f)
  }

  ghost predicate IsMatch(matches: (nat, nat) -> bool, i: nat, span: Span) {
    i <= span.start && matches(span.start, span.end)
  }

  ghost predicate AllMatch(matches: (nat, nat) -> bool, i: nat, spans: seq<Span>) {
    forall a :: 0 <= a < |spans| ==> IsMatch(matches, i, spans[a])
  }

  ghost predicate Apart(spans: seq<Span>) { forall a, b :: 0 <= a < b < |spans| ==> spans[a].end <= spans[b].start }

  ghost predicate AllInside(matches: (nat, nat) -> bool, i: nat, spans: seq<Span>) {
    forall k, e :: i <= k && matches(k, e) ==> Inside(spans, k)
  }

  /**
   The leftmost matches from `i` on: each span is a match, none starts before the one before it
   ends, and wherever a match begins there is a span over it.
   */
  ghost predicate AreLeftmost(matches: (nat, nat) -> bool, i: nat, spans: seq<Span>) {
    AllMatch(matches, i, spans) && Apart(spans) && AllInside(matches, i, spans)
  }

  lemma InsideOfMore(span: Span, rest: seq<Span>, k: nat)
    ensures Inside([span] + rest, k) <==> Over(span, k) || Inside(rest, k)
  {
    var spans := [span] + rest;
    assert spans[0] == span;
    if Inside(rest, k) {
      var a :| 0 <= a < |rest| && Over(rest[a], k);
      assert spans[a + 1] == rest[a];
    }
  }

  lemma MatchOf(matches: (nat, nat) -> bool, i: nat, spans: seq<Span>, a: nat)
    requires AllMatch(matches, i, spans) && a < |spans|
    ensures IsMatch(matches, i, spans[a])
  {
  }

  lemma SpanOver(spans: seq<Span>, k: nat) returns (a: nat)
    requires Inside(spans, k)
    ensures a < |spans| && Over(spans[a], k)
  {
    a :| 0 <= a < |spans| && Over(spans[a], k);
  }

  lemma SpanOverMatch(matches: (nat, nat) -> bool, i: nat, spans: seq<Span>, k: nat, e: nat) returns (a: nat)
    requires AllInside(matches, i, spans) && i <= k && matches(k, e)
    ensures a < |spans| && Over(spans[a], k)
  {
    a := SpanOver(spans, k);
  }

  lemma MatchesOfMore(matches: (nat, nat) -> bool, i: nat, e: nat, rest: seq<Span>)
    requires i <= e && matches(i, e) && AllMatch(matches, e, rest)
    ensures AllMatch(matches, i, [Span(i, e)] + rest)
  {
    var spans := [Span(i, e)] + rest;
    forall a | 0 <= a < |spans|
      ensures IsMatch(matches, i, spans[a])
    {
      if a > 0 { MatchOf(matches, e, rest, a - 1); }
    }
  }

  lemma ApartWithMore(matches: (nat, nat) -> bool, i: nat, e: nat, rest: seq<Span>)
    requires AllMatch(matches, e, rest) && Apart(rest)
    ensures Apart([Span(i, e)] + rest)
  {
    hide AllMatch;
    var spans := [Span(i, e)] + rest;
    forall a, b | 0 <= a < b < |spans|
      ensures spans[a].end <= spans[b].start
    {
      MatchOf(matches, e, rest, b - 1);
      assert spans[b] == rest[b - 1] && (a > 0 ==> spans[a] == rest[a - 1]);
    }
  }

  lemma InsideWithMore(matches: (nat, nat) -> bool, i: nat, e: nat, rest: seq<Span>)
    requires i < e && AllInside(matches, e, rest)
    ensures AllInside(matches, i, [Span(i, e)] + rest)
  {
    hide Inside;
    forall k, f | i <= k && matches(k, f)
      ensures Inside([Span(i, e)] + rest, k)
    {
      InsideOfMore(Span(i, e), rest, k);
    }
  }

  /** A match at `i`, then the leftmost matches from its end on. */
  lemma MatchFirst(matches: (nat, nat) -> bool, i: nat, e: nat, rest: seq<Span>)
    requires IsPattern(matches) && matches(i, e) && AreLeftmost(matches, e, rest)
    ensures AreLeftmost(matches, i, [Span(i, e)] + rest)
  {
    hide AllMatch, AllInside, Apart;
    MatchesOfMore(matches, i, e, rest);
    ApartWithMore(matches, i, e, rest);
    InsideWithMore(matches, i, e, rest);
  }

  lemma NoMatchFirst(matches: (nat, nat) -> bool, i: nat, n: nat, rest: seq<Span>)
    requires n == i + 1 && AreLeftmost(matches, n, rest) && forall e :: !matches(i, e)
    ensures AreLeftmost(matches, i, rest)
  {
    hide Inside;
    assert AllInside(matches, i, rest);
    hide AllInside;
    assert forall a :: 0 <= a < |rest| ==> IsMatch(matches, n, rest[a]);
  }

  /** The first span of one list starts no earlier than the first of the other. */
  lemma FirstIsFirst(matches: (nat, nat) -> bool, i: nat, a: seq<Span>, b: seq<Span>)
    requires IsPattern(matches) && AreLeftmost(matches, i, a) && AreLeftmost(matches, i, b) && a != []
    ensures b != [] && b[0].start <= a[0].start
  {
    hide AllMatch, AllInside, Inside;
    MatchOf(matches, i, a, 0);
    var x := SpanOverMatch(matches, i, b, a[0].start, a[0].end);
    MatchOf(matches, i, b, 0);
  }

  lemma SameFirst(matches: (nat, nat) -> bool, i: nat, a: seq<Span>, b: seq<Span>)
    requires IsPattern(matches) && AreLeftmost(matches, i, a) && AreLeftmost(matches, i, b) && a != []
    ensures b != [] && b[0] == a[0]
  {
    FirstIsFirst(matches, i, a, b);
    FirstIsFirst(matches, i, b, a);
    hide AllMatch, AllInside, Inside;
    MatchOf(matches, i, a, 0);
    MatchOf(matches, i, b, 0);
  }

  lemma RestIsLeftmost(matches: (nat, nat) -> bool, i: nat, a: seq<Span>, rest: seq<Span>)
    requires IsPattern(matches) && AreLeftmost(matches, i, a) && a != [] && rest == a[1..]
    ensures AreLeftmost(matches, a[0].end, rest)
  {
    hide AllMatch, AllInside, Inside;
    MatchOf(matches, i, a, 0);
    RestMatches(matches, i, a, rest);
    RestInside(matches, i, a, rest);
  }

  lemma RestMatches(matches: (nat, nat) -> bool, i: nat, a: seq<Span>, rest: seq<Span>)
    requires AllMatch(matches, i, a) && Apart(a) && a != [] && rest == a[1..]
    ensures AllMatch(matches, a[0].end, rest)
  {
    forall x | 0 <= x < |rest|
      ensures IsMatch(matches, a[0].end, rest[x])
    {
      MatchOf(matches, i, a, x + 1);
    }
  }

  lemma RestInside(matches: (nat, nat) -> bool, i: nat, a: seq<Span>, rest: seq<Span>)
    requires AllInside(matches, i, a) && a != [] && i <= a[0].end && rest == a[1..]
    ensures AllInside(matches, a[0].end, rest)
  {
    hide Inside;
    assert a == [a[0]] + rest;
    forall k, e | a[0].end <= k && matches(k, e)
      ensures Inside(rest, k)
    {
      InsideOfMore(a[0], rest, k);
    }
  }

  /** There is one list of leftmost matches. */
  lemma {:induction false} LeftmostIsUnique(matches: (nat, nat) -> bool, i: nat, a: seq<Span>, b: seq<Span>)
    requires IsPattern(matches) && AreLeftmost(matches, i, a) && AreLeftmost(matches, i, b)
    ensures a == b
    decreases |a|
  {
    hide AreLeftmost, IsPattern;
    if a == [] {
      if b != [] { SameFirst(matches, i, b, a); }
    } else {
      SameFirst(matches, i, a, b);
      RestIsLeftmost(matches, i, a, a[1..]);
      RestIsLeftmost(matches, i, b, b[1..]);
      LeftmostIsUnique(matches, a[0].end, a[1..], b[1..]);
    }
  }
}
