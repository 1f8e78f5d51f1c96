/** The bold runs of a text: `\*\*[^*]+\*\*` in scripts/gen-rules-index.py. */
module BoldRuns {
  import opened Wrappers
  import opened Leftmost

  const STAR := '*'

  function NextStar(s: string, i: nat): (r: nat)
    requires i <= |s|
    ensures i <= r <= |s|
    ensures r < |s| ==> s[r] == STAR
    decreases |s| - i
  {
    if i < |s| && s[i] != STAR then NextStar(s, i + 1) else i
  }

  /** The end of the match of `\*\*[^*]+\*\*` at `i`. */
  function BoldEnd(s: string, i: nat): (r: Option<nat>)
    requires i < |s|
    ensures r.Some? ==> i + 4 < r.value <= |s| && s[i] == STAR == s[r.value - 1]
  {
    if i + 1 < |s| && s[i] == STAR == s[i + 1] then
      var j := NextStar(s, i + 2);
      if i + 2 < j && j + 1 < |s| && s[j + 1] == STAR then Some(j + 2) else None
    else None
  }

  function BoldFrom(s: string, i: nat): seq<Span>
    decreases |s| - i
  {
    if i >= |s| then []
    else match BoldEnd(s, i)
      case Some(e) => [Span(i, e)] + BoldFrom(s, e)
      case None => BoldFrom(s, i + 1)
  }

  // ----- What a bold run is

  /** Two stars, at least one character that is no star, and two stars. */
  ghost predicate IsBold(s: string, i: nat, e: nat) {
    && i + 4 < e <= |s| && s[i] == s[i + 1] == '*' == s[e - 2] == s[e - 1]
    && forall k :: i + 2 <= k < e - 2 ==> s[k] != '*'
  }

  ghost function BoldPattern(s: string): (nat, nat) -> bool { (i: nat, e: nat) => IsBold(s, i, e) }

  lemma BoldIsPattern(s: string)
    ensures IsPattern(BoldPattern(s))
  {
    forall i: nat, e: nat, f: nat | IsBold(s, i, e) && IsBold(s, i, f)
      ensures e == f
    {
      assert s[e - 2] == '*' && s[f - 2] == '*';
    }
  }

  lemma {:induction false} NextStarIsFirst(s: string, i: nat)
    requires i <= |s|
    ensures forall k :: i <= k < NextStar(s, i) ==> s[k] != '*'
    decreases |s| - i
  {
    if i < |s| && s[i] != STAR { NextStarIsFirst(s, i + 1); }
  }

  lemma EndIsBold(s: string, i: nat)
    requires i < |s|
    ensures match BoldEnd(s, i)
      case Some(e) => IsBold(s, i, e)
      case None => forall e: nat :: !IsBold(s, i, e)
  {
    if i + 1 < |s| {
      NextStarIsFirst(s, i + 2);
      forall e: nat | IsBold(s, i, e)
        ensures NextStar(s, i + 2) == e - 2
      {
        assert s[e - 2] == '*';
      }
    }
  }

  lemma {:induction false} BoldFromIsLeftmost(s: string, i: nat)
    ensures AreLeftmost(BoldPattern(s), i, BoldFrom(s, i))
    decreases |s| - i
  {
    BoldIsPattern(s);
    hide AreLeftmost, IsBold;
    if i < |s| {
      EndIsBold(s, i);
      match BoldEnd(s, i)
      case Some(e) =>
        BoldFromIsLeftmost(s, e);
        MatchFirst(BoldPattern(s), i, e, BoldFrom(s, e));
      case None =>
        BoldFromIsLeftmost(s, i + 1);
        NoMatchFirst(BoldPattern(s), i, i + 1, BoldFrom(s, i + 1));
    } else {
      NoBoldPastEnd(s, i);
    }
  }

  lemma NoBoldPastEnd(s: string, i: nat)
    requires i >= |s|
    ensures AreLeftmost(BoldPattern(s), i, [])
  {
    assert forall k: nat, e: nat :: i <= k ==> !IsBold(s, k, e);
  }

  /** The runs found are the leftmost ones, all of them and no other. */
  lemma BoldsAreLeftmost(s: string, spans: seq<Span>)
    ensures spans == BoldFrom(s, 0) <==> AreLeftmost(BoldPattern(s), 0, spans)
  {
    BoldIsPattern(s);
    BoldFromIsLeftmost(s, 0);
    if AreLeftmost(BoldPattern(s), 0, spans) { LeftmostIsUnique(BoldPattern(s), 0, spans, BoldFrom(s, 0)); }
  }
}
