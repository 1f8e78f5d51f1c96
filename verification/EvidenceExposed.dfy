/**
 What a rule has that shares its list with a lead-in of its block: whatever the lead-in has
 collected, until a block answers the rule itself.
 */
module EvidenceExposed {
  import opened Wrappers
  import opened BlockForest
  import opened Evidence
  import opened EvidenceTerms
  import opened EvidenceRuns
  import opened EvidenceFate
  import opened EvidenceSharing
  import opened EvidenceLeadIns

  /** Block `m` answers the rules of block `i` while they wait. */
  ghost predicate AnswersWaiting(text: seq<Read>, i: nat, m: nat, parents: map<nat, Option<nat>>)
    requires Upward(parents) && i < |text| && m < |text|
  {
    && Processed(text[m]) && InSection(text, i, m) && Unended(text, i, m, parents)
    && AnswersAt(text, i, m, parents)
  }

  ghost function FirstAnswer(text: seq<Read>, i: nat, n: nat, parents: map<nat, Option<nat>>): (r: Option<nat>)
    requires Upward(parents) && i < n <= |text|
    ensures match r
      case Some(m) => i < m < n && AnswersWaiting(text, i, m, parents) &&
        forall l :: i < l < m ==> !AnswersWaiting(text, i, l, parents)
      case None => forall m :: i < m < n ==> !AnswersWaiting(text, i, m, parents)
    decreases n
  {
    if n == i + 1 then None
    else
      var before := FirstAnswer(text, i, n - 1, parents);
      if before == None && AnswersWaiting(text, i, n - 1, parents) then Some(n - 1) else before
  }

  ghost function ExposedEvidence(text: seq<Read>, i: nat, n: nat, parents: map<nat, Option<nat>>): seq<Tag>
    requires Upward(parents) && i < n <= |text|
  {
    match FirstAnswer(text, i, n, parents)
    case Some(m) => text[m].evidence
    case None => ListEvidence(text, i, n, parents)
  }

  // ----- One block

  /** The rule and the lead-in have the same evidence: on one list, or each with its own and neither waiting. */
  ghost predicate Alike(s: State, p: Owed, q: Owed) {
    && Knows(s, p) && Knows(s, q)
    && s.store.Of(p.rule) == s.store.Of(q.rule)
    && (s.store.refs[p.rule] == s.store.refs[q.rule] ||
       (AtRest(s, p) && !Waits(s.pending, q) && s.store.Of(p.rule) != []))
    && (Holds(s.section, Member(p.rule, p.block)) <==> Holds(s.section, Member(q.rule, q.block)))
  }

  lemma AloneIsQuiet(s: State, p: Owed)
    requires Knows(s, p) && Alone(s.store, p.rule) && !Waits(s.pending, p)
    ensures Quiet(s, p.rule)
  {
    forall a | 0 <= a < |s.pending| && s.pending[a].leadIn
      ensures s.store.refs[s.pending[a].rule] != s.store.refs[p.rule]
    {
      assert s.pending[a] == p ==> Waits(s.pending, p);
    }
  }

  /** A block that answers the rule gives it a list of its own, which nothing changes any more. */
  lemma StepParts(s: State, x: Read, next: Option<nat>, parents: map<nat, Option<nat>>, p: Owed)
    requires Upward(parents) && Knows(s, p) && !p.leadIn && Processed(x) && Waits(s.pending, p)
    requires Answers(x, p.block, parents)
    ensures var after := Step(s, x, next, parents); AtRest(after, p) && after.store.Of(p.rule) == x.evidence
  {
    GivenRule(s, x, parents, p);
    ClosedRule(s, x, next, parents, p);
    ClosedMoves(s, x, next, parents);
    StepKnows(s, x, next, parents, p);
    StaysAlone(Given(s, x, parents), Closed(s, x, next, parents), p.rule);
    AloneIsQuiet(Step(s, x, next, parents), p);
  }

  /**
   Two rules on one list that no block answers end the block on one list, or each with the
   closing paragraph's evidence.
   */
  lemma StepTogether(s: State, x: Read, next: Option<nat>, parents: map<nat, Option<nat>>, p: Owed, q: Owed)
    requires Upward(parents) && Alike(s, p, q) && p.block == q.block && !p.leadIn && q.leadIn && Processed(x)
    requires s.store.refs[p.rule] == s.store.refs[q.rule] && !(Waits(s.pending, p) && Answers(x, p.block, parents))
    ensures Alike(Step(s, x, next, parents), p, q)
  {
    var after := Step(s, x, next, parents);
    GivenRule(s, x, parents, p);
    GivenRule(s, x, parents, q);
    ClosedRule(s, x, next, parents, p);
    ClosedRule(s, x, next, parents, q);
    StepKnows(s, x, next, parents, p);
    StepKnows(s, x, next, parents, q);
    if after.store.refs[p.rule] != after.store.refs[q.rule] {
      CitesAnswers(x, next, p.block, s.topStart, parents);
      if Waits(after.pending, q) { ClosingSparesWaiting(s, x, next, parents, q); }
      AloneIsQuiet(after, p);
    }
  }

  // ----- Whole texts

  /** What is known of the rule `p` and the lead-in `q` of block `i`. */
  ghost predicate SharedIs(text: seq<Read>, i: nat, k: nat, j: nat, n: nat, parents: map<nat, Option<nat>>)
    requires Upward(parents) && i < n <= |text| && k < |text[i].rules| && j < |text[i].rules|
  {
    var s, p, q := After(text, n, parents), RuleOf(text, i, k, parents), RuleOf(text, i, j, parents);
    && LeadIs(text, i, j, n, parents)
    && match FirstAnswer(text, i, n, parents)
       case Some(m) => AtRest(s, p) && s.store.Of(p.rule) == text[m].evidence
       case None => Alike(s, p, q) && (Waits(s.pending, p) <==> InSection(text, i, n) && Unended(text, i, n, parents))
  }

  lemma OneMoreAnswer(text: seq<Read>, i: nat, n: nat, n': nat, parents: map<nat, Option<nat>>)
    requires Upward(parents) && i < n < n' <= |text| && n' == n + 1
    ensures FirstAnswer(text, i, n', parents) ==
      if FirstAnswer(text, i, n, parents) == None && AnswersWaiting(text, i, n, parents) then Some(n)
      else FirstAnswer(text, i, n, parents)
  {
    hide AnswersWaiting;
  }

  lemma LeadMoves(text: seq<Read>, i: nat, j: nat, n: nat, n': nat, parents: map<nat, Option<nat>>)
    requires Upward(parents) && InOrder(text) && i < n < n' <= |text| && n' == n + 1 && j < |text[i].rules|
    requires text[i].rules[j].leadIn && LeadIs(text, i, j, n, parents)
    ensures LeadIs(text, i, j, n', parents)
  {
    hide LeadIs;
    if Processed(text[n]) { LeadStep(text, i, j, n, n', parents); } else { LeadPasses(text, i, j, n, n', parents); }
  }

  /** A lead-in that waits no more and has evidence is given no more. */
  lemma ListIsOver(text: seq<Read>, i: nat, n: nat, n': nat, parents: map<nat, Option<nat>>)
    requires Upward(parents) && i < n < n' <= |text| && n' == n + 1
    requires !Unbroken(text, i, n, parents) && ListEvidence(text, i, n, parents) != []
    ensures ListEvidence(text, i, n', parents) == ListEvidence(text, i, n, parents)
  {
  }

  /** The rule and the lead-in over a block that answers the rule no more than the lead-in. */
  lemma AlikeStep(text: seq<Read>, i: nat, k: nat, j: nat, n: nat, n': nat, parents: map<nat, Option<nat>>)
    requires Upward(parents) && InOrder(text) && i < n < n' <= |text| && n' == n + 1 && k < |text[i].rules|
    requires j < |text[i].rules|
    requires !text[i].rules[k].leadIn && text[i].rules[j].leadIn && Processed(text[n])
    requires LeadIs(text, i, j, n, parents) && LeadIs(text, i, j, n', parents)
    requires var s, p := After(text, n, parents), RuleOf(text, i, k, parents);
      Alike(s, p, RuleOf(text, i, j, parents)) && !(Waits(s.pending, p) && Answers(text[n], p.block, parents))
    ensures Alike(After(text, n', parents), RuleOf(text, i, k, parents), RuleOf(text, i, j, parents))
  {
    hide Step, AtRest, Kin, Answers;
    var s, x, next := After(text, n, parents), text[n], NextLine(text, n);
    var p, q := RuleOf(text, i, k, parents), RuleOf(text, i, j, parents);
    if s.store.refs[p.rule] == s.store.refs[q.rule] {
      StepTogether(s, x, next, parents, p, q);
    } else {
      StepRests(s, x, next, parents, p);
      StepKnows(s, x, next, parents, p);
      StepKnows(s, x, next, parents, q);
      ListIsOver(text, i, n, n', parents);
    }
  }

  lemma SharedStep(text: seq<Read>, i: nat, k: nat, j: nat, n: nat, n': nat, parents: map<nat, Option<nat>>)
    requires Upward(parents) && InOrder(text) && i < n < n' <= |text| && n' == n + 1 && k < |text[i].rules|
    requires j < |text[i].rules|
    requires !text[i].rules[k].leadIn && text[i].rules[j].leadIn && Processed(text[n])
    requires SharedIs(text, i, k, j, n, parents)
    ensures SharedIs(text, i, k, j, n', parents)
  {
    hide Step, AtRest, LeadIs, Alike;
    var s, x, next, p := After(text, n, parents), text[n], NextLine(text, n), RuleOf(text, i, k, parents);
    LeadMoves(text, i, j, n, n', parents);
    OneMoreAnswer(text, i, n, n', parents);
    OneMoreRead(text, i, n, n', parents);
    if FirstAnswer(text, i, n, parents).Some? {
      StepRests(s, x, next, parents, p);
    } else {
      assert Knows(s, p) by { AlikeKnows(s, p, RuleOf(text, i, j, parents)); }
      if AnswersWaiting(text, i, n, parents) {
        StepParts(s, x, next, parents, p);
      } else {
        StepKnows(s, x, next, parents, p);
        AlikeStep(text, i, k, j, n, n', parents);
      }
    }
  }

  lemma AlikeKnows(s: State, p: Owed, q: Owed)
    requires Alike(s, p, q)
    ensures Knows(s, p)
  {
  }

  lemma AlikePasses(s: State, x: Read, next: Option<nat>, parents: map<nat, Option<nat>>, p: Owed, q: Owed)
    requires Upward(parents) && Alike(s, p, q) && !Processed(x)
    ensures var after := Step(s, x, next, parents);
      && Alike(after, p, q)
      && (Waits(after.pending, p) <==> Waits(s.pending, p) && x.block.kind != HeadingKind)
  {
    StepPasses(s, x, next, parents);
    hide Step;
  }

  lemma SharedPasses(text: seq<Read>, i: nat, k: nat, j: nat, n: nat, n': nat, parents: map<nat, Option<nat>>)
    requires Upward(parents) && InOrder(text) && i < n < n' <= |text| && n' == n + 1 && k < |text[i].rules|
    requires j < |text[i].rules|
    requires text[i].rules[j].leadIn && !Processed(text[n]) && SharedIs(text, i, k, j, n, parents)
    ensures SharedIs(text, i, k, j, n', parents)
  {
    hide Step, LeadIs, AtRest, Alike;
    var s, x, next, p := After(text, n, parents), text[n], NextLine(text, n), RuleOf(text, i, k, parents);
    LeadMoves(text, i, j, n, n', parents);
    OneMoreAnswer(text, i, n, n', parents);
    OneMoreRead(text, i, n, n', parents);
    if FirstAnswer(text, i, n, parents).Some? {
      StepRests(s, x, next, parents, p);
    } else {
      AlikePasses(s, x, next, parents, p, RuleOf(text, i, j, parents));
    }
  }

  lemma SharedStarts(text: seq<Read>, i: nat, k: nat, j: nat, n: nat, parents: map<nat, Option<nat>>)
    requires Upward(parents) && InOrder(text) && i < n <= |text| && n == i + 1 && k < |text[i].rules|
    requires j < |text[i].rules|
    requires Processed(text[i]) && text[i].rules[k].own == text[i].rules[j].own == text[i].evidence == []
    requires !text[i].rules[k].leadIn && text[i].rules[j].leadIn
    ensures SharedIs(text, i, k, j, n, parents)
  {
    hide Step;
    LeadHolds(text, i, j, n, parents);
    StartTogether(After(text, i, parents), text[i], NextLine(text, i), parents, k, j);
    StepMakes(After(text, i, parents), text[i], NextLine(text, i), parents, k);
    StepMakes(After(text, i, parents), text[i], NextLine(text, i), parents, j);
  }

  lemma {:induction false} SharedHolds(text: seq<Read>, i: nat, k: nat, j: nat, n: nat, parents: map<nat, Option<nat>>)
    requires Upward(parents) && InOrder(text) && i < n <= |text| && k < |text[i].rules| && j < |text[i].rules|
    requires Processed(text[i]) && text[i].rules[k].own == text[i].rules[j].own == text[i].evidence == []
    requires !text[i].rules[k].leadIn && text[i].rules[j].leadIn
    ensures SharedIs(text, i, k, j, n, parents)
    decreases n
  {
    hide SharedIs;
    if n == i + 1 {
      SharedStarts(text, i, k, j, n, parents);
    } else {
      SharedHolds(text, i, k, j, n - 1, parents);
      if Processed(text[n - 1]) {
        SharedStep(text, i, k, j, n - 1, n, parents);
      } else {
        SharedPasses(text, i, k, j, n - 1, n, parents);
      }
    }
  }

  /**
   A rule that leads no list and shares its list with a lead-in of its block has, at every point
   of the text, what the lead-in has, until a block answers it while it waits; from then on it
   has that block's evidence.
   */
  lemma EvidenceIsBorrowed(text: seq<Read>, i: nat, k: nat, n: nat, parents: map<nat, Option<nat>>)
    requires Upward(parents) && InOrder(text) && i < n <= |text| && k < |text[i].rules| && Processed(text[i])
    requires !text[i].rules[k].leadIn && Shares(text[i], k)
    ensures EvidenceOf(text, i, k, n, parents) == ExposedEvidence(text, i, n, parents)
  {
    hide Step;
    var j :| 0 <= j < |text[i].rules| && text[i].rules[j].leadIn && text[i].rules[j].own == [];
    SharedHolds(text, i, k, j, n, parents);
  }

  // ----- When a text settles the rule

  /** Block `m` gives the lead-in a tag it does not have. */
  ghost predicate AddsTag(text: seq<Read>, i: nat, m: nat, parents: map<nat, Option<nat>>)
    requires Upward(parents) && i < m < |text|
  {
    Feeds(text, i, m, parents) && !Covers(ListEvidence(text, i, m, parents), text[m].evidence)
  }

  /** Up to `end`, no block adds a tag once there is one. */
  ghost predicate AddsOnce(text: seq<Read>, i: nat, end: nat, parents: map<nat, Option<nat>>)
    requires Upward(parents) && i < |text| && end <= |text|
  {
    forall m :: i < m < end && AddsTag(text, i, m, parents) ==> ListEvidence(text, i, m, parents) == []
  }

  lemma GrowsIffAdds(text: seq<Read>, i: nat, m: nat, n: nat, parents: map<nat, Option<nat>>)
    requires Upward(parents) && i < m < n <= |text| && n == m + 1 && ListEvidence(text, i, m, parents) != []
    ensures ListEvidence(text, i, n, parents) == ListEvidence(text, i, m, parents) <==> !AddsTag(text, i, m, parents)
  {
    hide Feeds, ClosesListOf, InSection;
    var had, tags := ListEvidence(text, i, m, parents), text[m].evidence;
    AddedIsNew(had, tags);
    AddedCovers(had, tags, |tags|);
    if Covers(had, tags) { NothingToAdd(had, tags, |tags|); }
  }

  lemma {:induction false} ListStays(text: seq<Read>, i: nat, m: nat, n: nat, end: nat, parents: map<nat, Option<nat>>)
    requires Upward(parents) && i < m <= n <= end <= |text| && AddsOnce(text, i, end, parents)
    requires ListEvidence(text, i, m, parents) != []
    ensures ListEvidence(text, i, n, parents) == ListEvidence(text, i, m, parents)
    decreases n
  {
    hide ListEvidence;
    if m < n {
      ListStays(text, i, m, n - 1, end, parents);
      GrowsIffAdds(text, i, n - 1, n, parents);
    }
  }

  /** What the rule has before the block that answers it, and from then on. */
  lemma BorrowedUntil(text: seq<Read>, i: nat, k: nat, n: nat, parents: map<nat, Option<nat>>)
    requires Upward(parents) && InOrder(text) && i < n <= |text| && k < |text[i].rules| && Processed(text[i])
    requires !text[i].rules[k].leadIn && Shares(text[i], k)
    ensures var last := FirstAnswer(text, i, |text|, parents);
      EvidenceOf(text, i, k, n, parents) ==
        if last.Some? && last.value < n then text[last.value].evidence else ListEvidence(text, i, n, parents)
  {
    hide AnswersWaiting, ListEvidence, EvidenceOf;
    EvidenceIsBorrowed(text, i, k, n, parents);
    var now, last := FirstAnswer(text, i, n, parents), FirstAnswer(text, i, |text|, parents);
    assert now.Some? ==> AnswersWaiting(text, i, now.value, parents);
    assert last.Some? ==> AnswersWaiting(text, i, last.value, parents);
  }

  /** The block that answers the rule gives it what it had, if it had anything. */
  ghost predicate AnswersAlike(text: seq<Read>, i: nat, parents: map<nat, Option<nat>>)
    requires Upward(parents) && i < |text|
  {
    match FirstAnswer(text, i, |text|, parents)
    case Some(m) => ListEvidence(text, i, m, parents) == [] || ListEvidence(text, i, m, parents) == text[m].evidence
    case None => true
  }

  /**
   A text settles a rule that shares its list with a lead-in exactly when, before the block that
   answers the rule, at most the first block that feeds the lead-in adds a tag, and the block that
   answers the rule cites just what the lead-in has by then, if that is anything.
   */
  lemma SettledInTextIff(text: seq<Read>, i: nat, k: nat, parents: map<nat, Option<nat>>)
    requires Upward(parents) && InOrder(text) && i < |text| && k < |text[i].rules| && Processed(text[i])
    requires !text[i].rules[k].leadIn && Shares(text[i], k)
    ensures var last := FirstAnswer(text, i, |text|, parents);
      Settles(text, i, k, parents) <==>
      AddsOnce(text, i, if last.Some? then last.value else |text|, parents) && AnswersAlike(text, i, parents)
  {
    hide ListEvidence, EvidenceOf, AnswersWaiting;
    var last := FirstAnswer(text, i, |text|, parents);
    var end := if last.Some? then last.value else |text|;
    if Settles(text, i, k, parents) {
      SettledAdds(text, i, k, end, parents);
    } else if AddsOnce(text, i, end, parents) && AnswersAlike(text, i, parents) {
      AddsSettle(text, i, k, end, parents);
    }
  }

  lemma SettledAdds(text: seq<Read>, i: nat, k: nat, end: nat, parents: map<nat, Option<nat>>)
    requires Upward(parents) && InOrder(text) && i < |text| && k < |text[i].rules| && Processed(text[i])
    requires !text[i].rules[k].leadIn && Shares(text[i], k) && Settles(text, i, k, parents)
    requires var last := FirstAnswer(text, i, |text|, parents); end == if last.Some? then last.value else |text|
    ensures AddsOnce(text, i, end, parents) && AnswersAlike(text, i, parents)
  {
    hide ListEvidence, EvidenceOf, AddsTag;
    forall m | i < m < end && AddsTag(text, i, m, parents)
      ensures ListEvidence(text, i, m, parents) == []
    {
      BorrowedUntil(text, i, k, m, parents);
      BorrowedUntil(text, i, k, m + 1, parents);
      if ListEvidence(text, i, m, parents) != [] { GrowsIffAdds(text, i, m, m + 1, parents); }
    }
    if end < |text| {
      BorrowedUntil(text, i, k, end, parents);
      BorrowedUntil(text, i, k, end + 1, parents);
    }
  }

  lemma AddsSettle(text: seq<Read>, i: nat, k: nat, end: nat, parents: map<nat, Option<nat>>)
    requires Upward(parents) && InOrder(text) && i < |text| && k < |text[i].rules| && Processed(text[i])
    requires !text[i].rules[k].leadIn && Shares(text[i], k)
    requires var last := FirstAnswer(text, i, |text|, parents); end == if last.Some? then last.value else |text|
    requires AddsOnce(text, i, end, parents) && AnswersAlike(text, i, parents)
    ensures Settles(text, i, k, parents)
  {
    hide ListEvidence, EvidenceOf, AddsOnce;
    forall m, n | i < m <= n <= |text| && EvidenceOf(text, i, k, m, parents) != []
      ensures EvidenceOf(text, i, k, n, parents) == EvidenceOf(text, i, k, m, parents)
    {
      BorrowedUntil(text, i, k, m, parents);
      BorrowedUntil(text, i, k, n, parents);
      if m <= end { ListStays(text, i, m, if n <= end then n else end, end, parents); }
    }
  }
}
