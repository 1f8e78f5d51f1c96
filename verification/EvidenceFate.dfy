/**
 Where a rule's evidence comes from, over every text: a rule that shares its list with no lead-in
 takes the evidence of the first block that serves it, and keeps it; a lead-in's only grows; and
 nothing crosses a heading.
 */
module EvidenceFate {
  import opened Wrappers
  import opened BlockForest
  import opened Evidence
  import opened EvidenceTerms
  import opened EvidenceRuns

  // ----- Rules at rest

  /** Nothing can change the rule's evidence any more. */
  ghost predicate AtRest(s: State, p: Owed) {
    Knows(s, p) && Quiet(s, p.rule) && !Waits(s.pending, p) &&
      (s.store.Of(p.rule) != [] || !Holds(s.section, Member(p.rule, p.block)))
  }

  lemma StepRests(s: State, x: Read, next: Option<nat>, parents: map<nat, Option<nat>>, p: Owed)
    requires Upward(parents) && AtRest(s, p)
    ensures var after := Step(s, x, next, parents); AtRest(after, p) && after.store.Of(p.rule) == s.store.Of(p.rule)
  {
    if Processed(x) {
      StepKnows(s, x, next, parents, p);
      StepQuiet(s, x, next, parents, p);
      StepStaysQuiet(s, x, next, parents, p);
    }
  }

  lemma {:induction false} RestsOn(text: seq<Read>, m: nat, n: nat, parents: map<nat, Option<nat>>, p: Owed)
    requires Upward(parents) && m <= n <= |text| && AtRest(After(text, m, parents), p)
    ensures AtRest(After(text, n, parents), p)
    ensures After(text, n, parents).store.Of(p.rule) == After(text, m, parents).store.Of(p.rule)
    decreases n
  {
    hide Step;
    if m < n {
      RestsOn(text, m, n - 1, parents, p);
      StepRests(After(text, n - 1, parents), text[n - 1], NextLine(text, n - 1), parents, p);
    }
  }

  /** A rule that starts with evidence keeps just that. */
  lemma EvidenceAtBirthStays(text: seq<Read>, i: nat, k: nat, n: nat, parents: map<nat, Option<nat>>)
    requires Upward(parents) && i < n <= |text| && k < |text[i].rules| && Processed(text[i])
    requires Birth(text[i], k) != []
    ensures EvidenceOf(text, i, k, n, parents) == Birth(text[i], k)
  {
    StepMakes(After(text, i, parents), text[i], NextLine(text, i), parents, k);
    StepMakesQuiet(After(text, i, parents), text[i], NextLine(text, i), parents, k);
    RestsOn(text, i + 1, n, parents, RuleOf(text, i, k, parents));
  }

  /** No evidence crosses a heading: what a rule has there it keeps. */
  lemma NoEvidenceCrossesHeading(text: seq<Read>, i: nat, k: nat, h: nat, n: nat, parents: map<nat, Option<nat>>)
    requires Upward(parents) && i < h < n <= |text| && k < |text[i].rules| && Processed(text[i])
    requires text[h].block.kind == HeadingKind
    ensures EvidenceOf(text, i, k, n, parents) == EvidenceOf(text, i, k, h, parents)
  {
    var p := RuleOf(text, i, k, parents);
    Known(text, i, k, h, parents);
    assert AtRest(After(text, h + 1, parents), p);
    RestsOn(text, h + 1, n, parents, p);
  }

  // ----- Which evidence is whose

  lemma StepNumbers(s: State, x: Read, next: Option<nat>, parents: map<nat, Option<nat>>)
    requires Upward(parents) && s.Valid()
    ensures |Step(s, x, next, parents).store.refs| == |s.store.refs| + (if Processed(x) then |x.rules| else 0)
  {
  }

  /** Rules are numbered in the order of their blocks. */
  lemma {:induction false} RulesAreNumbered(text: seq<Read>, n: nat, parents: map<nat, Option<nat>>)
    requires Upward(parents) && n <= |text|
    ensures |After(text, n, parents).store.refs| == RulesBefore(text, n)
  {
    hide Step;
    if n > 0 {
      RulesAreNumbered(text, n - 1, parents);
      StepNumbers(After(text, n - 1, parents), text[n - 1], NextLine(text, n - 1), parents);
    }
  }

  /** What the reader ends with: rule `k` of block `i` is the one after those of the blocks before. */
  method EvidenceOfRule(text: seq<Read>, i: nat, k: nat, parents: map<nat, Option<nat>>) returns (evidence: seq<Tag>)
    requires Upward(parents) && i < |text| && k < |text[i].rules| && Processed(text[i])
    ensures evidence == EvidenceOf(text, i, k, |text|, parents)
  {
    var all := ReadRules(text, parents);
    RulesAreNumbered(text, i, parents);
    Known(text, i, k, |text|, parents);
    evidence := all[RulesBefore(text, i) + k];
  }

  // ----- Lead-ins

  lemma StepGrows(s: State, x: Read, next: Option<nat>, parents: map<nat, Option<nat>>, p: Owed)
    requires Upward(parents) && Knows(s, p) && p.leadIn
    ensures s.store.Of(p.rule) <= Step(s, x, next, parents).store.Of(p.rule)
  {
    if Processed(x) {
      GivenMoves(s, x, parents);
      GivenRule(s, x, parents, p);
      ClosedRule(s, x, next, parents, p);
    }
  }

  /** A lead-in's evidence only grows: what it had stays, in order, at the front. */
  lemma {:induction false} LeadInOnlyGrows(text: seq<Read>, i: nat, k: nat, m: nat, n: nat,
          parents: map<nat, Option<nat>>)
    requires Upward(parents) && i < m <= n <= |text| && k < |text[i].rules| && Processed(text[i])
    requires text[i].rules[k].leadIn
    ensures EvidenceOf(text, i, k, m, parents) <= EvidenceOf(text, i, k, n, parents)
    decreases n
  {
    hide Step;
    if m < n {
      LeadInOnlyGrows(text, i, k, m, n - 1, parents);
      Known(text, i, k, n - 1, parents);
      StepGrows(After(text, n - 1, parents), text[n - 1], NextLine(text, n - 1), parents, RuleOf(text, i, k, parents));
    }
  }

  // ----- The closing pass against the waiting rules

  /** A rule that the closing pass cites is one whose wait the same block has just ended. */
  lemma CitesAnswers(x: Read, next: Option<nat>, b: nat, top: nat, parents: map<nat, Option<nat>>)
    requires Upward(parents) && Closing(x) && Cites(x, next, b, top, parents)
    ensures Answers(x, b, parents)
  {
  }

  /** The closing pass never writes to a rule that still waits. */
  lemma ClosingSparesWaiting(s: State, x: Read, next: Option<nat>, parents: map<nat, Option<nat>>, p: Owed)
    requires Upward(parents) && Knows(s, p) && Processed(x) && Waits(Step(s, x, next, parents).pending, p)
    ensures var given, closed := Given(s, x, parents), Closed(s, x, next, parents);
      closed.refs[p.rule] == given.refs[p.rule] && closed.Of(p.rule) == given.Of(p.rule)
  {
    StepKnows(s, x, next, parents, p);
    ClosedRule(s, x, next, parents, p);
    if Closing(x) && p.leadIn {
      var born := BornTo(s.store, x, |x.rules|);
      OweFeeds(born, x, s.pending, |s.pending|, parents, p);
      assert x.evidence[0] in Given(s, x, parents).Of(p.rule);
    }
  }

  // ----- The passes against the terms

  lemma StepStarts(s: State, x: Read, next: Option<nat>, parents: map<nat, Option<nat>>)
    requires Upward(parents) && s.Valid()
    ensures Step(s, x, next, parents).topStart == if StartsTop(x) then x.block.line else s.topStart
  {
  }

  lemma {:induction false} TopStartIsBefore(text: seq<Read>, n: nat, parents: map<nat, Option<nat>>)
    requires Upward(parents) && InOrder(text) && 0 < n <= |text|
    ensures After(text, n, parents).topStart <= text[n - 1].block.line
  {
    hide Step;
    StepStarts(After(text, n - 1, parents), text[n - 1], NextLine(text, n - 1), parents);
    if n > 1 { TopStartIsBefore(text, n - 1, parents); }
  }

  /** `top_start` is past a block exactly when a list at the top level has started since. */
  lemma {:induction false} TopStartIs(text: seq<Read>, i: nat, n: nat, parents: map<nat, Option<nat>>)
    requires Upward(parents) && InOrder(text) && i < n <= |text|
    ensures After(text, n, parents).topStart <= text[i].block.line <==> NoneStarts(text, i, n)
    decreases n
  {
    hide Step;
    StepStarts(After(text, n - 1, parents), text[n - 1], NextLine(text, n - 1), parents);
    if n == i + 1 {
      TopStartIsBefore(text, n, parents);
    } else {
      TopStartIs(text, i, n - 1, parents);
      assert NoneStarts(text, i, n) <==> NoneStarts(text, i, n - 1) && !StartsTop(text[n - 1]);
    }
  }

  /** What is known of a rule that no lead-in shares its list with. */
  ghost predicate FateIs(text: seq<Read>, i: nat, k: nat, n: nat, parents: map<nat, Option<nat>>)
    requires Upward(parents) && i < n <= |text| && k < |text[i].rules|
  {
    var s, p := After(text, n, parents), RuleOf(text, i, k, parents);
    && Knows(s, p) && Quiet(s, p.rule)
    && s.store.Of(p.rule) == ServedEvidence(text, i, n, parents)
    && (Holds(s.section, Member(p.rule, p.block)) <==> InSection(text, i, n))
    && (Waits(s.pending, p) <==>
        InSection(text, i, n) && Unended(text, i, n, parents) && FirstServer(text, i, n, parents) == None)
  }

  lemma StepPasses(s: State, x: Read, next: Option<nat>, parents: map<nat, Option<nat>>)
    requires Upward(parents) && s.Valid() && !Processed(x)
    ensures Step(s, x, next, parents) == if x.block.kind == HeadingKind then State(s.store, [], [], x.block.line) else s
  {
  }

  /** What reading one more block does to where the rule stands in the text. */
  lemma OneMoreRead(text: seq<Read>, i: nat, n: nat, n': nat, parents: map<nat, Option<nat>>)
    requires Upward(parents) && i < n < n' <= |text| && n' == n + 1
    ensures InSection(text, i, n') <==> InSection(text, i, n) && text[n].block.kind != HeadingKind
    ensures Unended(text, i, n', parents) <==> Unended(text, i, n, parents) && !EndsWait(text, i, n, parents)
    ensures FirstServer(text, i, n', parents) ==
      if FirstServer(text, i, n, parents) == None && Serves(text, i, n, parents) then Some(n)
      else FirstServer(text, i, n, parents)
  {
    hide Serves, EndsWait;
  }

  lemma FatePasses(text: seq<Read>, i: nat, k: nat, n: nat, n': nat, parents: map<nat, Option<nat>>)
    requires Upward(parents) && i < n < n' <= |text| && n' == n + 1 && k < |text[i].rules|
    requires !Processed(text[n]) && FateIs(text, i, k, n, parents)
    ensures FateIs(text, i, k, n', parents)
  {
    hide Step;
    StepPasses(After(text, n, parents), text[n], NextLine(text, n), parents);
    OneMoreRead(text, i, n, n', parents);
  }

  /** The closing pass and the reference agree on which lists block `n` closes. */
  lemma ClosesAsCited(text: seq<Read>, i: nat, n: nat, parents: map<nat, Option<nat>>)
    requires Upward(parents) && InOrder(text) && i < n < |text|
    ensures ClosesListOf(text, i, n, parents) <==>
      Closing(text[n]) && Cites(text[n], NextLine(text, n), text[i].block.line, After(text, n, parents).topStart,
        parents)
  {
    hide Step;
    TopStartIs(text, i, n, parents);
  }

  /** The passes agree with the terms on which blocks answer a rule, and which end its wait. */
  lemma AnswersAsSaid(text: seq<Read>, i: nat, m: nat, parents: map<nat, Option<nat>>)
    requires Upward(parents) && i < |text| && m < |text|
    ensures Answers(text[m], text[i].block.line, parents) <==> AnswersAt(text, i, m, parents)
    ensures Processed(text[m]) ==> (Ends(text[m], text[i].block.line, parents) <==> EndsWait(text, i, m, parents))
    ensures AnswersAt(text, i, m, parents) ==> text[m].evidence != []
  {
  }

  lemma FateStep(text: seq<Read>, i: nat, k: nat, n: nat, n': nat, parents: map<nat, Option<nat>>)
    requires Upward(parents) && InOrder(text) && i < n < n' <= |text| && n' == n + 1 && k < |text[i].rules|
    requires !text[i].rules[k].leadIn && FateIs(text, i, k, n, parents) && Processed(text[n])
    ensures FateIs(text, i, k, n', parents)
  {
    hide Step, IsWithin, Cites, Closing, ClosesListOf, Ends, EndsWait, Answers, AnswersAt;
    AnswersAsSaid(text, i, n, parents);
    var s, x, next, p := After(text, n, parents), text[n], NextLine(text, n), RuleOf(text, i, k, parents);
    StepKnows(s, x, next, parents, p);
    StepQuiet(s, x, next, parents, p);
    StepStaysQuiet(s, x, next, parents, p);
    OneMoreRead(text, i, n, n', parents);
    ClosesAsCited(text, i, n, parents);
    if ClosesListOf(text, i, n, parents) { CitesAnswers(x, next, p.block, s.topStart, parents); }
  }

  lemma {:induction false} FateHolds(text: seq<Read>, i: nat, k: nat, n: nat, parents: map<nat, Option<nat>>)
    requires Upward(parents) && InOrder(text) && i < n <= |text| && k < |text[i].rules| && Processed(text[i])
    requires !text[i].rules[k].leadIn && Birth(text[i], k) == [] && !Shares(text[i], k)
    ensures FateIs(text, i, k, n, parents)
    decreases n
  {
    hide Step;
    if n == i + 1 {
      StepMakes(After(text, i, parents), text[i], NextLine(text, i), parents, k);
      StepMakesQuiet(After(text, i, parents), text[i], NextLine(text, i), parents, k);
    } else {
      FateHolds(text, i, k, n - 1, parents);
      if Processed(text[n - 1]) {
        FateStep(text, i, k, n - 1, n, parents);
      } else {
        FatePasses(text, i, k, n - 1, n, parents);
      }
    }
  }

  /**
   A rule that is no lead-in, starts with nothing and shares its list with no lead-in has, at every
   point of the text, the evidence of the first block that serves it, and none before that block.
   */
  lemma EvidenceIsFirstServed(text: seq<Read>, i: nat, k: nat, n: nat, parents: map<nat, Option<nat>>)
    requires Upward(parents) && InOrder(text) && i < n <= |text| && k < |text[i].rules| && Processed(text[i])
    requires !text[i].rules[k].leadIn && Birth(text[i], k) == [] && !Shares(text[i], k)
    ensures EvidenceOf(text, i, k, n, parents) == ServedEvidence(text, i, n, parents)
  {
    FateHolds(text, i, k, n, parents);
  }
}
