/**
 The rules of a block that cite nothing share one list. What a lead-in among them collects shows
 in the others too, while they wait: for which blocks that can be seen, and for which it cannot.
 */
module EvidenceSharing {
  import opened Wrappers
  import opened BlockForest
  import opened Evidence
  import opened EvidenceTerms
  import opened EvidenceRuns
  import opened EvidenceFate

  function Blocks(text: seq<Read>): (r: seq<Block>)
    ensures |r| == |text| && forall i :: 0 <= i < |text| ==> r[i] == text[i].block
  {
    seq(|text|, i requires 0 <= i < |text| => text[i].block)
  }

  /** A text whose blocks form a forest, read with that forest's parents. */
  ghost predicate IsText(text: seq<Read>, parents: map<nat, Option<nat>>) { IsForest(Blocks(text), parents) }

  /** What `blocks_of` makes of a text is such a text, with the parents `read_rules` looks up. */
  lemma BuiltTextIsText(evs: seq<Event>, text: seq<Read>)
    requires Ordered(evs) && Blocks(text) == Forest(evs)
    ensures IsText(text, Parents(evs))
  {
    ForestIsForest(evs);
  }

  lemma TextIsInOrder(text: seq<Read>, parents: map<nat, Option<nat>>)
    requires IsText(text, parents)
    ensures Upward(parents) && InOrder(text)
  {
    forall a, b | 0 <= a < b < |text|
      ensures text[a].block.line < text[b].block.line
    {
      assert Blocks(text)[a].line < Blocks(text)[b].line;
    }
  }

  /** A paragraph that goes on a list item. */
  predicate Continues(x: Read) { x.block.kind == ProseKind && !x.block.item && x.block.parent.Some? }

  ghost predicate AllSkipped(text: seq<Read>, i: nat, n: nat)
    requires n <= |text|
  {
    forall m :: i < m < n ==> Skipped(text[m])
  }

  /** The next block's parent, if it has one, is an item before the paragraph. */
  lemma NextParent(text: seq<Read>, i: nat, y: nat, parents: map<nat, Option<nat>>) returns (b: nat)
    requires IsText(text, parents) && i < y < |text| && Continues(text[i]) && AllSkipped(text, i, y)
    requires text[y].block.parent.Some?
    ensures b < i && text[b].block.item && text[y].block.parent == Some(text[b].block.line) &&
      text[y].block.kind == ProseKind
  {
    var blocks := Blocks(text);
    assert Linked(blocks, parents, y);
    b :| ParentAt(blocks, y, b);
    assert Linked(blocks, parents, b);
  }

  /** The block after a continuing paragraph is not under it, and answers its rules if it is a paragraph of evidence. */
  lemma NextBlock(text: seq<Read>, i: nat, y: nat, parents: map<nat, Option<nat>>)
    requires IsText(text, parents) && i < y < |text| && Continues(text[i]) && AllSkipped(text, i, y)
    ensures !IsWithin(text[y].block.line, text[i].block.line, parents)
    ensures text[y].rules == [] && !text[y].block.item && text[y].evidence != [] ==>
      Answers(text[y], text[i].block.line, parents)
  {
    var blocks := Blocks(text);
    TextIsInOrder(text, parents);
    assert Linked(blocks, parents, y);
    if text[y].block.parent.Some? {
      var b := NextParent(text, i, y, parents);
      assert Interval(blocks, parents, b, i, y);
      assert IsWithin(text[b].block.line, text[b].block.line, parents);
      if IsWithin(text[b].block.line, text[i].block.line, parents) {
        WithinIsEarlier(text[b].block.line, text[i].block.line, parents);
      }
    }
  }

  // ----- One block, where the lead-ins that share the rule's list stop waiting

  /** Each lead-in on list `l` neither goes on nor takes anything at block `x`. */
  ghost predicate LetsGo(st: Store, x: Read, pending: seq<Owed>, l: nat, parents: map<nat, Option<nat>>)
    requires Upward(parents) && st.Valid() && InRange(pending, |st.refs|)
  {
    forall a :: 0 <= a < |pending| && pending[a].leadIn && st.refs[pending[a].rule] == l ==>
      !Inside(x, pending[a], parents)
  }

  lemma {:induction false} OweLeaves(st: Store, x: Read, pending: seq<Owed>, n: nat, l: nat,
          parents: map<nat, Option<nat>>)
    requires Upward(parents) && st.Valid() && InRange(pending, |st.refs|) && n <= |pending| && l < |st.lists|
    requires LetsGo(st, x, pending, l, parents) && (x.rules != [] || x.block.item || x.evidence == [])
    ensures OweTo(st, x, pending, n, parents).lists[l] == st.lists[l]
  {
    hide Answers, Inside;
    if n > 0 {
      OweLeaves(st, x, pending, n - 1, l, parents);
      OweMoves(st, x, pending, n - 1, parents);
    }
  }

  lemma GivenLeaves(s: State, x: Read, parents: map<nat, Option<nat>>, p: Owed)
    requires Upward(parents) && Knows(s, p) && LetsGo(s.store, x, s.pending, s.store.refs[p.rule], parents)
    requires x.rules != [] || x.block.item || x.evidence == []
    ensures Given(s, x, parents).lists[s.store.refs[p.rule]] == s.store.Of(p.rule)
  {
    var born := BornTo(s.store, x, |x.rules|);
    BornMoves(s.store, x, |x.rules|);
    OweLeaves(born, x, s.pending, |s.pending|, s.store.refs[p.rule], parents);
  }

  /** The rule is then answered, or has what it had, and shares its list no more. */
  lemma StepLetsGo(s: State, x: Read, next: Option<nat>, parents: map<nat, Option<nat>>, p: Owed)
    requires Upward(parents) && Knows(s, p) && Processed(x) && !p.leadIn && Waits(s.pending, p)
    requires s.store.Of(p.rule) == []
    requires LetsGo(s.store, x, s.pending, s.store.refs[p.rule], parents)
    requires x.rules == [] && !x.block.item && x.evidence != [] ==> Answers(x, p.block, parents)
    ensures Step(s, x, next, parents).store.Of(p.rule) == if Answers(x, p.block, parents) then x.evidence else []
  {
    GivenRule(s, x, parents, p);
    ClosedRule(s, x, next, parents, p);
    if !Answers(x, p.block, parents) { GivenLeaves(s, x, parents, p); }
  }

  lemma StepGetsQuiet(s: State, x: Read, next: Option<nat>, parents: map<nat, Option<nat>>, p: Owed)
    requires Upward(parents) && Knows(s, p) && Processed(x) && !p.leadIn
    requires LetsGo(s.store, x, s.pending, s.store.refs[p.rule], parents)
    ensures Quiet(Step(s, x, next, parents), p.rule)
  {
    var after, r := Step(s, x, next, parents), p.rule;
    StepMoves(s, x, next, parents, p);
    ClosedMoves(s, x, next, parents);
    forall a | 0 <= a < |after.pending| && after.pending[a].leadIn
      ensures after.store.refs[after.pending[a].rule] != after.store.refs[r]
    {
      var q := after.pending[a];
      WaitingIsOldOrNew(s, x, parents, a);
      if q.rule < |s.store.refs| {
        assert Waits(s.pending, q) && Waits(after.pending, q);
        KeptIsKept(s, x, parents, a);
        StaysApart(s.store, after.store, r, q.rule);
      } else {
        NewListsAreNew(s, x, next, parents, q.rule);
      }
    }
  }

  // ----- Paragraphs that go on a list item

  lemma {:induction false} SkippedKeep(text: seq<Read>, i: nat, n: nat, parents: map<nat, Option<nat>>)
    requires Upward(parents) && i < n <= |text| && AllSkipped(text, i, n)
    ensures After(text, n, parents) == After(text, i + 1, parents)
    decreases n
  {
    hide Step;
    if i + 1 < n {
      SkippedKeep(text, i, n - 1, parents);
      StepPasses(After(text, n - 1, parents), text[n - 1], NextLine(text, n - 1), parents);
    }
  }

  /** A block that a block's own lead-ins are not inside ends the wait of all who share the list of its rule. */
  lemma SharersLetGo(s: State, x: Read, next: Option<nat>, parents: map<nat, Option<nat>>, k: nat, y: Read)
    requires Upward(parents) && s.Valid() && Processed(x) && k < |x.rules| && Continues(x)
    requires !IsWithin(y.block.line, x.block.line, parents)
    ensures var after, r := Step(s, x, next, parents), |s.store.refs| + k;
      LetsGo(after.store, y, after.pending, after.store.refs[r], parents)
  {
    var after, r := Step(s, x, next, parents), |s.store.refs| + k;
    forall a | 0 <= a < |after.pending| && after.pending[a].leadIn &&
      after.store.refs[after.pending[a].rule] == after.store.refs[r]
      ensures !Inside(y, after.pending[a], parents)
    {
      SharersAreSiblings(s, x, next, parents, k, a);
    }
  }

  lemma NoneServed(text: seq<Read>, i: nat, n: nat, parents: map<nat, Option<nat>>)
    requires Upward(parents) && i < n <= |text| && AllSkipped(text, i, n)
    ensures FirstServer(text, i, n, parents) == None && InSection(text, i, n) && Unended(text, i, n, parents)
  {
    forall m | i < m < n
      ensures !Processed(text[m])
    {
      assert Skipped(text[m]);
    }
  }

  /** A rule that starts with nothing, while only rows of dashes have followed its block. */
  ghost predicate Fresh(text: seq<Read>, i: nat, k: nat, n: nat, parents: map<nat, Option<nat>>)
    requires Upward(parents) && i < n <= |text| && k < |text[i].rules|
  {
    var s, p := After(text, n, parents), RuleOf(text, i, k, parents);
    Knows(s, p) && Holds(s.section, Member(p.rule, p.block)) && Waits(s.pending, p) && s.store.Of(p.rule) == []
  }

  lemma StartsFresh(text: seq<Read>, i: nat, k: nat, n: nat, parents: map<nat, Option<nat>>)
    requires Upward(parents) && i < n <= |text| && k < |text[i].rules| && Processed(text[i])
    requires Birth(text[i], k) == [] && AllSkipped(text, i, n)
    ensures Fresh(text, i, k, n, parents)
  {
    hide Step;
    SkippedKeep(text, i, n, parents);
    StepMakes(After(text, i, parents), text[i], NextLine(text, i), parents, k);
  }

  /** The lead-ins that share a continuing paragraph's list stop waiting at the next block. */
  lemma NextLetsGo(text: seq<Read>, i: nat, k: nat, n: nat, parents: map<nat, Option<nat>>)
    requires IsText(text, parents) && i < n < |text| && k < |text[i].rules| && Continues(text[i])
    requires AllSkipped(text, i, n)
    requires Upward(parents) && Fresh(text, i, k, n, parents)
    ensures var s := After(text, n, parents);
      LetsGo(s.store, text[n], s.pending, s.store.refs[RuleOf(text, i, k, parents).rule], parents)
  {
    hide Step;
    SkippedKeep(text, i, n, parents);
    NextBlock(text, i, n, parents);
    SharersLetGo(After(text, i, parents), text[i], NextLine(text, i), parents, k, text[n]);
  }

  /** What the first block after a continuing paragraph that is not passed over makes of the paragraph's rules. */
  lemma FateStarts(text: seq<Read>, i: nat, k: nat, n: nat, n': nat, parents: map<nat, Option<nat>>)
    requires Upward(parents) && InOrder(text) && i < n < n' <= |text| && n' == n + 1 && k < |text[i].rules|
    requires !text[i].rules[k].leadIn && AllSkipped(text, i, n) && Processed(text[n]) && Fresh(text, i, k, n, parents)
    requires var s := After(text, n, parents);
      LetsGo(s.store, text[n], s.pending, s.store.refs[RuleOf(text, i, k, parents).rule], parents)
    requires text[n].rules == [] && !text[n].block.item && text[n].evidence != [] ==>
      Answers(text[n], text[i].block.line, parents)
    ensures FateIs(text, i, k, n', parents)
  {
    hide Step, IsWithin, LetsGo;
    var s, x, next, p := After(text, n, parents), text[n], NextLine(text, n), RuleOf(text, i, k, parents);
    StepKnows(s, x, next, parents, p);
    StepLetsGo(s, x, next, parents, p);
    StepGetsQuiet(s, x, next, parents, p);
    NoneServed(text, i, n, parents);
    OneMoreRead(text, i, n, n', parents);
    ClosesAsCited(text, i, n, parents);
  }

  lemma FateAtHeading(text: seq<Read>, i: nat, k: nat, n: nat, n': nat, parents: map<nat, Option<nat>>)
    requires Upward(parents) && i < n < n' <= |text| && n' == n + 1 && k < |text[i].rules|
    requires AllSkipped(text, i, n) && text[n].block.kind == HeadingKind && Fresh(text, i, k, n, parents)
    ensures FateIs(text, i, k, n', parents)
  {
    hide Step;
    StepPasses(After(text, n, parents), text[n], NextLine(text, n), parents);
    NoneServed(text, i, n, parents);
    OneMoreRead(text, i, n, n', parents);
  }

  ghost predicate ContinuingIs(text: seq<Read>, i: nat, k: nat, n: nat, parents: map<nat, Option<nat>>)
    requires Upward(parents) && i < n <= |text| && k < |text[i].rules|
  {
    (AllSkipped(text, i, n) && Fresh(text, i, k, n, parents)) || FateIs(text, i, k, n, parents)
  }

  lemma LeavesFresh(text: seq<Read>, i: nat, k: nat, n: nat, n': nat, parents: map<nat, Option<nat>>)
    requires IsText(text, parents) && i < n < n' <= |text| && n' == n + 1 && k < |text[i].rules| && Continues(text[i])
    requires !text[i].rules[k].leadIn && AllSkipped(text, i, n) && Upward(parents) && Fresh(text, i, k, n, parents)
    requires !Skipped(text[n])
    ensures FateIs(text, i, k, n', parents)
  {
    TextIsInOrder(text, parents);
    hide Step, IsText, IsWithin, FateIs, Fresh;
    if Processed(text[n]) {
      NextBlock(text, i, n, parents);
      NextLetsGo(text, i, k, n, parents);
      FateStarts(text, i, k, n, n', parents);
    } else {
      FateAtHeading(text, i, k, n, n', parents);
    }
  }

  lemma ContinuingStep(text: seq<Read>, i: nat, k: nat, n: nat, n': nat, parents: map<nat, Option<nat>>)
    requires IsText(text, parents) && i < n < n' <= |text| && n' == n + 1 && k < |text[i].rules| && Continues(text[i])
    requires !text[i].rules[k].leadIn && Birth(text[i], k) == [] && Upward(parents)
    requires ContinuingIs(text, i, k, n, parents)
    ensures ContinuingIs(text, i, k, n', parents)
  {
    hide Step, IsText, IsWithin, FateIs, Fresh;
    if FateIs(text, i, k, n, parents) {
      TextIsInOrder(text, parents);
      if Processed(text[n]) { FateStep(text, i, k, n, n', parents); } else { FatePasses(text, i, k, n, n', parents); }
    } else if Skipped(text[n]) {
      StartsFresh(text, i, k, n', parents);
    } else {
      LeavesFresh(text, i, k, n, n', parents);
    }
  }

  lemma {:induction false} FateOfContinuing(text: seq<Read>, i: nat, k: nat, n: nat, parents: map<nat, Option<nat>>)
    requires IsText(text, parents) && i < n <= |text| && k < |text[i].rules| && Continues(text[i])
    requires !text[i].rules[k].leadIn && Birth(text[i], k) == [] && Upward(parents)
    ensures ContinuingIs(text, i, k, n, parents)
    decreases n
  {
    hide Step, IsText, FateIs, Fresh;
    if n == i + 1 {
      StartsFresh(text, i, k, n, parents);
    } else {
      FateOfContinuing(text, i, k, n - 1, parents);
      ContinuingStep(text, i, k, n - 1, n, parents);
    }
  }

  /** Rule `k` shares its list with a lead-in of its block, and the block is one whose list goes on after it. */
  predicate Exposed(x: Read, k: nat)
    requires k < |x.rules|
  {
    Shares(x, k) && !Continues(x)
  }

  /** What a rule that leads no list has at every point of the text. */
  lemma EvidenceIsServed(text: seq<Read>, i: nat, k: nat, n: nat, parents: map<nat, Option<nat>>)
    requires IsText(text, parents) && i < n <= |text| && k < |text[i].rules| && Processed(text[i])
    requires !text[i].rules[k].leadIn && Birth(text[i], k) == [] && !Exposed(text[i], k)
    ensures Upward(parents) && EvidenceOf(text, i, k, n, parents) == ServedEvidence(text, i, n, parents)
  {
    TextIsInOrder(text, parents);
    hide Step, IsText;
    if Continues(text[i]) {
      FateOfContinuing(text, i, k, n, parents);
      if AllSkipped(text, i, n) { NoneServed(text, i, n, parents); }
    } else {
      EvidenceIsFirstServed(text, i, k, n, parents);
    }
  }

  // ----- When a wait is over

  /** No block from `m` on and before `n` closes the list that block `i` is in. */
  ghost predicate NoneCloses(text: seq<Read>, i: nat, m: nat, n: nat, parents: map<nat, Option<nat>>)
    requires Upward(parents) && i < |text| && n <= |text|
  {
    forall l :: m <= l < n ==> !ClosesListOf(text, i, l, parents)
  }

  /** After a block that ends the wait, only one that closes the list can serve. */
  lemma {:induction false} ServedNoMore(text: seq<Read>, i: nat, m: nat, n: nat, parents: map<nat, Option<nat>>)
    requires Upward(parents) && i < m < n <= |text| && EndsWait(text, i, m, parents)
    requires NoneCloses(text, i, m + 1, n, parents)
    ensures ServedEvidence(text, i, n, parents) == ServedEvidence(text, i, m + 1, parents)
    decreases n
  {
    if m + 1 < n {
      ServedNoMore(text, i, m, n - 1, parents);
      hide EndsWait;
      assert !Unended(text, i, n - 1, parents);
    }
  }

  /**
   Once a block is read that holds a rule and does not sit under the rule's own, no later block
   changes the rule's evidence, unless it closes the list the rule is in.
   */
  lemma WaitIsOver(text: seq<Read>, i: nat, k: nat, m: nat, n: nat, parents: map<nat, Option<nat>>)
    requires IsText(text, parents) && i < m < n <= |text| && k < |text[i].rules| && Processed(text[i])
    requires !text[i].rules[k].leadIn && !Exposed(text[i], k)
    requires Processed(text[m]) && text[m].rules != [] && Upward(parents)
    requires !IsWithin(text[m].block.line, text[i].block.line, parents) && NoneCloses(text, i, m + 1, n, parents)
    ensures EvidenceOf(text, i, k, n, parents) == EvidenceOf(text, i, k, m + 1, parents)
  {
    hide IsText, Step, EvidenceOf;
    if Birth(text[i], k) != [] {
      EvidenceAtBirthStays(text, i, k, m + 1, parents);
      EvidenceAtBirthStays(text, i, k, n, parents);
    } else {
      EvidenceIsServed(text, i, k, m + 1, parents);
      EvidenceIsServed(text, i, k, n, parents);
      ServedNoMore(text, i, m, n, parents);
    }
  }

  /** No evidence crosses a heading, in any text that is built. */
  lemma NoEvidenceCrossesHeadingOf(text: seq<Read>, evs: seq<Event>, i: nat, k: nat, h: nat, n: nat)
    requires Ordered(evs) && Blocks(text) == Forest(evs) && i < h < n <= |text| && k < |text[i].rules|
    requires evs[h].Heading? && Processed(text[i]) && Upward(Parents(evs))
    ensures EvidenceOf(text, i, k, n, Parents(evs)) == EvidenceOf(text, i, k, h, Parents(evs))
  {
    ForestIs(evs, h);
    assert Blocks(text)[h].kind == HeadingKind;
    hide Forest, Parents, After;
    NoEvidenceCrossesHeading(text, i, k, h, n, Parents(evs));
  }

  // ----- When a rule's evidence is settled

  /** Once the rule has evidence, no later block changes it. */
  ghost predicate Settles(text: seq<Read>, i: nat, k: nat, parents: map<nat, Option<nat>>)
    requires Upward(parents) && i < |text| && k < |text[i].rules| && Processed(text[i])
  {
    forall m, n :: i < m <= n <= |text| && EvidenceOf(text, i, k, m, parents) != [] ==>
      EvidenceOf(text, i, k, n, parents) == EvidenceOf(text, i, k, m, parents)
  }

  lemma {:induction false} FirstServerStays(text: seq<Read>, i: nat, m: nat, n: nat, parents: map<nat, Option<nat>>)
    requires Upward(parents) && i < m <= n <= |text| && FirstServer(text, i, m, parents).Some?
    ensures FirstServer(text, i, n, parents) == FirstServer(text, i, m, parents)
    decreases n
  {
    if m < n { FirstServerStays(text, i, m, n - 1, parents); }
  }

  lemma SettlesUnlessExposed(text: seq<Read>, i: nat, k: nat, parents: map<nat, Option<nat>>)
    requires IsText(text, parents) && i < |text| && k < |text[i].rules| && Processed(text[i])
    requires !text[i].rules[k].leadIn && !Exposed(text[i], k)
    ensures Upward(parents) && Settles(text, i, k, parents)
  {
    TextIsInOrder(text, parents);
    hide Step, IsText;
    forall m, n | i < m <= n <= |text| && EvidenceOf(text, i, k, m, parents) != []
      ensures EvidenceOf(text, i, k, n, parents) == EvidenceOf(text, i, k, m, parents)
    {
      if Birth(text[i], k) != [] {
        EvidenceAtBirthStays(text, i, k, m, parents);
        EvidenceAtBirthStays(text, i, k, n, parents);
      } else {
        EvidenceIsServed(text, i, k, m, parents);
        EvidenceIsServed(text, i, k, n, parents);
        FirstServerStays(text, i, m, n, parents);
      }
    }
  }

  // ----- When it is not

  /** Two rules that wait on one list. */
  ghost predicate Together(s: State, p: Owed, q: Owed) {
    Knows(s, p) && Knows(s, q) && Waits(s.pending, p) && Waits(s.pending, q) &&
      s.store.refs[p.rule] == s.store.refs[q.rule]
  }

  lemma StartTogether(s: State, x: Read, next: Option<nat>, parents: map<nat, Option<nat>>, k: nat, j: nat)
    requires Upward(parents) && s.Valid() && Processed(x) && k < |x.rules| && j < |x.rules|
    requires x.rules[k].own == x.rules[j].own == x.evidence == []
    ensures Together(Step(s, x, next, parents), AsOwed(x, |s.store.refs|, k), AsOwed(x, |s.store.refs|, j))
  {
    StepMakes(s, x, next, parents, k);
    StepMakes(s, x, next, parents, j);
    StepOfOwn(s, x, parents, k);
    StepOfOwn(s, x, parents, j);
    BornRule(s.store, x, |x.rules|, k);
    BornRule(s.store, x, |x.rules|, j);
  }

  /** What a block gives a lead-in shows in a rule that waits with it, and goes on waiting. */
  lemma StepLeaks(s: State, x: Read, next: Option<nat>, parents: map<nat, Option<nat>>, p: Owed, q: Owed)
    requires Upward(parents) && Together(s, p, q) && !p.leadIn && q.leadIn && Processed(x)
    requires Inside(x, q, parents) && Keeps(x, p, parents)
    ensures var after := Step(s, x, next, parents);
      Knows(after, p) && Waits(after.pending, p) && Covers(after.store.Of(p.rule), x.evidence)
  {
    var born := BornTo(s.store, x, |x.rules|);
    BornMoves(s.store, x, |x.rules|);
    OweFeeds(born, x, s.pending, |s.pending|, parents, q);
    GivenRule(s, x, parents, p);
    GivenRule(s, x, parents, q);
    StepKnows(s, x, next, parents, p);
    ClosingSparesWaiting(s, x, next, parents, p);
  }

  /** A rule that waits takes the evidence of a block that answers it, whatever it had. */
  lemma StepAnswers(s: State, x: Read, next: Option<nat>, parents: map<nat, Option<nat>>, p: Owed)
    requires Upward(parents) && Knows(s, p) && Waits(s.pending, p) && !p.leadIn && Processed(x)
    requires Answers(x, p.block, parents)
    ensures Step(s, x, next, parents).store.Of(p.rule) == x.evidence
  {
    GivenRule(s, x, parents, p);
    ClosedRule(s, x, next, parents, p);
  }

  /** A block that feeds the lead-in and not the rule, and then one that answers the rule. */
  lemma Unsettles(text: seq<Read>, i: nat, k: nat, j: nat, parents: map<nat, Option<nat>>)
    requires Upward(parents) && i + 3 == |text| && k < |text[i].rules| && j < |text[i].rules| && Processed(text[i])
    requires text[i].rules[k].own == text[i].rules[j].own == text[i].evidence == []
    requires !text[i].rules[k].leadIn && text[i].rules[j].leadIn
    requires var x, d, y := text[i], text[i + 1], text[i + 2];
      && Processed(d) && Processed(y) && d.evidence == ["first"] && y.evidence == ["second"]
      && Inside(d, RuleOf(text, i, j, parents), parents) && Keeps(d, RuleOf(text, i, k, parents), parents)
      && Answers(y, x.block.line, parents)
    ensures !Settles(text, i, k, parents)
  {
    hide Step, Answers, Inside, Keeps;
    var p, q := RuleOf(text, i, k, parents), RuleOf(text, i, j, parents);
    StartTogether(After(text, i, parents), text[i], NextLine(text, i), parents, k, j);
    StepLeaks(After(text, i + 1, parents), text[i + 1], NextLine(text, i + 1), parents, p, q);
    StepAnswers(After(text, i + 2, parents), text[i + 2], NextLine(text, i + 2), parents, p);
    assert text[i + 1].evidence[0] in EvidenceOf(text, i, k, i + 2, parents);
    assert EvidenceOf(text, i, k, i + 3, parents) == ["second"];
  }

  /** A block as the forest can hold it. */
  predicate CanOccur(x: Read) {
    && (x.block.kind != ProseKind ==> x.block.parent == None && !x.block.item)
    && (x.block.parent.Some? ==> x.block.parent.value < x.block.line)
  }

  /** Every block of a built text is one. */
  lemma BuiltBlocksCanOccur(evs: seq<Event>, text: seq<Read>, i: nat)
    requires Ordered(evs) && Blocks(text) == Forest(evs) && i < |text|
    ensures CanOccur(text[i])
  {
    BuiltTextIsText(evs, text);
    TextIsInOrder(text, Parents(evs));
    assert Linked(Blocks(text), Parents(evs), i);
  }

  /** A text for a block at the top level: an item after it feeds its lead-in, a paragraph then answers. */
  function AfterTop(x: Read): seq<Read> {
    [x,
     Read(Block(ProseKind, x.block.line + 1, None, true), false, [], ["first"], false),
     Read(Block(ProseKind, x.block.line + 2, None, false), false, [], ["second"], false)]
  }

  /** A text for a list item: an item under it with a rule feeds its lead-in, one without then answers. */
  function AfterItem(x: Read): seq<Read> {
    [x,
     Read(Block(ProseKind, x.block.line + 1, Some(x.block.line), true), false, [Rule(false, ["first"])], ["first"],
       false),
     Read(Block(ProseKind, x.block.line + 2, Some(x.block.line), true), false, [], ["second"], false)]
  }

  function ItemAt(line: nat): Read { Read(Block(ProseKind, line, None, true), false, [], [], false) }

  /** The events that a block and two more are made from. */
  function EventOf(x: Read, indent: nat): Event {
    match x.block.kind
    case HeadingKind => Heading(x.block.line)
    case RowKind => Row(x.block.line)
    case ProseKind => Para(x.block.line, indent, x.block.item)
  }

  /** A text that `blocks_of` makes of these events. */
  ghost predicate IsBuilt(text: seq<Read>, evs: seq<Event>) { Ordered(evs) && Blocks(text) == Forest(evs) }

  function TopEvents(x: Read): seq<Event> {
    [EventOf(x, 0), Para(x.block.line + 1, 0, true), Para(x.block.line + 2, 0, false)]
  }

  function ItemEvents(x: Read, indent: nat): seq<Event> {
    [EventOf(x, indent), Para(x.block.line + 1, indent + 1, true), Para(x.block.line + 2, indent + 1, true)]
  }

  ghost predicate BuiltAt(text: seq<Read>, evs: seq<Event>, i: nat)
    requires i < |text| == |evs|
  {
    text[i].block == BlockOf(evs, i)
  }

  ghost predicate BuiltEach(text: seq<Read>, evs: seq<Event>) {
    Ordered(evs) && |text| == |evs| && forall i :: 0 <= i < |evs| ==> BuiltAt(text, evs, i)
  }

  lemma IsBuiltFrom(text: seq<Read>, evs: seq<Event>)
    requires BuiltEach(text, evs)
    ensures IsBuilt(text, evs)
  {
    hide BlockOf;
    forall i | 0 <= i < |evs|
      ensures Blocks(text)[i] == Forest(evs)[i]
    {
      assert BuiltAt(text, evs, i);
    }
  }

  lemma TopPlaced(x: Read, evs: seq<Event>)
    requires CanOccur(x) && Processed(x) && IsTopBlock(x) && evs != [] && evs[0] == EventOf(x, 0)
    ensures StackAfter(evs, 1) == [] && BlockOf(evs, 0) == x.block
  {
    EmptyAtFirst(evs);
    if x.block.kind == ProseKind { Placed(evs, 0, 1, [], 0); }
  }

  lemma TopIsBuilt(x: Read)
    requires CanOccur(x) && Processed(x) && IsTopBlock(x)
    ensures BuiltEach(AfterTop(x), TopEvents(x))
  {
    var text, evs := AfterTop(x), TopEvents(x);
    TopPlaced(x, evs);
    hide StackAfter, BlockOf;
    Placed(evs, 1, 2, [], 0);
    Placed(evs, 2, 3, [1], 0);
    assert BuiltAt(text, evs, 0) && BuiltAt(text, evs, 1) && BuiltAt(text, evs, 2);
  }

  /** An item and two items under it, placed on a stack of items left of them. */
  lemma ItemsPlaced(evs: seq<Event>, i: nat, stack: seq<nat>, indent: nat, line: nat)
    requires |evs| == i + 3 && StackAfter(evs, i) == stack
    requires evs[i] == Para(line, indent, true) && evs[i + 1] == Para(line + 1, indent + 1, true)
    requires evs[i + 2] == Para(line + 2, indent + 1, true)
    requires stack != [] ==> evs[stack[|stack| - 1]].indent < indent
    ensures BlockOf(evs, i) ==
      Block(ProseKind, line, if stack == [] then None else Some(evs[stack[|stack| - 1]].line), true)
    ensures BlockOf(evs, i + 1) == Block(ProseKind, line + 1, Some(line), true)
    ensures BlockOf(evs, i + 2) == Block(ProseKind, line + 2, Some(line), true)
  {
    hide StackAfter, BlockOf;
    var one, two := stack + [i], stack + [i] + [i + 1];
    Placed(evs, i, i + 1, stack, |stack|);
    assert stack[..|stack|] == stack;
    Placed(evs, i + 1, i + 2, one, |one|);
    assert one[..|one|] == one;
    Placed(evs, i + 2, i + 3, two, |one|);
  }

  lemma ItemIsBuilt(x: Read)
    requires CanOccur(x) && x.block.item && x.block.parent == None
    ensures BuiltEach(AfterItem(x), ItemEvents(x, 0))
  {
    hide StackAfter, BlockOf;
    var text, evs := AfterItem(x), ItemEvents(x, 0);
    EmptyAtFirst(evs);
    ItemsPlaced(evs, 0, [], 0, x.block.line);
    assert BuiltAt(text, evs, 0) && BuiltAt(text, evs, 1) && BuiltAt(text, evs, 2);
  }

  lemma SubItemIsBuilt(x: Read)
    requires CanOccur(x) && x.block.item && x.block.parent.Some?
    ensures var p := x.block.parent.value; BuiltEach([ItemAt(p)] + AfterItem(x), [Para(p, 0, true)] + ItemEvents(x, 1))
  {
    hide StackAfter, BlockOf;
    var p := x.block.parent.value;
    var text, evs := [ItemAt(p)] + AfterItem(x), [Para(p, 0, true)] + ItemEvents(x, 1);
    EmptyAtFirst(evs);
    Placed(evs, 0, 1, [], 0);
    ItemsPlaced(evs, 1, [0], 1, x.block.line);
    assert BuiltAt(text, evs, 0) && BuiltAt(text, evs, 1) && BuiltAt(text, evs, 2) && BuiltAt(text, evs, 3);
  }

  /** In every text that holds block `x`, the evidence of its rule `k` is settled once there is some. */
  ghost predicate AlwaysSettles(x: Read, k: nat)
    requires k < |x.rules| && Processed(x)
  {
    forall text: seq<Read>, evs: seq<Event>, i: nat :: IsBuilt(text, evs) && i < |text| && text[i] == x ==>
      SettlesIn(text, evs, i, k)
  }

  ghost predicate SettlesIn(text: seq<Read>, evs: seq<Event>, i: nat, k: nat)
    requires IsBuilt(text, evs) && i < |text| && k < |text[i].rules| && Processed(text[i])
  {
    ParentsGoUp(evs);
    Settles(text, i, k, Parents(evs))
  }

  lemma Unsettled(x: Read, k: nat, text: seq<Read>, evs: seq<Event>, i: nat)
    requires k < |x.rules| && Processed(x) && IsBuilt(text, evs) && i < |text| && text[i] == x
    requires Upward(Parents(evs)) && !Settles(text, i, k, Parents(evs))
    ensures !AlwaysSettles(x, k)
  {
    hide Settles;
    assert !SettlesIn(text, evs, i, k);
  }

  /** The two blocks after a top-level block feed its lead-in and then answer its rule. */
  lemma TopFeeds(x: Read, k: nat, j: nat, parents: map<nat, Option<nat>>)
    requires Upward(parents) && Processed(x) && IsTopBlock(x) && k < |x.rules| && j < |x.rules|
    requires x.rules[k].own == x.rules[j].own == x.evidence == [] && !x.rules[k].leadIn && x.rules[j].leadIn
    ensures !Settles(AfterTop(x), 0, k, parents)
  {
    hide After, Settles, IsWithin;
    Unsettles(AfterTop(x), 0, k, j, parents);
  }

  lemma TopUnsettles(x: Read, k: nat, j: nat)
    requires CanOccur(x) && Processed(x) && IsTopBlock(x) && k < |x.rules| && j < |x.rules|
    requires x.rules[k].own == x.rules[j].own == x.evidence == [] && !x.rules[k].leadIn && x.rules[j].leadIn
    ensures !AlwaysSettles(x, k)
  {
    var text, evs := AfterTop(x), TopEvents(x);
    TopIsBuilt(x);
    assert Ordered(evs) && text[0] == x && |text| == 3;
    hide *;
    IsBuiltFrom(text, evs);
    ParentsGoUp(evs);
    TopFeeds(x, k, j, Parents(evs));
    Unsettled(x, k, text, evs, 0);
  }

  /** The text ends with the item at `i` and the two blocks under it. */
  predicate IsBefore(x: Read, text: seq<Read>, i: nat) {
    i + 3 == |text| && text[i] == x && text[i + 1] == AfterItem(x)[1] && text[i + 2] == AfterItem(x)[2]
  }

  /** An item's two blocks feed its lead-in and then answer its rule, wherever the item is. */
  lemma ItemFeeds(x: Read, k: nat, j: nat, text: seq<Read>, i: nat, parents: map<nat, Option<nat>>)
    requires Upward(parents) && IsBefore(x, text, i)
    requires Processed(x) && x.block.item && k < |x.rules| && j < |x.rules|
    requires x.rules[k].own == x.rules[j].own == x.evidence == [] && !x.rules[k].leadIn && x.rules[j].leadIn
    requires IsWithin(x.block.line + 1, x.block.line, parents)
    ensures text[i] == x && !Settles(text, i, k, parents)
  {
    assert IsWithin(x.block.line, x.block.line, parents);
    hide After, Settles, IsWithin;
    Unsettles(text, i, k, j, parents);
  }

  /** A block whose parent is a line sits under the block at that line. */
  lemma UnderParent(text: seq<Read>, evs: seq<Event>, i: nat, line: nat)
    requires IsBuilt(text, evs) && i < |text| && text[i].block.parent == Some(line)
    ensures Upward(Parents(evs)) && IsWithin(text[i].block.line, line, Parents(evs))
  {
    ParentsGoUp(evs);
    BuiltTextIsText(evs, text);
    assert Linked(Blocks(text), Parents(evs), i);
    assert IsWithin(line, line, Parents(evs));
  }

  lemma UnderItem(x: Read, text: seq<Read>, i: nat, evs: seq<Event>)
    requires BuiltEach(text, evs) && i + 3 == |text| && text[i] == x
    requires text[i + 1].block == Block(ProseKind, x.block.line + 1, Some(x.block.line), true)
    ensures Ordered(evs) && IsBuilt(text, evs) && Upward(Parents(evs))
    ensures IsWithin(x.block.line + 1, x.block.line, Parents(evs))
  {
    assert Ordered(evs);
    hide *;
    IsBuiltFrom(text, evs);
    UnderParent(text, evs, i + 1, x.block.line);
  }

  lemma ItemUnsettles(x: Read, k: nat, j: nat, text: seq<Read>, i: nat, evs: seq<Event>)
    requires Processed(x) && x.block.item && k < |x.rules| && j < |x.rules|
    requires x.rules[k].own == x.rules[j].own == x.evidence == [] && !x.rules[k].leadIn && x.rules[j].leadIn
    requires BuiltEach(text, evs) && IsBefore(x, text, i)
    ensures !AlwaysSettles(x, k)
  {
    hide BuiltEach, IsBuilt, Settles, AlwaysSettles, Ordered, Upward, IsWithin;
    UnderItem(x, text, i, evs);
    ItemFeeds(x, k, j, text, i, Parents(evs));
    Unsettled(x, k, text, evs, i);
  }

  /**
   A rule that leads no list keeps its evidence once it has some, whatever the text, exactly when
   it is not exposed: when it starts with evidence, or its block makes no waiting lead-in, or its
   block is a paragraph that goes on a list item.
   */
  lemma SettledIff(x: Read, k: nat)
    requires CanOccur(x) && Processed(x) && k < |x.rules| && !x.rules[k].leadIn
    ensures AlwaysSettles(x, k) <==> !Exposed(x, k)
  {
    if Exposed(x, k) {
      ExposedUnsettles(x, k);
    } else {
      hide Settles;
      forall text: seq<Read>, evs: seq<Event>, i: nat | IsBuilt(text, evs) && i < |text| && text[i] == x
        ensures SettlesIn(text, evs, i, k)
      {
        BuiltTextIsText(evs, text);
        ParentsGoUp(evs);
        SettlesUnlessExposed(text, i, k, Parents(evs));
      }
    }
  }

  lemma ExposedUnsettles(x: Read, k: nat)
    requires CanOccur(x) && Processed(x) && k < |x.rules| && !x.rules[k].leadIn && Exposed(x, k)
    ensures !AlwaysSettles(x, k)
  {
    hide AlwaysSettles, BuiltEach, IsWithin;
    var j :| 0 <= j < |x.rules| && x.rules[j].leadIn && x.rules[j].own == [];
    if IsTopBlock(x) {
      TopUnsettles(x, k, j);
    } else if x.block.parent == None {
      ItemIsBuilt(x);
      ItemUnsettles(x, k, j, AfterItem(x), 0, ItemEvents(x, 0));
    } else {
      SubItemIsBuilt(x);
      var p := x.block.parent.value;
      ItemUnsettles(x, k, j, [ItemAt(p)] + AfterItem(x), 1, [Para(p, 0, true)] + ItemEvents(x, 1));
    }
  }
}
