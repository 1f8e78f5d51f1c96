/**
 What a rule that leads a list has, exactly: the tags of every block of its list, and of the
 paragraph that ends it, in order and once each; failing those, what the closing pass gives it.
 */
module EvidenceLeadIns {
  import opened Wrappers
  import opened BlockForest
  import opened Evidence
  import opened EvidenceTerms
  import opened EvidenceRuns
  import opened EvidenceFate

  lemma {:induction false} NothingToAdd(list: seq<Tag>, tags: seq<Tag>, n: nat)
    requires n <= |tags| && Covers(list, tags)
    ensures Added(list, tags, n) == list
  {
    if n > 0 { NothingToAdd(list, tags, n - 1); }
  }

  lemma AddedTwice(list: seq<Tag>, tags: seq<Tag>)
    ensures var once := Added(list, tags, |tags|); Added(once, tags, |tags|) == once
  {
    AddedCovers(list, tags, |tags|);
    NothingToAdd(Added(list, tags, |tags|), tags, |tags|);
  }

  lemma {:induction false} AddedHolds(list: seq<Tag>, tags: seq<Tag>, n: nat, t: Tag)
    requires n <= |tags|
    ensures t in Added(list, tags, n) <==> t in list || exists a :: 0 <= a < n && tags[a] == t
  {
    if n > 0 { AddedHolds(list, tags, n - 1, t); }
  }

  /** What is appended to a list is the new tags, in the order they are cited. */
  lemma AddedIsNew(list: seq<Tag>, tags: seq<Tag>)
    ensures Added(list, tags, |tags|) == list + NewTags(list, tags)
  {
    AddedIsNewTo(list, tags, |tags|);
  }

  lemma {:induction false} AddedIsNewTo(list: seq<Tag>, tags: seq<Tag>, n: nat)
    requires n <= |tags|
    ensures Added(list, tags, n) == list + NewTo(list, tags, n)
  {
    if n > 0 {
      AddedIsNewTo(list, tags, n - 1);
      AddedHolds(list, tags, n - 1, tags[n - 1]);
    }
  }

  /** The block gives a waiting lead-in its evidence: it is in the list, or is the paragraph that ends it. */
  predicate Takes(x: Read, p: Owed, parents: map<nat, Option<nat>>)
    requires Upward(parents)
  {
    Inside(x, p, parents) || (x.rules == [] && !x.block.item)
  }

  /** Lead-ins that wait on one list are of one block, and wait together. */
  ghost predicate Kin(st: Store, pending: seq<Owed>, p: Owed)
    requires st.Valid() && InRange(pending, |st.refs|) && p.rule < |st.refs|
  {
    forall a :: 0 <= a < |pending| && pending[a].leadIn && st.refs[pending[a].rule] == st.refs[p.rule] ==>
      pending[a].block == p.block && pending[a].top == p.top && Waits(pending, p)
  }

  lemma OneAdds(before: Store, x: Read, q: Owed, parents: map<nat, Option<nat>>, l: nat, had: seq<Tag>, p: Owed)
    requires Upward(parents) && before.Has(q.rule) && l < |before.lists|
    requires q.leadIn && before.refs[q.rule] == l ==> q.block == p.block && q.top == p.top
    requires before.lists[l] == had || (Takes(x, p, parents) && before.lists[l] == Added(had, x.evidence, |x.evidence|))
    ensures var now := OweOne(before, x, q, parents).lists[l];
      && (now == had || (Takes(x, p, parents) && now == Added(had, x.evidence, |x.evidence|)))
      && (now == before.lists[l] || now == Added(had, x.evidence, |x.evidence|))
      && (q.leadIn && before.refs[q.rule] == l && Takes(x, p, parents) ==> now == Added(had, x.evidence, |x.evidence|))
  {
    hide Answers, IsWithin;
    AddedTwice(had, x.evidence);
  }

  /** However many lead-ins share the list, a block's tags are added to it once. */
  lemma {:induction false} OweAdds(st: Store, x: Read, pending: seq<Owed>, n: nat, parents: map<nat, Option<nat>>,
          p: Owed)
    requires Upward(parents) && st.Valid() && InRange(pending, |st.refs|) && n <= |pending|
    requires p.rule < |st.refs| && p.leadIn && OnlyAs(pending, p) && Kin(st, pending, p)
    ensures var now, had := OweTo(st, x, pending, n, parents).lists[st.refs[p.rule]], st.Of(p.rule);
      && (now == had || (Takes(x, p, parents) && now == Added(had, x.evidence, |x.evidence|)))
      && (Takes(x, p, parents) && ListedTo(pending, n, p) ==> now == Added(had, x.evidence, |x.evidence|))
  {
    hide Answers, Takes, Inside, OweOne;
    if n > 0 {
      OweAdds(st, x, pending, n - 1, parents, p);
      OweMoves(st, x, pending, n - 1, parents);
      OweRule(st, x, pending, n - 1, parents, p);
      OneAdds(OweTo(st, x, pending, n - 1, parents), x, pending[n - 1], parents, st.refs[p.rule], st.Of(p.rule), p);
      assert ListedTo(pending, n, p) <==> ListedTo(pending, n - 1, p) || pending[n - 1] == p;
    }
  }

  lemma GivenAdds(s: State, x: Read, parents: map<nat, Option<nat>>, p: Owed)
    requires Upward(parents) && Knows(s, p) && p.leadIn && Kin(s.store, s.pending, p)
    ensures var given, had := Given(s, x, parents), s.store.Of(p.rule);
      given.refs[p.rule] == s.store.refs[p.rule] &&
      given.Of(p.rule) == if Waits(s.pending, p) && Takes(x, p, parents) then Added(had, x.evidence, |x.evidence|)
        else had
  {
    hide OweTo, BornTo;
    var born := BornTo(s.store, x, |x.rules|);
    BornMoves(s.store, x, |x.rules|);
    GivenRule(s, x, parents, p);
    OweAdds(born, x, s.pending, |s.pending|, parents, p);
  }

  /** What a block makes of a lead-in's evidence. */
  lemma StepAdds(s: State, x: Read, next: Option<nat>, parents: map<nat, Option<nat>>, p: Owed)
    requires Upward(parents) && Knows(s, p) && p.leadIn && Kin(s.store, s.pending, p) && Processed(x)
    ensures var had := s.store.Of(p.rule);
      Step(s, x, next, parents).store.Of(p.rule) ==
        if Waits(s.pending, p) && Takes(x, p, parents) && x.evidence != [] then Added(had, x.evidence, |x.evidence|)
        else if Closing(x) && had == [] && Cites(x, next, p.block, s.topStart, parents) &&
          Holds(s.section, Member(p.rule, p.block))
        then x.evidence
        else had
  {
    GivenAdds(s, x, parents, p);
    ClosedRule(s, x, next, parents, p);
  }

  lemma StepStaysKin(s: State, x: Read, next: Option<nat>, parents: map<nat, Option<nat>>, p: Owed)
    requires Upward(parents) && Knows(s, p) && p.leadIn && Kin(s.store, s.pending, p) && Processed(x)
    ensures var after := Step(s, x, next, parents); Kin(after.store, after.pending, p)
  {
    var after := Step(s, x, next, parents);
    StepMoves(s, x, next, parents, p);
    ClosedMoves(s, x, next, parents);
    StepKnows(s, x, next, parents, p);
    hide IsWithin;
    forall a | 0 <= a < |after.pending| && after.pending[a].leadIn &&
      after.store.refs[after.pending[a].rule] == after.store.refs[p.rule]
      ensures after.pending[a].block == p.block && after.pending[a].top == p.top && Waits(after.pending, p)
    {
      var q := after.pending[a];
      WaitingIsOldOrNew(s, x, parents, a);
      if q.rule >= |s.store.refs| {
        NewListsAreNew(s, x, next, parents, q.rule);
      } else if q.rule != p.rule {
        assert Waits(s.pending, q);
        KeptIsKept(s, x, parents, a);
      }
    }
  }

  lemma StepMakesKin(s: State, x: Read, next: Option<nat>, parents: map<nat, Option<nat>>, k: nat)
    requires Upward(parents) && s.Valid() && Processed(x) && k < |x.rules| && Birth(x, k) == []
    ensures var after, p := Step(s, x, next, parents), AsOwed(x, |s.store.refs|, k);
      p.rule < |after.store.refs| && Kin(after.store, after.pending, p)
  {
    var after, p := Step(s, x, next, parents), AsOwed(x, |s.store.refs|, k);
    StepMakes(s, x, next, parents, k);
    forall a | 0 <= a < |after.pending| && after.pending[a].leadIn &&
      after.store.refs[after.pending[a].rule] == after.store.refs[p.rule]
      ensures after.pending[a].block == p.block && after.pending[a].top == p.top
    {
      SharersAreSiblings(s, x, next, parents, k, a);
    }
  }

  // ----- Whole texts

  /** The evidence of a lead-in of block `i` once the first `n` blocks are read, from the blocks alone. */
  ghost function ListEvidence(text: seq<Read>, i: nat, n: nat, parents: map<nat, Option<nat>>): seq<Tag>
    requires Upward(parents) && i < n <= |text|
    decreases n
  {
    if n == i + 1 then []
    else
      var m := n - 1;
      var had := ListEvidence(text, i, m, parents);
      if Feeds(text, i, m, parents) && text[m].evidence != [] then had + NewTags(had, text[m].evidence)
      else if had == [] && Processed(text[m]) && InSection(text, i, m) && ClosesListOf(text, i, m, parents) then
        text[m].evidence
      else had
  }

  ghost predicate LeadIs(text: seq<Read>, i: nat, k: nat, n: nat, parents: map<nat, Option<nat>>)
    requires Upward(parents) && i < n <= |text| && k < |text[i].rules|
  {
    var s, p := After(text, n, parents), RuleOf(text, i, k, parents);
    && Knows(s, p) && Kin(s.store, s.pending, p)
    && s.store.Of(p.rule) == ListEvidence(text, i, n, parents)
    && (Holds(s.section, Member(p.rule, p.block)) <==> InSection(text, i, n))
    && (Waits(s.pending, p) <==> Unbroken(text, i, n, parents))
  }

  lemma ListGoesOn(text: seq<Read>, i: nat, n: nat, n': nat, parents: map<nat, Option<nat>>)
    requires Upward(parents) && i < n < n' <= |text| && n' == n + 1
    ensures InSection(text, i, n') <==> InSection(text, i, n) && text[n].block.kind != HeadingKind
    ensures Unbroken(text, i, n', parents) <==> Unbroken(text, i, n, parents) && GoesOn(text, i, n, parents)
  {
    hide GoesOn;
  }

  lemma LeadPasses(text: seq<Read>, i: nat, k: nat, n: nat, n': nat, parents: map<nat, Option<nat>>)
    requires Upward(parents) && i < n < n' <= |text| && n' == n + 1 && k < |text[i].rules|
    requires !Processed(text[n]) && LeadIs(text, i, k, n, parents)
    ensures LeadIs(text, i, k, n', parents)
  {
    hide Step;
    StepPasses(After(text, n, parents), text[n], NextLine(text, n), parents);
    ListGoesOn(text, i, n, n', parents);
  }

  /** The passes agree with the terms on which blocks are in a rule's list, and which feed it. */
  lemma InsideAsSaid(text: seq<Read>, i: nat, k: nat, n: nat, parents: map<nat, Option<nat>>)
    requires Upward(parents) && i < n < |text| && k < |text[i].rules| && Processed(text[n])
    ensures var x, p := text[n], RuleOf(text, i, k, parents);
      && (GoesOn(text, i, n, parents) <==> Inside(x, p, parents))
      && (Feeds(text, i, n, parents) <==> Unbroken(text, i, n, parents) && Takes(x, p, parents))
  {
    hide IsWithin, After, Unbroken;
  }

  lemma OneMoreOfList(text: seq<Read>, i: nat, k: nat, n: nat, n': nat, parents: map<nat, Option<nat>>)
    requires Upward(parents) && i < n < n' <= |text| && n' == n + 1 && k < |text[i].rules| && Processed(text[n])
    ensures var x, p, had := text[n], RuleOf(text, i, k, parents), ListEvidence(text, i, n, parents);
      && (GoesOn(text, i, n, parents) <==> Inside(x, p, parents))
      && ListEvidence(text, i, n', parents) ==
         if Unbroken(text, i, n, parents) && Takes(x, p, parents) && x.evidence != [] then
           Added(had, x.evidence, |x.evidence|)
         else if had == [] && InSection(text, i, n) && ClosesListOf(text, i, n, parents) then x.evidence
         else had
  {
    hide Feeds, GoesOn, Inside, Takes, Unbroken, InSection, ClosesListOf, After, Added, NewTags;
    InsideAsSaid(text, i, k, n, parents);
    AddedIsNew(ListEvidence(text, i, n, parents), text[n].evidence);
  }

  lemma LeadStep(text: seq<Read>, i: nat, k: nat, n: nat, n': nat, parents: map<nat, Option<nat>>)
    requires Upward(parents) && InOrder(text) && i < n < n' <= |text| && n' == n + 1 && k < |text[i].rules|
    requires text[i].rules[k].leadIn && LeadIs(text, i, k, n, parents) && Processed(text[n])
    ensures LeadIs(text, i, k, n', parents)
  {
    hide Step, Cites, Closing, ClosesListOf, Kin, Takes, Inside, ListEvidence, Answers, Ends, GoesOn;
    var s, x, next, p := After(text, n, parents), text[n], NextLine(text, n), RuleOf(text, i, k, parents);
    StepKnows(s, x, next, parents, p);
    StepAdds(s, x, next, parents, p);
    StepStaysKin(s, x, next, parents, p);
    ListGoesOn(text, i, n, n', parents);
    OneMoreOfList(text, i, k, n, n', parents);
    ClosesAsCited(text, i, n, parents);
  }

  lemma {:induction false} LeadHolds(text: seq<Read>, i: nat, k: nat, n: nat, parents: map<nat, Option<nat>>)
    requires Upward(parents) && InOrder(text) && i < n <= |text| && k < |text[i].rules| && Processed(text[i])
    requires text[i].rules[k].leadIn && Birth(text[i], k) == []
    ensures LeadIs(text, i, k, n, parents)
    decreases n
  {
    hide Step;
    if n == i + 1 {
      StepMakes(After(text, i, parents), text[i], NextLine(text, i), parents, k);
      StepMakesKin(After(text, i, parents), text[i], NextLine(text, i), parents, k);
    } else {
      LeadHolds(text, i, k, n - 1, parents);
      if Processed(text[n - 1]) {
        LeadStep(text, i, k, n - 1, n, parents);
      } else {
        LeadPasses(text, i, k, n - 1, n, parents);
      }
    }
  }

  /** A lead-in that starts with nothing has, at every point of the text, what its list has given so far. */
  lemma LeadInHasItsList(text: seq<Read>, i: nat, k: nat, n: nat, parents: map<nat, Option<nat>>)
    requires Upward(parents) && InOrder(text) && i < n <= |text| && k < |text[i].rules| && Processed(text[i])
    requires text[i].rules[k].leadIn && Birth(text[i], k) == []
    ensures EvidenceOf(text, i, k, n, parents) == ListEvidence(text, i, n, parents)
  {
    LeadHolds(text, i, k, n, parents);
  }

  /**
   Block `m` gives the lead-in tag `t`: it feeds its list, or it is the first to give it
   anything and closes the list.
   */
  ghost predicate Supplies(text: seq<Read>, i: nat, m: nat, t: Tag, parents: map<nat, Option<nat>>)
    requires Upward(parents) && i < m < |text|
  {
    t in text[m].evidence &&
    (Feeds(text, i, m, parents) ||
     (ListEvidence(text, i, m, parents) == [] && Processed(text[m]) && InSection(text, i, m) &&
       ClosesListOf(text, i, m, parents)))
  }

  ghost predicate Supplied(text: seq<Read>, i: nat, n: nat, t: Tag, parents: map<nat, Option<nat>>)
    requires Upward(parents) && i < n <= |text|
  {
    exists m :: i < m < n && Supplies(text, i, m, t, parents)
  }

  lemma SuppliedOneMore(text: seq<Read>, i: nat, n: nat, n': nat, t: Tag, parents: map<nat, Option<nat>>)
    requires Upward(parents) && i < n < n' <= |text| && n' == n + 1
    ensures Supplied(text, i, n', t, parents) <==> Supplied(text, i, n, t, parents) || Supplies(text, i, n, t, parents)
  {
    hide Supplies;
  }

  lemma TagOneMore(text: seq<Read>, i: nat, n: nat, n': nat, t: Tag, parents: map<nat, Option<nat>>)
    requires Upward(parents) && i < n < n' <= |text| && n' == n + 1
    ensures t in ListEvidence(text, i, n', parents) <==>
      t in ListEvidence(text, i, n, parents) || Supplies(text, i, n, t, parents)
  {
    hide Feeds, ClosesListOf, InSection;
    AddedIsNew(ListEvidence(text, i, n, parents), text[n].evidence);
    AddedHolds(ListEvidence(text, i, n, parents), text[n].evidence, |text[n].evidence|, t);
  }

  /** The tags of a lead-in are those that some block since has given it, and no other. */
  lemma {:induction false} ListTags(text: seq<Read>, i: nat, n: nat, t: Tag, parents: map<nat, Option<nat>>)
    requires Upward(parents) && i < n <= |text|
    ensures t in ListEvidence(text, i, n, parents) <==> Supplied(text, i, n, t, parents)
    decreases n
  {
    if n > i + 1 {
      hide ListEvidence, Supplied, Supplies;
      ListTags(text, i, n - 1, t, parents);
      TagOneMore(text, i, n - 1, n, t, parents);
      SuppliedOneMore(text, i, n - 1, n, t, parents);
    }
  }
}
