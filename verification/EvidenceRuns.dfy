/**
 What the evidence engine keeps over whole texts: which block a rule's evidence comes from, and
 which blocks can no longer change it. The passes are followed for one rule at a time.
 */
module EvidenceRuns {
  import opened Wrappers
  import opened BlockForest
  import opened Evidence
  import opened EvidenceTerms

  // ----- One pass, seen from one rule

  /** No other rule has the rule's list. */
  ghost predicate Alone(st: Store, r: nat) {
    r < |st.refs| && forall q :: 0 <= q < |st.refs| && q != r ==> st.refs[q] != st.refs[r]
  }

  /** A rule keeps its list, or gets one that is new. */
  ghost predicate Moved(a: Store, b: Store) {
    && a.Valid() && b.Valid() && |b.refs| >= |a.refs| && |b.lists| >= |a.lists|
    && (forall q :: 0 <= q < |a.refs| ==> b.refs[q] == a.refs[q] || b.refs[q] >= |a.lists|)
    && (forall l :: 0 <= l < |a.lists| ==> a.lists[l] <= b.lists[l])
  }

  /** The rule has a list of its own that is new. */
  ghost predicate Renewed(a: Store, b: Store, r: nat, tags: seq<Tag>) {
    b.Valid() && Alone(b, r) && b.refs[r] >= |a.lists| && b.Of(r) == tags
  }

  ghost predicate ListedTo(pending: seq<Owed>, n: nat, p: Owed) {
    exists a :: 0 <= a < n <= |pending| && pending[a] == p
  }

  ghost predicate Waits(pending: seq<Owed>, p: Owed) { ListedTo(pending, |pending|, p) }

  /** Whoever waits under the rule's number is `p`. */
  ghost predicate OnlyAs(pending: seq<Owed>, p: Owed) {
    forall a :: 0 <= a < |pending| && pending[a].rule == p.rule ==> pending[a] == p
  }

  lemma {:induction false} OweMoves(st: Store, x: Read, pending: seq<Owed>, n: nat, parents: map<nat, Option<nat>>)
    requires Upward(parents) && st.Valid() && InRange(pending, |st.refs|) && n <= |pending|
    ensures Moved(st, OweTo(st, x, pending, n, parents))
  {
    if n > 0 { OweMoves(st, x, pending, n - 1, parents); }
  }

  /** Giving a block's evidence moves the rules it answers, and no other. */
  lemma {:induction false} OweRule(st: Store, x: Read, pending: seq<Owed>, n: nat, parents: map<nat, Option<nat>>,
          p: Owed)
    requires Upward(parents) && st.Valid() && InRange(pending, |st.refs|) && n <= |pending|
    requires p.rule < |st.refs| && OnlyAs(pending, p)
    ensures var after := OweTo(st, x, pending, n, parents);
      if !p.leadIn && Answers(x, p.block, parents) && ListedTo(pending, n, p) then
        Renewed(st, after, p.rule, x.evidence)
      else after.refs[p.rule] == st.refs[p.rule]
  {
    if n > 0 {
      OweRule(st, x, pending, n - 1, parents, p);
      assert ListedTo(pending, n, p) <==> ListedTo(pending, n - 1, p) || pending[n - 1] == p;
    }
  }

  /** A list that no waiting lead-in has stays as it is. */
  lemma {:induction false} OweSpares(st: Store, x: Read, pending: seq<Owed>, n: nat, parents: map<nat, Option<nat>>,
          l: nat)
    requires Upward(parents) && st.Valid() && InRange(pending, |st.refs|) && n <= |pending| && l < |st.lists|
    requires forall a :: 0 <= a < |pending| && pending[a].leadIn ==> st.refs[pending[a].rule] != l
    ensures OweTo(st, x, pending, n, parents).lists[l] == st.lists[l]
  {
    if n > 0 {
      OweSpares(st, x, pending, n - 1, parents, l);
      OweMoves(st, x, pending, n - 1, parents);
    }
  }

  predicate Covers(list: seq<Tag>, tags: seq<Tag>) { forall a :: 0 <= a < |tags| ==> tags[a] in list }

  lemma {:induction false} AddedCovers(list: seq<Tag>, tags: seq<Tag>, n: nat)
    requires n <= |tags|
    ensures forall a :: 0 <= a < n ==> tags[a] in Added(list, tags, n)
  {
    if n > 0 { AddedCovers(list, tags, n - 1); }
  }

  /** A lead-in has every tag of a block of its list. */
  lemma {:induction false} OweFeeds(st: Store, x: Read, pending: seq<Owed>, n: nat, parents: map<nat, Option<nat>>,
          p: Owed)
    requires Upward(parents) && st.Valid() && InRange(pending, |st.refs|) && n <= |pending|
    requires p.rule < |st.refs| && OnlyAs(pending, p) && p.leadIn && Inside(x, p, parents)
    ensures ListedTo(pending, n, p) ==> Covers(OweTo(st, x, pending, n, parents).Of(p.rule), x.evidence)
  {
    if n > 0 {
      var before := OweTo(st, x, pending, n - 1, parents);
      OweFeeds(st, x, pending, n - 1, parents, p);
      OweRule(st, x, pending, n - 1, parents, p);
      OweRule(st, x, pending, n, parents, p);
      AddedCovers(before.Of(pending[n - 1].rule), x.evidence, |x.evidence|);
      assert ListedTo(pending, n, p) <==> ListedTo(pending, n - 1, p) || pending[n - 1] == p;
      assert before.Of(p.rule) <= OweTo(st, x, pending, n, parents).Of(p.rule);
    }
  }

  lemma {:induction false} KeptAre(x: Read, pending: seq<Owed>, n: nat, parents: map<nat, Option<nat>>, p: Owed)
    requires Upward(parents) && n <= |pending|
    ensures Waits(KeptTo(x, pending, n, parents), p) <==> ListedTo(pending, n, p) && Keeps(x, p, parents)
  {
    if n > 0 {
      KeptAre(x, pending, n - 1, parents, p);
      var before, now := KeptTo(x, pending, n - 1, parents), KeptTo(x, pending, n, parents);
      assert ListedTo(pending, n, p) <==> ListedTo(pending, n - 1, p) || pending[n - 1] == p;
      assert Keeps(x, pending[n - 1], parents) ==> now[|before|] == pending[n - 1];
      assert Waits(now, p) <==> Waits(before, p) || (pending[n - 1] == p && Keeps(x, p, parents)) by {
        if Waits(before, p) {
          var a :| 0 <= a < |before| && before[a] == p;
          assert now[a] == p;
        }
      }
    } else {
      assert KeptTo(x, pending, n, parents) == [];
    }
  }

  // ----- The closing pass

  ghost predicate HoldsTo(section: seq<Member>, n: nat, m: Member) {
    exists a :: 0 <= a < n <= |section| && section[a] == m
  }

  ghost predicate Holds(section: seq<Member>, m: Member) { HoldsTo(section, |section|, m) }

  ghost predicate OnlyAt(section: seq<Member>, m: Member) {
    forall a :: 0 <= a < |section| && section[a].rule == m.rule ==> section[a] == m
  }

  lemma {:induction false} CloseMoves(st: Store, x: Read, next: Option<nat>, section: seq<Member>, top: nat, n: nat,
          parents: map<nat, Option<nat>>)
    requires Upward(parents) && st.Valid() && MembersInRange(section, |st.refs|) && n <= |section|
    ensures var after := CloseTo(st, x, next, section, top, n, parents);
      Moved(st, after) && forall l :: 0 <= l < |st.lists| ==> after.lists[l] == st.lists[l]
  {
    if n > 0 { CloseMoves(st, x, next, section, top, n - 1, parents); }
  }

  /** The closing pass gives the block's evidence to the rules it cites that have none, and to no other. */
  lemma {:induction false} CloseRule(st: Store, x: Read, next: Option<nat>, section: seq<Member>, top: nat, n: nat,
                                     parents: map<nat, Option<nat>>, m: Member)
    requires Upward(parents) && st.Valid() && MembersInRange(section, |st.refs|) && n <= |section|
    requires m.rule < |st.refs| && OnlyAt(section, m) && x.evidence != []
    ensures var after := CloseTo(st, x, next, section, top, n, parents);
      if st.Of(m.rule) == [] && Cites(x, next, m.at, top, parents) && HoldsTo(section, n, m) then
        Renewed(st, after, m.rule, x.evidence)
      else after.refs[m.rule] == st.refs[m.rule] && after.Of(m.rule) == st.Of(m.rule)
  {
    if n > 0 {
      CloseRule(st, x, next, section, top, n - 1, parents, m);
      CloseMoves(st, x, next, section, top, n - 1, parents);
      assert HoldsTo(section, n, m) <==> HoldsTo(section, n - 1, m) || section[n - 1] == m;
    }
  }

  // ----- A block's own rules

  lemma {:induction false} BornMoves(st: Store, x: Read, n: nat)
    requires st.Valid() && n <= |x.rules|
    ensures var after := BornTo(st, x, n);
      && Moved(st, after)
      && (forall q :: 0 <= q < |st.refs| ==> after.refs[q] == st.refs[q])
      && (forall l :: 0 <= l < |st.lists| ==> after.lists[l] == st.lists[l])
      && (forall q :: |st.refs| <= q < |after.refs| ==> after.refs[q] >= |st.lists|)
  {
    if n > 0 { BornMoves(st, x, n - 1); }
  }

  /** Of a block's rules, those that cite nothing of their own share a list, and each other one has its own. */
  ghost predicate BornAs(st: Store, after: Store, x: Read, k: nat)
    requires k < |x.rules| && after.Valid() && |st.refs| + k < |after.refs| && |st.lists| < |after.lists|
  {
    var r := |st.refs| + k;
    after.Of(r) == Birth(x, k) && if x.rules[k].own == [] then after.refs[r] == |st.lists|
      else after.refs[r] > |st.lists| && Alone(after, r)
  }

  lemma {:induction false} BornRule(st: Store, x: Read, n: nat, k: nat)
    requires st.Valid() && k < n <= |x.rules|
    ensures BornAs(st, BornTo(st, x, n), x, k)
  {
    BornMoves(st, x, n - 1);
    if k < n - 1 { BornRule(st, x, n - 1, k); }
  }

  function AsOwed(x: Read, base: nat, k: nat): Owed
    requires k < |x.rules|
  {
    Owed(base + k, x.block.line, x.rules[k].leadIn, x.block.parent == None && !x.block.item)
  }

  lemma {:induction false} OwedAre(st: Store, x: Read, base: nat, n: nat, k: nat)
    requires st.Valid() && n <= |x.rules| && base + n <= |st.refs| && k < |x.rules|
    ensures var owed := OwedTo(st, x, base, n);
      && (Waits(owed, AsOwed(x, base, k)) <==> k < n && st.Of(base + k) == [])
      && OnlyAs(owed, AsOwed(x, base, k))
  {
    if n > 0 {
      OwedAre(st, x, base, n - 1, k);
      var before, now := OwedTo(st, x, base, n - 1), OwedTo(st, x, base, n);
      assert st.Of(base + n - 1) == [] ==> now[|before|] == AsOwed(x, base, n - 1);
      if Waits(before, AsOwed(x, base, k)) {
        var a :| 0 <= a < |before| && before[a] == AsOwed(x, base, k);
        assert now[a] == AsOwed(x, base, k);
      }
    } else {
      assert OwedTo(st, x, base, n) == [];
    }
  }

  // ----- One block, seen from one rule

  /** The state knows rule `p.rule` as `p`. */
  ghost predicate Knows(s: State, p: Owed) {
    s.Valid() && p.rule < |s.store.refs| && OnlyAs(s.pending, p) && OnlyAt(s.section, Member(p.rule, p.block))
  }

  lemma WaitsJoined(a: seq<Owed>, b: seq<Owed>, p: Owed)
    ensures Waits(a + b, p) <==> Waits(a, p) || Waits(b, p)
  {
    if Waits(a, p) {
      var i :| 0 <= i < |a| && a[i] == p;
      assert (a + b)[i] == p;
    }
    if Waits(b, p) {
      var i :| 0 <= i < |b| && b[i] == p;
      assert (a + b)[|a| + i] == p;
    }
  }

  lemma {:induction false} KeptOnlyAs(x: Read, pending: seq<Owed>, n: nat, parents: map<nat, Option<nat>>, p: Owed)
    requires Upward(parents) && n <= |pending| && OnlyAs(pending, p)
    ensures OnlyAs(KeptTo(x, pending, n, parents), p)
  {
    if n > 0 { KeptOnlyAs(x, pending, n - 1, parents, p); }
  }

  ghost predicate AllFrom(pending: seq<Owed>, base: nat) { forall a :: 0 <= a < |pending| ==> pending[a].rule >= base }

  lemma {:induction false} OwedAreNew(st: Store, x: Read, base: nat, n: nat)
    requires st.Valid() && n <= |x.rules| && base + n <= |st.refs|
    ensures AllFrom(OwedTo(st, x, base, n), base)
  {
    if n > 0 { OwedAreNew(st, x, base, n - 1); }
  }

  /** A rule that waited goes on waiting exactly when the block keeps it. */
  lemma StepKnows(s: State, x: Read, next: Option<nat>, parents: map<nat, Option<nat>>, p: Owed)
    requires Upward(parents) && Knows(s, p) && Processed(x)
    ensures var after := Step(s, x, next, parents);
      && Knows(after, p)
      && (Waits(after.pending, p) <==> Waits(s.pending, p) && Keeps(x, p, parents))
      && (Holds(after.section, Member(p.rule, p.block)) <==> Holds(s.section, Member(p.rule, p.block)))
  {
    var base := |s.store.refs|;
    var kept := KeptTo(x, s.pending, |s.pending|, parents);
    var owed := OwedTo(Given(s, x, parents), x, base, |x.rules|);
    KeptAre(x, s.pending, |s.pending|, parents, p);
    KeptOnlyAs(x, s.pending, |s.pending|, parents, p);
    OwedAreNew(Given(s, x, parents), x, base, |x.rules|);
    WaitsJoined(kept, owed, p);
    MembersAreNew(x, base, |x.rules|);
    HoldsBefore(s.section, MembersTo(x, base, |x.rules|), Member(p.rule, p.block));
  }

  lemma HoldsBefore(a: seq<Member>, b: seq<Member>, m: Member)
    requires forall i :: 0 <= i < |b| ==> b[i].rule != m.rule
    ensures Holds(a + b, m) <==> Holds(a, m)
  {
    if Holds(a, m) {
      var i :| 0 <= i < |a| && a[i] == m;
      assert (a + b)[i] == m;
    }
  }

  lemma MovedOn(a: Store, b: Store, c: Store)
    requires Moved(a, b) && Moved(b, c)
    ensures Moved(a, c)
  {
  }

  lemma GivenMoves(s: State, x: Read, parents: map<nat, Option<nat>>)
    requires Upward(parents) && s.Valid()
    ensures Moved(s.store, Given(s, x, parents))
  {
    var born := BornTo(s.store, x, |x.rules|);
    BornMoves(s.store, x, |x.rules|);
    OweMoves(born, x, s.pending, |s.pending|, parents);
    MovedOn(s.store, born, Given(s, x, parents));
  }

  lemma ClosedMoves(s: State, x: Read, next: Option<nat>, parents: map<nat, Option<nat>>)
    requires Upward(parents) && s.Valid()
    ensures Moved(Given(s, x, parents), Closed(s, x, next, parents))
    ensures Moved(s.store, Closed(s, x, next, parents))
  {
    var given := Given(s, x, parents);
    GivenMoves(s, x, parents);
    if Closing(x) {
      MembersStayInRange(s, x);
      CloseMoves(given, x, next, Section(s, x), s.topStart, |Section(s, x)|, parents);
    }
    MovedOn(s.store, given, Closed(s, x, next, parents));
  }

  /** No lead-in that waits has the list of rule `r`. */
  ghost predicate Quiet(s: State, r: nat)
    requires s.Valid()
  {
    r < |s.store.refs| && forall a :: 0 <= a < |s.pending| && s.pending[a].leadIn ==>
      s.store.refs[s.pending[a].rule] != s.store.refs[r]
  }

  /** What giving a block's evidence does to a rule read before it. */
  lemma GivenRule(s: State, x: Read, parents: map<nat, Option<nat>>, p: Owed)
    requires Upward(parents) && Knows(s, p)
    ensures var given, r := Given(s, x, parents), p.rule;
      if !p.leadIn && Answers(x, p.block, parents) && Waits(s.pending, p) then Renewed(s.store, given, r, x.evidence)
      else given.refs[r] == s.store.refs[r] && (Quiet(s, r) ==> given.Of(r) == s.store.Of(r))
  {
    var born := BornTo(s.store, x, |x.rules|);
    BornMoves(s.store, x, |x.rules|);
    OweRule(born, x, s.pending, |s.pending|, parents, p);
    if Quiet(s, p.rule) { OweSpares(born, x, s.pending, |s.pending|, parents, s.store.refs[p.rule]); }
  }

  /** What the closing pass does to a rule read before the block. */
  lemma ClosedRule(s: State, x: Read, next: Option<nat>, parents: map<nat, Option<nat>>, p: Owed)
    requires Upward(parents) && Knows(s, p)
    ensures var given, closed, r, m := Given(s, x, parents), Closed(s, x, next, parents), p.rule,
      Member(p.rule, p.block);
      if Closing(x) && given.Of(r) == [] && Cites(x, next, p.block, s.topStart, parents) && Holds(s.section, m) then
        Renewed(given, closed, r, x.evidence)
      else closed.refs[r] == given.refs[r] && closed.Of(r) == given.Of(r)
  {
    if Closing(x) {
      var m := Member(p.rule, p.block);
      MembersStayInRange(s, x);
      MembersAreNew(x, |s.store.refs|, |x.rules|);
      HoldsBefore(s.section, MembersTo(x, |s.store.refs|, |x.rules|), m);
      CloseRule(Given(s, x, parents), x, next, Section(s, x), s.topStart, |Section(s, x)|, parents, m);
    }
  }

  lemma StaysApart(a: Store, b: Store, r: nat, q: nat)
    requires Moved(a, b) && r < |a.refs| && q < |a.refs| && a.refs[q] != a.refs[r] && q != r
    requires b.refs[r] == a.refs[r] || Alone(b, r)
    ensures b.refs[q] != b.refs[r]
  {
  }

  /** A rule that shares its list with no waiting lead-in: what a block makes of its evidence. */
  lemma StepQuiet(s: State, x: Read, next: Option<nat>, parents: map<nat, Option<nat>>, p: Owed)
    requires Upward(parents) && Knows(s, p) && Quiet(s, p.rule) && Processed(x)
    requires p.leadIn ==> !Waits(s.pending, p)
    ensures var had := s.store.Of(p.rule);
      Step(s, x, next, parents).store.Of(p.rule) ==
        if Waits(s.pending, p) && Answers(x, p.block, parents) then x.evidence
        else if Closing(x) && had == [] && Cites(x, next, p.block, s.topStart, parents) &&
          Holds(s.section, Member(p.rule, p.block))
        then x.evidence
        else had
  {
    GivenRule(s, x, parents, p);
    ClosedRule(s, x, next, parents, p);
  }

  lemma KeptWereWaiting(x: Read, pending: seq<Owed>, n: nat, parents: map<nat, Option<nat>>, a: nat)
    requires Upward(parents) && n <= |pending| && a < |KeptTo(x, pending, n, parents)|
    ensures ListedTo(pending, n, KeptTo(x, pending, n, parents)[a])
  {
    var p := KeptTo(x, pending, n, parents)[a];
    KeptAre(x, pending, n, parents, p);
    assert Waits(KeptTo(x, pending, n, parents), p);
  }

  lemma StaysAlone(a: Store, b: Store, r: nat)
    requires Moved(a, b) && Alone(a, r) && |b.refs| == |a.refs| && b.refs[r] == a.refs[r]
    ensures Alone(b, r)
  {
  }

  /** Over a block a rule keeps its list, or ends with one that is its own. */
  lemma StepMoves(s: State, x: Read, next: Option<nat>, parents: map<nat, Option<nat>>, p: Owed)
    requires Upward(parents) && Knows(s, p)
    ensures var closed := Closed(s, x, next, parents);
      closed.refs[p.rule] == s.store.refs[p.rule] || Alone(closed, p.rule)
  {
    GivenRule(s, x, parents, p);
    ClosedRule(s, x, next, parents, p);
    ClosedMoves(s, x, next, parents);
    var given, closed := Given(s, x, parents), Closed(s, x, next, parents);
    if closed.refs[p.rule] == given.refs[p.rule] && Alone(given, p.rule) { StaysAlone(given, closed, p.rule); }
  }

  /** A rule that a block makes has none of the lists there were before it. */
  lemma NewListsAreNew(s: State, x: Read, next: Option<nat>, parents: map<nat, Option<nat>>, q: nat)
    requires Upward(parents) && s.Valid() && |s.store.refs| <= q < |s.store.refs| + |x.rules|
    ensures Closed(s, x, next, parents).refs[q] >= |s.store.lists|
  {
    var born := BornTo(s.store, x, |x.rules|);
    BornMoves(s.store, x, |x.rules|);
    OweMoves(born, x, s.pending, |s.pending|, parents);
    ClosedMoves(s, x, next, parents);
  }

  /** Entry `a` of the rules that wait after a block: one that waited before, or one of the block's own. */
  lemma WaitingIsOldOrNew(s: State, x: Read, parents: map<nat, Option<nat>>, a: nat)
    requires Upward(parents) && s.Valid() && a < |Waiting(s, x, parents)|
    ensures var p := Waiting(s, x, parents)[a];
      (Waits(s.pending, p) && p.rule < |s.store.refs|) || |s.store.refs| <= p.rule < |s.store.refs| + |x.rules|
  {
    var base := |s.store.refs|;
    WaitingStayInRange(s, x, parents);
    OwedAreNew(Given(s, x, parents), x, base, |x.rules|);
    if a < |KeptTo(x, s.pending, |s.pending|, parents)| { KeptWereWaiting(x, s.pending, |s.pending|, parents, a); }
  }

  /** A rule that goes on waiting was waiting, and the block keeps it. */
  lemma KeptIsKept(s: State, x: Read, parents: map<nat, Option<nat>>, a: nat)
    requires Upward(parents) && s.Valid() && a < |Waiting(s, x, parents)|
    requires Waiting(s, x, parents)[a].rule < |s.store.refs|
    ensures Waits(s.pending, Waiting(s, x, parents)[a]) && Keeps(x, Waiting(s, x, parents)[a], parents)
  {
    var kept, p := KeptTo(x, s.pending, |s.pending|, parents), Waiting(s, x, parents)[a];
    OwedAreNew(Given(s, x, parents), x, |s.store.refs|, |x.rules|);
    assert kept[a] == p && Waits(kept, p);
    KeptAre(x, s.pending, |s.pending|, parents, p);
  }

  lemma StepStaysQuiet(s: State, x: Read, next: Option<nat>, parents: map<nat, Option<nat>>, p: Owed)
    requires Upward(parents) && Knows(s, p) && Quiet(s, p.rule) && Processed(x)
    requires p.leadIn ==> !Waits(s.pending, p)
    ensures Quiet(Step(s, x, next, parents), p.rule)
  {
    var after, r := Step(s, x, next, parents), p.rule;
    StepMoves(s, x, next, parents, p);
    ClosedMoves(s, x, next, parents);
    forall a | 0 <= a < |after.pending| && after.pending[a].leadIn
      ensures after.store.refs[after.pending[a].rule] != after.store.refs[r]
    {
      var q := after.pending[a];
      WaitingIsOldOrNew(s, x, parents, a);
      if q.rule < |s.store.refs| {
        assert Waits(s.pending, q);
        StaysApart(s.store, after.store, r, q.rule);
      } else {
        NewListsAreNew(s, x, next, parents, q.rule);
      }
    }
  }

  // ----- A block's own rules, once the block is read

  /** What waits before a block leaves the block's own rules alone. */
  lemma OweSparesNew(st: Store, x: Read, pending: seq<Owed>, parents: map<nat, Option<nat>>, base: nat, p: Owed)
    requires Upward(parents) && st.Valid() && base <= p.rule < |st.refs| && InRange(pending, base)
    requires forall q :: 0 <= q < base ==> st.refs[q] != st.refs[p.rule]
    ensures var after := OweTo(st, x, pending, |pending|, parents);
      after.refs[p.rule] == st.refs[p.rule] && after.Of(p.rule) == st.Of(p.rule)
  {
    OweRule(st, x, pending, |pending|, parents, p);
    OweSpares(st, x, pending, |pending|, parents, st.refs[p.rule]);
  }

  lemma StepOfOwn(s: State, x: Read, parents: map<nat, Option<nat>>, k: nat)
    requires Upward(parents) && s.Valid() && k < |x.rules|
    ensures var born, given, r := BornTo(s.store, x, |x.rules|), Given(s, x, parents), |s.store.refs| + k;
      given.refs[r] == born.refs[r] && given.Of(r) == Birth(x, k)
  {
    hide OweTo, BornTo;
    var born, base := BornTo(s.store, x, |x.rules|), |s.store.refs|;
    BornMoves(s.store, x, |x.rules|);
    BornRule(s.store, x, |x.rules|, k);
    OweSparesNew(born, x, s.pending, parents, base, AsOwed(x, base, k));
  }

  /** A rule starts with what its sentence or its block cites, and waits when that is nothing. */
  lemma StepMakes(s: State, x: Read, next: Option<nat>, parents: map<nat, Option<nat>>, k: nat)
    requires Upward(parents) && s.Valid() && Processed(x) && k < |x.rules|
    ensures var after, p := Step(s, x, next, parents), AsOwed(x, |s.store.refs|, k);
      && Knows(after, p) && Holds(after.section, Member(p.rule, p.block))
      && after.store.Of(p.rule) == Birth(x, k)
      && (Waits(after.pending, p) <==> Birth(x, k) == [])
  {
    var base := |s.store.refs|;
    var p, owed := AsOwed(x, base, k), OwedTo(Given(s, x, parents), x, base, |x.rules|);
    var kept := KeptTo(x, s.pending, |s.pending|, parents);
    StepOfOwn(s, x, parents, k);
    OwedAre(Given(s, x, parents), x, base, |x.rules|, k);
    KeptStayInRange(x, s.pending, |s.pending|, parents, base);
    WaitsJoined(kept, owed, p);
    MembersAreNew(x, base, |x.rules|);
    assert Section(s, x)[|s.section| + k] == Member(p.rule, p.block);
  }

  /** Who waits on the list of a block's rule is a rule of that block. */
  lemma SharersAreSiblings(s: State, x: Read, next: Option<nat>, parents: map<nat, Option<nat>>, k: nat, a: nat)
    requires Upward(parents) && s.Valid() && Processed(x) && k < |x.rules| && a < |Waiting(s, x, parents)|
    requires Waiting(s, x, parents)[a].rule < |s.store.refs| + |x.rules|
    requires Closed(s, x, next, parents).refs[Waiting(s, x, parents)[a].rule] ==
      Closed(s, x, next, parents).refs[|s.store.refs| + k]
    ensures var base, q := |s.store.refs|, Waiting(s, x, parents)[a];
      base <= q.rule < base + |x.rules| && q == AsOwed(x, base, q.rule - base) && Birth(x, q.rule - base) == []
  {
    var base, q, born := |s.store.refs|, Waiting(s, x, parents)[a], BornTo(s.store, x, |x.rules|);
    StepOfOwn(s, x, parents, k);
    BornMoves(s.store, x, |x.rules|);
    OweMoves(born, x, s.pending, |s.pending|, parents);
    WaitingIsOldOrNew(s, x, parents, a);
    StepMakes(s, x, next, parents, q.rule - base);
    assert Waits(Waiting(s, x, parents), q);
  }

  lemma StepMakesQuiet(s: State, x: Read, next: Option<nat>, parents: map<nat, Option<nat>>, k: nat)
    requires Upward(parents) && s.Valid() && Processed(x) && k < |x.rules| && !Shares(x, k)
    ensures Quiet(Step(s, x, next, parents), |s.store.refs| + k)
  {
    var after, r := Step(s, x, next, parents), |s.store.refs| + k;
    forall a | 0 <= a < |after.pending| && after.pending[a].leadIn
      ensures after.store.refs[after.pending[a].rule] != after.store.refs[r]
    {
      if after.store.refs[after.pending[a].rule] == after.store.refs[r] {
        SharersAreSiblings(s, x, next, parents, k, a);
        StepOfOwn(s, x, parents, k);
        StepOfOwn(s, x, parents, after.pending[a].rule - |s.store.refs|);
      }
    }
  }

  // ----- Whole texts

  /** Rule `k` of block `i`, as it waits. */
  function RuleOf(text: seq<Read>, i: nat, k: nat, parents: map<nat, Option<nat>>): Owed
    requires Upward(parents) && i < |text| && k < |text[i].rules|
  {
    AsOwed(text[i], |After(text, i, parents).store.refs|, k)
  }

  /** The evidence of rule `k` of block `i` once the first `n` blocks are read. */
  function EvidenceOf(text: seq<Read>, i: nat, k: nat, n: nat, parents: map<nat, Option<nat>>): seq<Tag>
    requires Upward(parents) && i < n <= |text| && k < |text[i].rules| && Processed(text[i])
  {
    Known(text, i, k, n, parents);
    After(text, n, parents).store.Of(RuleOf(text, i, k, parents).rule)
  }

  lemma {:induction false} Known(text: seq<Read>, i: nat, k: nat, n: nat, parents: map<nat, Option<nat>>)
    requires Upward(parents) && i < n <= |text| && k < |text[i].rules| && Processed(text[i])
    ensures Knows(After(text, n, parents), RuleOf(text, i, k, parents))
  {
    var s, x, next := After(text, n - 1, parents), text[n - 1], NextLine(text, n - 1);
    if i == n - 1 {
      StepMakes(s, x, next, parents, k);
    } else {
      Known(text, i, k, n - 1, parents);
      if Processed(x) { StepKnows(s, x, next, parents, RuleOf(text, i, k, parents)); }
    }
  }
}
