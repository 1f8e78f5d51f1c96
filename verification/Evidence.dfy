/**
 The evidence engine of scripts/gen-rules-index.py: while `read_rules` reads a text block by
 block, a rule without evidence waits for a later block's, in `owe_evidence`, and a paragraph
 that closes a list cites the rules of the list that still have none.
 A rule's evidence is a list object that a block's rules may share, so the lists are a store
 and a rule refers to one by its place in it.
 */
module Evidence {
  import opened Wrappers
  import opened BlockForest

  type Tag = string

  /** A rule of a block: whether it leads a list, and the evidence its own sentence cites. */
  datatype Rule = Rule(leadIn: bool, own: seq<Tag>)

  /**
   A block as the reader has it: a `divider` is the row of dashes under a table's header, and a
   `bare` block holds evidence and nothing else.
   */
  datatype Read = Read(block: Block, divider: bool, rules: seq<Rule>, evidence: seq<Tag>, bare: bool)

  /** A rule that waits, its block's line, and whether its block is at the top level. */
  datatype Owed = Owed(rule: nat, block: nat, leadIn: bool, top: bool)

  datatype Member = Member(rule: nat, at: nat)

  // ----- The evidence lists

  function Added(list: seq<Tag>, tags: seq<Tag>, n: nat): (r: seq<Tag>)
    requires n <= |tags|
    ensures list <= r
    ensures n > 0 ==> r != []
  {
    if n == 0 then list
    else
      var l := Added(list, tags, n - 1);
      if tags[n - 1] in l then l else l + [tags[n - 1]]
  }

  /** The lists, and for each rule the place of its own. */
  datatype Store = Store(lists: seq<seq<Tag>>, refs: seq<nat>)
  {
    predicate Valid() { forall r :: 0 <= r < |refs| ==> refs[r] < |lists| }

    predicate Has(r: nat) { r < |refs| && refs[r] < |lists| }

    function Of(r: nat): seq<Tag>
      requires Has(r)
    {
      lists[refs[r]]
    }

    /** `r["evidence"] = list(tags)`: a new list. */
    function Set(r: nat, tags: seq<Tag>): Store
      requires r < |refs|
    {
      Store(lists + [tags], refs[r := |lists|])
    }

    /** `r["evidence"].append(e)` for each tag the list does not hold yet. */
    function Extend(r: nat, tags: seq<Tag>): Store
      requires Has(r)
    {
      Store(lists[refs[r] := Added(lists[refs[r]], tags, |tags|)], refs)
    }
  }

  // ----- `owe_evidence`

  predicate Inside(x: Read, p: Owed, parents: map<nat, Option<nat>>)
    requires Upward(parents)
  {
    if p.top then x.block.item || x.block.parent.Some? else IsWithin(x.block.line, p.block, parents)
  }

  /** The block answers a rule of block `b` that is no lead-in: it holds evidence and no rule, and is placed right. */
  predicate Answers(x: Read, b: nat, parents: map<nat, Option<nat>>)
    requires Upward(parents)
  {
    x.rules == [] && x.evidence != [] &&
    ((!x.block.item && (x.block.parent == None || IsWithin(b, x.block.parent.value, parents))) ||
     (x.block.item && x.block.parent == Some(b)))
  }

  /** The block ends the wait of a rule of block `b`: it holds a rule and does not sit under `b`. */
  predicate Ends(x: Read, b: nat, parents: map<nat, Option<nat>>)
    requires Upward(parents)
  {
    x.rules != [] && !IsWithin(x.block.line, b, parents)
  }

  predicate Keeps(x: Read, p: Owed, parents: map<nat, Option<nat>>)
    requires Upward(parents)
  {
    if p.leadIn then Inside(x, p, parents) else !Answers(x, p.block, parents) && !Ends(x, p.block, parents)
  }

  function OweOne(st: Store, x: Read, p: Owed, parents: map<nat, Option<nat>>): (r: Store)
    requires Upward(parents) && st.Has(p.rule)
    ensures |r.refs| == |st.refs| && |r.lists| >= |st.lists|
  {
    if p.leadIn then
      if Inside(x, p, parents) || (x.rules == [] && !x.block.item) then st.Extend(p.rule, x.evidence) else st
    else if Answers(x, p.block, parents) then st.Set(p.rule, x.evidence)
    else st
  }

  ghost predicate InRange(pending: seq<Owed>, n: nat) { forall a :: 0 <= a < |pending| ==> pending[a].rule < n }

  /** The store once the first `n` of the waiting rules have been looked at. */
  function OweTo(st: Store, x: Read, pending: seq<Owed>, n: nat, parents: map<nat, Option<nat>>): (r: Store)
    requires Upward(parents) && st.Valid() && InRange(pending, |st.refs|) && n <= |pending|
    ensures r.Valid() && |r.refs| == |st.refs| && |r.lists| >= |st.lists|
  {
    if n == 0 then st else OweOne(OweTo(st, x, pending, n - 1, parents), x, pending[n - 1], parents)
  }

  function KeptTo(x: Read, pending: seq<Owed>, n: nat, parents: map<nat, Option<nat>>): (r: seq<Owed>)
    requires Upward(parents) && n <= |pending|
    ensures |r| <= n
  {
    if n == 0 then []
    else KeptTo(x, pending, n - 1, parents) + (if Keeps(x, pending[n - 1], parents) then [pending[n - 1]] else [])
  }

  // ----- The closing pass

  /** The paragraph closes a list: it is the last block of its item, or evidence alone at the top level. */
  predicate Closing(x: Read) {
    x.block.kind == ProseKind && !x.block.item && x.rules == [] && x.evidence != []
  }

  /** It cites the rules of the block at line `at`. */
  predicate Cites(x: Read, next: Option<nat>, at: nat, topStart: nat, parents: map<nat, Option<nat>>)
    requires Upward(parents)
  {
    match x.block.parent
    case Some(p) => !(next.Some? && IsWithin(next.value, p, parents)) && IsWithin(at, p, parents)
    case None => x.bare && at >= topStart
  }

  ghost predicate MembersInRange(section: seq<Member>, n: nat) {
    forall a :: 0 <= a < |section| ==> section[a].rule < n
  }

  function CloseTo(st: Store, x: Read, next: Option<nat>, section: seq<Member>, topStart: nat, n: nat,
                   parents: map<nat, Option<nat>>): (r: Store)
    requires Upward(parents) && st.Valid() && MembersInRange(section, |st.refs|) && n <= |section|
    ensures r.Valid() && |r.refs| == |st.refs| && |r.lists| >= |st.lists|
  {
    if n == 0 then st
    else
      var before := CloseTo(st, x, next, section, topStart, n - 1, parents);
      var m := section[n - 1];
      if before.Of(m.rule) == [] && Cites(x, next, m.at, topStart, parents) then before.Set(m.rule, x.evidence)
      else before
  }

  // ----- A block's own rules

  /**
   The store with the first `n` rules of a block: one that cites nothing of its own shares the
   list of its block's evidence, which may be empty.
   */
  function BornTo(st: Store, x: Read, n: nat): (r: Store)
    requires st.Valid() && n <= |x.rules|
    ensures r.Valid() && |r.refs| == |st.refs| + n && |r.lists| > |st.lists| && r.lists[|st.lists|] == x.evidence
  {
    if n == 0 then Store(st.lists + [x.evidence], st.refs)
    else
      var before := BornTo(st, x, n - 1);
      if x.rules[n - 1].own == [] then Store(before.lists, before.refs + [|st.lists|])
      else Store(before.lists + [x.rules[n - 1].own], before.refs + [|before.lists|])
  }

  function IsTopBlock(x: Read): bool { x.block.parent == None && !x.block.item }

  /** Those of the block's first `n` rules that have no evidence, as they start to wait. */
  function OwedTo(st: Store, x: Read, base: nat, n: nat): (r: seq<Owed>)
    requires st.Valid() && n <= |x.rules| && base + n <= |st.refs|
  {
    if n == 0 then []
    else
      OwedTo(st, x, base, n - 1) +
      (if st.Of(base + n - 1) == [] then [Owed(base + n - 1, x.block.line, x.rules[n - 1].leadIn, IsTopBlock(x))]
        else [])
  }

  function MembersTo(x: Read, base: nat, n: nat): seq<Member> {
    if n == 0 then [] else MembersTo(x, base, n - 1) + [Member(base + n - 1, x.block.line)]
  }

  // ----- One block, and a whole text

  datatype State = State(store: Store, pending: seq<Owed>, section: seq<Member>, topStart: nat)
  {
    ghost predicate Valid() {
      store.Valid() && InRange(pending, |store.refs|) && MembersInRange(section, |store.refs|)
    }
  }

  predicate Skipped(x: Read) { x.block.kind == RowKind && x.divider }

  /** The store once a block's rules are made and its evidence is given to the rules that wait. */
  function Given(s: State, x: Read, parents: map<nat, Option<nat>>): (r: Store)
    requires Upward(parents) && s.Valid()
    ensures r.Valid() && |r.refs| == |s.store.refs| + |x.rules|
  {
    OweTo(BornTo(s.store, x, |x.rules|), x, s.pending, |s.pending|, parents)
  }

  /** The rules that wait after a block: those it leaves waiting, then its own. */
  function Waiting(s: State, x: Read, parents: map<nat, Option<nat>>): (r: seq<Owed>)
    requires Upward(parents) && s.Valid()
  {
    KeptTo(x, s.pending, |s.pending|, parents) +
    OwedTo(Given(s, x, parents), x, |s.store.refs|, |x.rules|)
  }

  function Section(s: State, x: Read): seq<Member> {
    s.section + MembersTo(x, |s.store.refs|, |x.rules|)
  }

  /** The store once the closing pass has run too. */
  function Closed(s: State, x: Read, next: Option<nat>, parents: map<nat, Option<nat>>): (r: Store)
    requires Upward(parents) && s.Valid()
    ensures r.Valid() && |r.refs| == |s.store.refs| + |x.rules|
  {
    MembersStayInRange(s, x);
    var given := Given(s, x, parents);
    if Closing(x) then CloseTo(given, x, next, Section(s, x), s.topStart, |Section(s, x)|, parents) else given
  }

  lemma {:induction false} KeptStayInRange(x: Read, pending: seq<Owed>, n: nat, parents: map<nat, Option<nat>>,
          top: nat)
    requires Upward(parents) && n <= |pending| && InRange(pending, top)
    ensures InRange(KeptTo(x, pending, n, parents), top)
  {
    if n > 0 { KeptStayInRange(x, pending, n - 1, parents, top); }
  }

  lemma {:induction false} OwedStayInRange(st: Store, x: Read, base: nat, n: nat)
    requires st.Valid() && n <= |x.rules| && base + n <= |st.refs|
    ensures InRange(OwedTo(st, x, base, n), base + n)
  {
    if n > 0 { OwedStayInRange(st, x, base, n - 1); }
  }

  lemma {:induction false} MembersAreNew(x: Read, base: nat, n: nat)
    ensures |MembersTo(x, base, n)| == n
    ensures forall a :: 0 <= a < n ==> MembersTo(x, base, n)[a] == Member(base + a, x.block.line)
  {
    if n > 0 { MembersAreNew(x, base, n - 1); }
  }

  lemma MembersStayInRange(s: State, x: Read)
    requires s.Valid()
    ensures MembersInRange(Section(s, x), |s.store.refs| + |x.rules|)
  {
    MembersAreNew(x, |s.store.refs|, |x.rules|);
  }

  lemma WaitingStayInRange(s: State, x: Read, parents: map<nat, Option<nat>>)
    requires Upward(parents) && s.Valid()
    ensures InRange(Waiting(s, x, parents), |s.store.refs| + |x.rules|)
  {
    KeptStayInRange(x, s.pending, |s.pending|, parents, |s.store.refs|);
    OwedStayInRange(Given(s, x, parents), x, |s.store.refs|, |x.rules|);
  }

  /** What reading a block makes of the state; `next` is the line of the block after it. */
  function Step(s: State, x: Read, next: Option<nat>, parents: map<nat, Option<nat>>): (r: State)
    requires Upward(parents) && s.Valid()
    ensures r.Valid()
  {
    MembersStayInRange(s, x);
    WaitingStayInRange(s, x, parents);
    if x.block.kind == HeadingKind then State(s.store, [], [], x.block.line)
    else if Skipped(x) then s
    else
      State(Closed(s, x, next, parents), Waiting(s, x, parents), Section(s, x),
            if x.block.kind == ProseKind && IsTopBlock(x) then x.block.line else s.topStart)
  }

  function NextLine(text: seq<Read>, n: nat): Option<nat> {
    if n + 1 < |text| then Some(text[n + 1].block.line) else None
  }

  /** The state once the first `n` blocks of a text are read. */
  function After(text: seq<Read>, n: nat, parents: map<nat, Option<nat>>): (r: State)
    requires Upward(parents) && n <= |text|
    ensures r.Valid()
  {
    if n == 0 then State(Store([], []), [], [], 0)
    else Step(After(text, n - 1, parents), text[n - 1], NextLine(text, n - 1), parents)
  }

  // ----- The passes as they run, on lists that are updated in place

  class Reader {
    var lists: seq<seq<Tag>>
    var refs: seq<nat>
    var pending: seq<Owed>
    var section: seq<Member>
    var topStart: nat

    ghost function Value(): State
      reads this
    {
      State(Store(lists, refs), pending, section, topStart)
    }

    constructor ()
      ensures Value() == State(Store([], []), [], [], 0)
    {
      lists, refs, pending, section, topStart := [], [], [], [], 0;
    }

    /** The inner loop of `owe_evidence`: each tag the rule's list does not hold yet, appended to it. */
    method Append(r: nat, tags: seq<Tag>)
      requires Store(lists, refs).Has(r)
      modifies this`lists
      ensures Store(lists, refs) == old(Store(lists, refs)).Extend(r, tags)
    {
      for n := 0 to |tags|
        invariant |lists| == |old(lists)|
        invariant lists == old(lists)[refs[r] := Added(old(lists)[refs[r]], tags, n)]
      {
        if tags[n] !in lists[refs[r]] { lists := lists[refs[r] := lists[refs[r]] + [tags[n]]]; }
      }
    }

    method Assign(r: nat, tags: seq<Tag>)
      requires r < |refs|
      modifies this`lists, this`refs
      ensures Store(lists, refs) == old(Store(lists, refs)).Set(r, tags)
    {
      lists, refs := lists + [tags], refs[r := |lists|];
    }

    /** The rules of a block, as `read_rules` makes them. */
    method MakeRules(x: Read)
      requires Value().Valid()
      modifies this`lists, this`refs
      ensures Store(lists, refs) == BornTo(old(Store(lists, refs)), x, |x.rules|)
    {
      var shared := |lists|;
      lists := lists + [x.evidence];
      for n := 0 to |x.rules|
        invariant Store(lists, refs) == BornTo(old(Store(lists, refs)), x, n)
      {
        if x.rules[n].own == [] {
          refs := refs + [shared];
        } else {
          lists, refs := lists + [x.rules[n].own], refs + [|lists|];
        }
      }
    }

    method OweEvidence(x: Read, parents: map<nat, Option<nat>>)
      requires Upward(parents) && Value().Valid()
      modifies this`lists, this`refs, this`pending
      ensures Store(lists, refs) == OweTo(old(Store(lists, refs)), x, old(pending), |old(pending)|, parents)
      ensures pending == KeptTo(x, old(pending), |old(pending)|, parents)
    {
      var out: seq<Owed> := [];
      for n := 0 to |pending|
        invariant pending == old(pending)
        invariant Store(lists, refs) == OweTo(old(Store(lists, refs)), x, pending, n, parents)
        invariant out == KeptTo(x, pending, n, parents)
      {
        var p := pending[n];
        if p.leadIn {
          var inside := x.block.item || x.block.parent != None;
          if !p.top { inside := Within(x.block.line, p.block, parents); }
          if inside {
            Append(p.rule, x.evidence);
            out := out + [p];
          } else if x.rules == [] && !x.block.item {
            Append(p.rule, x.evidence);
          }
        } else if Answers(x, p.block, parents) {
          Assign(p.rule, x.evidence);
        } else if !Ends(x, p.block, parents) {
          out := out + [p];
        }
      }
      pending := out;
    }

    method StartWaiting(x: Read, base: nat)
      requires Value().Valid() && base + |x.rules| == |refs|
      modifies this`pending, this`section
      ensures pending == old(pending) + OwedTo(Store(lists, refs), x, base, |x.rules|)
      ensures section == old(section) + MembersTo(x, base, |x.rules|)
    {
      for n := 0 to |x.rules|
        invariant pending == old(pending) + OwedTo(Store(lists, refs), x, base, n)
        invariant section == old(section) + MembersTo(x, base, n)
      {
        if lists[refs[base + n]] == [] {
          pending := pending + [Owed(base + n, x.block.line, x.rules[n].leadIn,
                                      x.block.parent == None && !x.block.item)];
        }
        section := section + [Member(base + n, x.block.line)];
      }
    }

    method ClosePass(x: Read, next: Option<nat>, parents: map<nat, Option<nat>>)
      requires Upward(parents) && Value().Valid()
      modifies this`lists, this`refs
      ensures Store(lists, refs) == CloseTo(old(Store(lists, refs)), x, next, section, topStart, |section|, parents)
    {
      for n := 0 to |section|
        invariant Store(lists, refs) == CloseTo(old(Store(lists, refs)), x, next, section, topStart, n, parents)
      {
        var m := section[n];
        if lists[refs[m.rule]] == [] && Cites(x, next, m.at, topStart, parents) { Assign(m.rule, x.evidence); }
      }
    }

    /** Makes the block's rules, hands its evidence on, and starts the wait of those without. */
    method TakeRules(x: Read, parents: map<nat, Option<nat>>)
      requires Upward(parents) && Value().Valid()
      modifies this`lists, this`refs, this`pending, this`section
      ensures Store(lists, refs) == Given(old(Value()), x, parents)
      ensures pending == Waiting(old(Value()), x, parents) && section == Section(old(Value()), x)
    {
      var base := |refs|;
      MakeRules(x);
      OweEvidence(x, parents);
      KeptStayInRange(x, old(pending), |old(pending)|, parents, base);
      StartWaiting(x, base);
    }

    /** The loop body of `read_rules`, as far as evidence goes. */
    method ReadBlock(x: Read, next: Option<nat>, parents: map<nat, Option<nat>>)
      requires Upward(parents) && Value().Valid()
      modifies this
      ensures Value() == Step(old(Value()), x, next, parents)
    {
      ghost var before := Value();
      if x.block.kind == HeadingKind {
        pending, section, topStart := [], [], x.block.line;
        return;
      }
      if x.block.kind == RowKind && x.divider { return; }
      TakeRules(x, parents);
      MembersStayInRange(before, x);
      WaitingStayInRange(before, x, parents);
      if x.block.kind == ProseKind && !x.block.item && x.rules == [] && x.evidence != [] {
        ClosePass(x, next, parents);
      }
      if x.block.kind == ProseKind && x.block.parent == None && !x.block.item { topStart := x.block.line; }
    }
  }

  /** The whole loop: the evidence of every rule of a text. */
  method ReadRules(text: seq<Read>, parents: map<nat, Option<nat>>) returns (evidence: seq<seq<Tag>>)
    requires Upward(parents)
    ensures var end := After(text, |text|, parents).store;
      |evidence| == |end.refs| && forall r :: 0 <= r < |evidence| ==> evidence[r] == end.Of(r)
  {
    var reader := new Reader();
    for n := 0 to |text|
      invariant fresh(reader) && reader.Value().Valid() && reader.Value() == After(text, n, parents)
    {
      reader.ReadBlock(text[n], NextLine(text, n), parents);
    }
    evidence := [];
    for r := 0 to |reader.refs|
      invariant |evidence| == r && forall q :: 0 <= q < r ==> evidence[q] == reader.lists[reader.refs[q]]
    {
      evidence := evidence + [reader.lists[reader.refs[r]]];
    }
  }
}
