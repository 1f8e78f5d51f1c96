/**
 The list-item forest of scripts/gen-rules-index.py: `blocks_of` finds the item that each block
 sits under with a stack of indents, and `within` and `list_items` ask that forest.
 An event is a block as the prose reader yields it, with what its source line adds: its indent,
 and whether it starts a list item.
 */
module BlockForest {
  import opened Wrappers

  datatype Event = Heading(line: nat) | Row(line: nat) | Para(line: nat, indent: nat, item: bool)

  datatype Kind = HeadingKind | RowKind | ProseKind

  /** A block, with the line of the list item it sits under; a heading or a row has none. */
  datatype Block = Block(kind: Kind, line: nat, parent: Option<nat>, item: bool)

  /** An open list item. */
  datatype Entry = Entry(indent: nat, line: nat)

  /** The reader yields blocks in the order of their lines. */
  ghost predicate Ordered(evs: seq<Event>) {
    forall a, b :: 0 <= a < b < |evs| ==> evs[a].line < evs[b].line
  }

  predicate IsItem(evs: seq<Event>, j: int) { 0 <= j < |evs| && evs[j].Para? && evs[j].item }

  ghost predicate AreItems(evs: seq<Event>, stack: seq<nat>) {
    forall a :: 0 <= a < |stack| ==> IsItem(evs, stack[a])
  }

  // ----- The stack, as indices of events

  /** How many of the first `m` entries of the stack are left once those not left of `indent` are popped. */
  function Popped(evs: seq<Event>, stack: seq<nat>, m: nat, indent: nat): (r: nat)
    requires m <= |stack| && AreItems(evs, stack)
    ensures r <= m
    ensures r > 0 ==> evs[stack[r - 1]].indent < indent
    ensures forall a :: r <= a < m ==> evs[stack[a]].indent >= indent
  {
    if m > 0 && evs[stack[m - 1]].indent >= indent then Popped(evs, stack, m - 1, indent) else m
  }

  /** The items open when block `i` is placed: those left of it. */
  function Above(evs: seq<Event>, i: nat, stack: seq<nat>): (r: seq<nat>)
    requires i < |evs| && AreItems(evs, stack)
    ensures AreItems(evs, r)
  {
    match evs[i]
    case Heading(_) => []
    case Row(_) => stack
    case Para(_, indent, item) => if indent == 0 && !item then [] else stack[..Popped(evs, stack, |stack|, indent)]
  }

  /** The stack once block `i` is placed. */
  function Pushed(evs: seq<Event>, i: nat, stack: seq<nat>): (r: seq<nat>)
    requires i < |evs| && AreItems(evs, stack)
    ensures AreItems(evs, r)
  {
    if IsItem(evs, i) then Above(evs, i, stack) + [i] else Above(evs, i, stack)
  }

  /** The stack after the first `n` blocks. */
  function StackAfter(evs: seq<Event>, n: nat): (r: seq<nat>)
    requires n <= |evs|
    ensures AreItems(evs, r)
  {
    if n == 0 then [] else Pushed(evs, n - 1, StackAfter(evs, n - 1))
  }

  /** The item that block `i` sits under. */
  function ParentOf(evs: seq<Event>, i: nat): (r: Option<nat>)
    requires i < |evs|
    ensures r.Some? ==> IsItem(evs, r.value)
  {
    var above := Above(evs, i, StackAfter(evs, i));
    if evs[i].Para? && above != [] then Some(above[|above| - 1]) else None
  }

  function LineOf(evs: seq<Event>, p: Option<nat>): Option<nat>
    requires p.Some? ==> p.value < |evs|
  {
    if p.Some? then Some(evs[p.value].line) else None
  }

  function BlockOf(evs: seq<Event>, i: nat): Block
    requires i < |evs|
  {
    match evs[i]
    case Heading(line) => Block(HeadingKind, line, None, false)
    case Row(line) => Block(RowKind, line, None, false)
    case Para(line, _, item) => Block(ProseKind, line, LineOf(evs, ParentOf(evs, i)), item)
  }

  function Forest(evs: seq<Event>): (r: seq<Block>)
    ensures |r| == |evs|
    ensures forall i :: 0 <= i < |evs| ==> r[i] == BlockOf(evs, i)
  {
    seq(|evs|, i requires 0 <= i < |evs| => BlockOf(evs, i))
  }

  function Entries(evs: seq<Event>, stack: seq<nat>): (r: seq<Entry>)
    requires AreItems(evs, stack)
    ensures |r| == |stack|
    ensures forall a :: 0 <= a < |stack| ==> r[a] == Entry(evs[stack[a]].indent, evs[stack[a]].line)
  {
    seq(|stack|, a requires 0 <= a < |stack| => Entry(evs[stack[a]].indent, evs[stack[a]].line))
  }

  /** The loop that pops the items not left of a block. */
  method PopItems(evs: seq<Event>, ghost stack: seq<nat>, items: seq<Entry>, indent: nat) returns (left: seq<Entry>)
    requires AreItems(evs, stack) && items == Entries(evs, stack)
    ensures left == Entries(evs, stack[..Popped(evs, stack, |stack|, indent)])
  {
    left := items;
    while left != [] && left[|left| - 1].indent >= indent
      invariant |left| <= |items| && left == items[..|left|]
      invariant Popped(evs, stack, |left|, indent) == Popped(evs, stack, |stack|, indent)
    {
      left := left[..|left| - 1];
    }
  }

  function LastLine(items: seq<Entry>): Option<nat> {
    if items == [] then None else Some(items[|items| - 1].line)
  }

  lemma EntriesOneMore(evs: seq<Event>, stack: seq<nat>, i: nat)
    requires AreItems(evs, stack) && IsItem(evs, i)
    ensures AreItems(evs, stack + [i])
    ensures Entries(evs, stack + [i]) == Entries(evs, stack) + [Entry(evs[i].indent, evs[i].line)]
  {
  }

  /** The parent that a block of prose takes is the last item above it. */
  lemma ParentIsLast(evs: seq<Event>, i: nat)
    requires i < |evs| && evs[i].Para?
    ensures LineOf(evs, ParentOf(evs, i)) == LastLine(Entries(evs, Above(evs, i, StackAfter(evs, i))))
  {
  }

  /** What placing block `i` does to the open items, and the block it yields. */
  lemma OneMoreBlock(evs: seq<Event>, i: nat)
    requires i < |evs|
    ensures var stack := StackAfter(evs, i); var above := Entries(evs, Above(evs, i, stack));
      var next := Entries(evs, StackAfter(evs, i + 1));
      match evs[i]
      case Heading(_) => next == []
      case Row(_) => next == Entries(evs, stack)
      case Para(line, indent, item) =>
        && above == (if indent == 0 && !item then [] else Entries(evs, stack[..Popped(evs, stack, |stack|, indent)]))
        && next == above + (if item then [Entry(indent, line)] else [])
        && BlockOf(evs, i) == Block(ProseKind, line, LastLine(above), item)
  {
    var above := Above(evs, i, StackAfter(evs, i));
    assert StackAfter(evs, i + 1) == Pushed(evs, i, StackAfter(evs, i));
    if evs[i].Para? {
      ParentIsLast(evs, i);
      if evs[i].item { EntriesOneMore(evs, above, i); }
    }
  }

  /** The body of the loop: block `i`, and the items open after it. */
  method PlaceBlock(evs: seq<Event>, i: nat, items: seq<Entry>) returns (block: Block, next: seq<Entry>)
    requires i < |evs| && items == Entries(evs, StackAfter(evs, i))
    ensures block == BlockOf(evs, i) && next == Entries(evs, StackAfter(evs, i + 1))
  {
    ghost var stack := StackAfter(evs, i);
    OneMoreBlock(evs, i);
    match evs[i] {
      case Heading(line) =>
        block, next := Block(HeadingKind, line, None, false), [];
      case Row(line) =>
        block, next := Block(RowKind, line, None, false), items;
      case Para(line, indent, item) =>
        if item {
          next := PopItems(evs, stack, items, indent);
          block := Block(ProseKind, line, LastLine(next), true);
          next := next + [Entry(indent, line)];
        } else if indent == 0 {
          block, next := Block(ProseKind, line, None, false), [];
        } else {
          next := PopItems(evs, stack, items, indent);
          block := Block(ProseKind, line, LastLine(next), false);
        }
    }
  }

  method BlocksOf(evs: seq<Event>) returns (out: seq<Block>)
    ensures out == Forest(evs)
  {
    out := [];
    var items: seq<Entry> := [];
    for i := 0 to |evs|
      invariant |out| == i && forall k :: 0 <= k < i ==> out[k] == BlockOf(evs, k)
      invariant items == Entries(evs, StackAfter(evs, i))
    {
      var block;
      block, items := PlaceBlock(evs, i, items);
      out := out + [block];
    }
  }

  // ----- The stack computes nearest smaller values

  /** Block `k` closes item `j`: a heading does, and a block of prose that is not right of it. */
  predicate Closes(evs: seq<Event>, k: nat, j: nat)
    requires k < |evs| && IsItem(evs, j)
  {
    evs[k].Heading? || (evs[k].Para? && evs[k].indent <= evs[j].indent)
  }

  /** Item `j` is open once `n` blocks have been read: no block since has closed it. */
  ghost predicate OpenAt(evs: seq<Event>, j: int, n: nat)
    requires n <= |evs|
  {
    j < n && IsItem(evs, j) && forall k :: j < k < n ==> !Closes(evs, k, j)
  }

  ghost predicate Has(stack: seq<nat>, j: int) { exists a :: 0 <= a < |stack| && stack[a] == j }

  /** The stack holds the open items, in order, each right of the one before. */
  ghost predicate IsStack(evs: seq<Event>, n: nat, stack: seq<nat>)
    requires n <= |evs| && AreItems(evs, stack)
  {
    && (forall a, b :: 0 <= a < b < |stack| ==> stack[a] < stack[b] && evs[stack[a]].indent < evs[stack[b]].indent)
    && (forall a :: 0 <= a < |stack| ==> OpenAt(evs, stack[a], n))
    && (forall j :: OpenAt(evs, j, n) ==> Has(stack, j))
  }

  lemma OpenOneMore(evs: seq<Event>, j: int, i: nat)
    requires i < |evs| && j < i
    ensures OpenAt(evs, j, i + 1) <==> OpenAt(evs, j, i) && !Closes(evs, i, j)
  {
  }

  /** Of the items that are open, those that block `i` does not close are above it. */
  lemma AboveIsOpen(evs: seq<Event>, i: nat, stack: seq<nat>)
    requires i < |evs| && AreItems(evs, stack) && IsStack(evs, i, stack)
    ensures var above := Above(evs, i, stack);
      && above <= stack
      && (forall a :: 0 <= a < |above| ==> OpenAt(evs, above[a], i + 1))
      && (forall j :: j < i && OpenAt(evs, j, i + 1) ==> Has(above, j))
  {
    var above := Above(evs, i, stack);
    forall a | 0 <= a < |above|
      ensures OpenAt(evs, above[a], i + 1)
    {
      assert OpenAt(evs, stack[a], i);
      OpenOneMore(evs, stack[a], i);
      if evs[i].Para? { assert evs[stack[a]].indent <= evs[stack[|above| - 1]].indent; }
    }
    forall j | j < i && OpenAt(evs, j, i + 1)
      ensures Has(above, j)
    {
      OpenOneMore(evs, j, i);
      var a :| 0 <= a < |stack| && stack[a] == j;
      assert a < |above| && above[a] == j;
    }
  }

  lemma StackStep(evs: seq<Event>, i: nat, n: nat, stack: seq<nat>)
    requires i < |evs| && n == i + 1 && AreItems(evs, stack) && IsStack(evs, i, stack)
    ensures IsStack(evs, n, Pushed(evs, i, stack))
  {
    AboveIsOpen(evs, i, stack);
    PushIsStack(evs, i, n, Above(evs, i, stack));
  }

  ghost predicate StackIsOpen(evs: seq<Event>, n: nat)
    requires n <= |evs|
  {
    IsStack(evs, n, StackAfter(evs, n))
  }

  lemma StackStaysOpen(evs: seq<Event>, i: nat, n: nat)
    requires i < |evs| && n == i + 1 && StackIsOpen(evs, i)
    ensures StackIsOpen(evs, n)
  {
    StackStep(evs, i, n, StackAfter(evs, i));
    assert StackAfter(evs, n) == Pushed(evs, i, StackAfter(evs, i));
  }

  lemma {:induction false} StackHoldsOpen(evs: seq<Event>, n: nat)
    requires n <= |evs|
    ensures StackIsOpen(evs, n)
  {
    if n > 0 {
      StackHoldsOpen(evs, n - 1);
      StackStaysOpen(evs, n - 1, n);
    }
  }

  lemma PushIsStack(evs: seq<Event>, i: nat, n: nat, above: seq<nat>)
    requires i < |evs| && n == i + 1 && AreItems(evs, above)
    requires forall a, b :: 0 <= a < b < |above| ==> above[a] < above[b] && evs[above[a]].indent < evs[above[b]].indent
    requires forall a :: 0 <= a < |above| ==> OpenAt(evs, above[a], n) && above[a] < i
    requires forall j :: j < i && OpenAt(evs, j, n) ==> Has(above, j)
    ensures IsStack(evs, n, if IsItem(evs, i) then above + [i] else above)
  {
    var next := if IsItem(evs, i) then above + [i] else above;
    forall a | 0 <= a < |above|
      ensures IsItem(evs, i) ==> evs[above[a]].indent < evs[i].indent
    {
      assert OpenAt(evs, above[a], n);
      assert !Closes(evs, i, above[a]);
    }
    forall j | OpenAt(evs, j, n)
      ensures Has(next, j)
    {
      if j < i {
        var a :| 0 <= a < |above| && above[a] == j;
        assert next[a] == j;
      } else {
        assert next[|above|] == i;
      }
    }
  }

  /** The item nearest before block `i` that is left of it and still open. */
  ghost predicate IsNearest(evs: seq<Event>, i: nat, p: int)
    requires i < |evs| && evs[i].Para?
  {
    OpenAt(evs, p, i) && evs[p].indent < evs[i].indent &&
    forall j :: OpenAt(evs, j, i) && evs[j].indent < evs[i].indent ==> j <= p
  }

  /** A block's parent is the latest earlier item left of it that nothing since has closed. */
  lemma ParentIsNearest(evs: seq<Event>, i: nat)
    requires i < |evs| && evs[i].Para?
    ensures match ParentOf(evs, i)
      case Some(p) => IsNearest(evs, i, p)
      case None => forall j :: !(OpenAt(evs, j, i) && evs[j].indent < evs[i].indent)
  {
    var stack := StackAfter(evs, i);
    var above := Above(evs, i, stack);
    StackHoldsOpen(evs, i);
    AboveIsOpen(evs, i, stack);
    forall j | OpenAt(evs, j, i) && evs[j].indent < evs[i].indent
      ensures Has(above, j) && above != [] && j <= above[|above| - 1]
    {
      OpenOneMore(evs, j, i);
      var a :| 0 <= a < |above| && above[a] == j;
      assert a < |above| - 1 ==> stack[a] < stack[|above| - 1];
    }
    if above != [] {
      var p := above[|above| - 1];
      assert OpenAt(evs, p, i + 1);
      OpenOneMore(evs, p, i);
    }
  }

  lemma EmptyAtFirst(evs: seq<Event>)
    ensures StackAfter(evs, 0) == []
  {
  }

  lemma LeavesOpen(evs: seq<Event>, i: nat, stack: seq<nat>, m: nat)
    requires i < |evs| && evs[i].Para? && AreItems(evs, stack) && m <= |stack|
    requires m > 0 ==> evs[stack[m - 1]].indent < evs[i].indent
    requires forall a :: m <= a < |stack| ==> evs[stack[a]].indent >= evs[i].indent
    ensures Above(evs, i, stack) == stack[..m]
  {
    assert Popped(evs, stack, |stack|, evs[i].indent) == m;
  }

  lemma StackOneMore(evs: seq<Event>, i: nat, n: nat, above: seq<nat>)
    requires i < |evs| && n == i + 1 && evs[i].Para? && Above(evs, i, StackAfter(evs, i)) == above
    ensures StackAfter(evs, n) == above + (if evs[i].item then [i] else [])
  {
    hide Above;
  }

  lemma ParentIsTop(evs: seq<Event>, i: nat, above: seq<nat>)
    requires i < |evs| && evs[i].Para? && Above(evs, i, StackAfter(evs, i)) == above
    ensures AreItems(evs, above)
    ensures BlockOf(evs, i) ==
      Block(ProseKind, evs[i].line, if above == [] then None else Some(evs[above[|above| - 1]].line), evs[i].item)
  {
    hide Above, StackAfter;
  }

  /** A block of prose that leaves the first `m` items of the stack open: its parent, and the stack after it. */
  lemma Placed(evs: seq<Event>, i: nat, n: nat, stack: seq<nat>, m: nat)
    requires i < |evs| && n == i + 1 && evs[i].Para? && StackAfter(evs, i) == stack && m <= |stack|
    requires m > 0 ==> evs[stack[m - 1]].indent < evs[i].indent
    requires forall a :: m <= a < |stack| ==> evs[stack[a]].indent >= evs[i].indent
    ensures StackAfter(evs, n) == stack[..m] + (if evs[i].item then [i] else [])
    ensures BlockOf(evs, i) ==
      Block(ProseKind, evs[i].line, if m == 0 then None else Some(evs[stack[m - 1]].line), evs[i].item)
  {
    hide StackAfter, Above, BlockOf;
    LeavesOpen(evs, i, stack, m);
    StackOneMore(evs, i, n, stack[..m]);
    ParentIsTop(evs, i, stack[..m]);
  }

  // ----- `within`

  /** The parents that `read_rules` looks up: each block's line, and the line of the item it sits under. */
  function Parents(evs: seq<Event>): (r: map<nat, Option<nat>>)
    requires Ordered(evs)
  {
    map i | 0 <= i < |evs| :: evs[i].line := BlockOf(evs, i).parent
  }

  /** A parent's line is before its child's, which is why `within` ends. */
  ghost predicate Upward(parents: map<nat, Option<nat>>) {
    forall line :: line in parents && parents[line].Some? ==> parents[line].value < line
  }

  /** What the loop of `within` answers. */
  predicate IsWithin(line: nat, top: nat, parents: map<nat, Option<nat>>)
    requires Upward(parents)
    decreases line
  {
    line == top || (line in parents && parents[line].Some? && IsWithin(parents[line].value, top, parents))
  }

  method Within(start: nat, top: nat, parents: map<nat, Option<nat>>) returns (r: bool)
    requires Upward(parents)
    ensures r == IsWithin(start, top, parents)
  {
    var line: Option<nat> := Some(start);
    while line.Some?
      invariant IsWithin(start, top, parents) == (line.Some? && IsWithin(line.value, top, parents))
      decreases if line.Some? then line.value + 1 else 0
    {
      if line.value == top { return true; }
      line := if line.value in parents then parents[line.value] else None;
    }
    return false;
  }

  lemma ParentsOf(evs: seq<Event>, i: nat)
    requires Ordered(evs) && i < |evs|
    ensures evs[i].line in Parents(evs) && Parents(evs)[evs[i].line] == BlockOf(evs, i).parent
  {
    assert forall k :: 0 <= k < |evs| && evs[k].line == evs[i].line ==> k == i;
  }

  lemma ParentsGoUp(evs: seq<Event>)
    requires Ordered(evs)
    ensures Upward(Parents(evs))
  {
    forall line | line in Parents(evs) && Parents(evs)[line].Some?
      ensures Parents(evs)[line].value < line
    {
      var i :| 0 <= i < |evs| && evs[i].line == line;
      ParentsOf(evs, i);
      ParentIsNearest(evs, i);
    }
  }

  lemma {:induction false} WithinIsEarlier(line: nat, top: nat, parents: map<nat, Option<nat>>)
    requires Upward(parents) && IsWithin(line, top, parents)
    ensures top <= line
    decreases line
  {
    if line != top { WithinIsEarlier(parents[line].value, top, parents); }
  }

  /** Where a block's parent comes after an item, the item is open at both or at neither. */
  lemma OpenAtParent(evs: seq<Event>, j: nat, p: nat, i: nat)
    requires j < p < i < |evs| && IsItem(evs, j) && evs[i].Para? && IsNearest(evs, i, p)
    ensures OpenAt(evs, j, p + 1) <==> OpenAt(evs, j, i + 1)
  {
    if OpenAt(evs, j, p + 1) {
      assert !Closes(evs, p, j);
      forall k | j < k < i + 1
        ensures !Closes(evs, k, j)
      {
        if p < k < i { assert !Closes(evs, k, p); }
      }
    }
  }

  /** Block `i` sits under block `j`: what `within` answers on the forest's own parents. */
  ghost predicate Under(evs: seq<Event>, i: nat, j: nat)
    requires Ordered(evs) && i < |evs| && j < |evs|
  {
    ParentsGoUp(evs);
    IsWithin(evs[i].line, evs[j].line, Parents(evs))
  }

  lemma UnderStep(evs: seq<Event>, j: nat, i: nat)
    requires Ordered(evs) && j < i < |evs|
    ensures Under(evs, i, j) <==>
      evs[i].Para? && ParentOf(evs, i).Some? && j <= ParentOf(evs, i).value < i && Under(evs, ParentOf(evs, i).value, j)
  {
    ParentsGoUp(evs);
    ParentsOf(evs, i);
    if evs[i].Para? { ParentIsNearest(evs, i); }
    var p := ParentOf(evs, i);
    if p.Some? && Under(evs, p.value, j) {
      WithinIsEarlier(evs[p.value].line, evs[j].line, Parents(evs));
    }
  }

  lemma OpenStep(evs: seq<Event>, j: nat, i: nat)
    requires j < i < |evs| && IsItem(evs, j) && evs[i].Para?
    ensures OpenAt(evs, j, i + 1) <==>
      ParentOf(evs, i).Some? && var p := ParentOf(evs, i).value; j == p || (j < p < i && OpenAt(evs, j, p + 1))
  {
    ParentIsNearest(evs, i);
    OpenOneMore(evs, j, i);
    match ParentOf(evs, i)
    case None =>
    case Some(p) =>
      if j < p { OpenAtParent(evs, j, p, i); }
  }

  /** A block of prose sits under an item exactly when nothing since the item, the block included, has closed it. */
  lemma {:induction false} UnderIffOpen(evs: seq<Event>, j: nat, i: nat)
    requires Ordered(evs) && j < i < |evs| && IsItem(evs, j) && evs[i].Para?
    ensures Under(evs, i, j) <==> OpenAt(evs, j, i + 1)
    decreases i
  {
    UnderStep(evs, j, i);
    OpenStep(evs, j, i);
    var p := ParentOf(evs, i);
    if p.Some? && j < p.value < i { UnderIffOpen(evs, j, p.value); }
  }

  lemma {:induction false} NothingUnderOther(evs: seq<Event>, j: nat, i: nat)
    requires Ordered(evs) && j < i < |evs| && !(IsItem(evs, j) && evs[i].Para?)
    ensures !Under(evs, i, j)
    decreases i
  {
    UnderStep(evs, j, i);
    var p := ParentOf(evs, i);
    if evs[i].Para? && p.Some? && j < p.value < i { NothingUnderOther(evs, j, p.value); }
  }

  /** `within` in full: a block is within itself, and within the items that are open at it. */
  lemma WithinIs(evs: seq<Event>, j: nat, i: nat)
    requires Ordered(evs) && i < |evs| && j < |evs|
    ensures Under(evs, i, j) <==> i == j || (j < i && evs[i].Para? && OpenAt(evs, j, i + 1))
  {
    ParentsGoUp(evs);
    assert IsWithin(evs[i].line, evs[i].line, Parents(evs));
    hide Parents, OpenAt, IsWithin;
    if j < i {
      if IsItem(evs, j) && evs[i].Para? { UnderIffOpen(evs, j, i); } else { NothingUnderOther(evs, j, i); }
    } else if i < j && Under(evs, i, j) {
      WithinIsEarlier(evs[i].line, evs[j].line, Parents(evs));
    }
  }

  // ----- What each block is

  ghost predicate HasNearest(evs: seq<Event>, i: nat, line: nat)
    requires i < |evs|
  {
    evs[i].Para? && exists p :: IsNearest(evs, i, p) && line == evs[p].line
  }

  ghost predicate NoneLeft(evs: seq<Event>, i: nat)
    requires i < |evs|
  {
    evs[i].Para? ==> forall j :: !(OpenAt(evs, j, i) && evs[j].indent < evs[i].indent)
  }

  /**
   Each block in full: a heading, a row or prose as its event is, on its line, an item if it
   starts one, under the nearest open item left of it if there is one.
   */
  lemma ForestIs(evs: seq<Event>, i: nat)
    requires i < |evs|
    ensures var b := Forest(evs)[i];
      && b.line == evs[i].line
      && (b.kind == HeadingKind <==> evs[i].Heading?) && (b.kind == RowKind <==> evs[i].Row?)
      && (b.kind == ProseKind <==> evs[i].Para?)
      && (b.item <==> evs[i].Para? && evs[i].item)
      && match b.parent
         case Some(line) => HasNearest(evs, i, line)
         case None => NoneLeft(evs, i)
  {
    if evs[i].Para? { ParentIsNearest(evs, i); }
  }

  /** An item's subtree is an interval of the prose after it: once a block is outside, no later one is inside. */
  lemma SubtreeIsInterval(evs: seq<Event>, j: nat, i: nat, k: nat)
    requires Ordered(evs) && j < i < k < |evs| && IsItem(evs, j) && evs[i].Para? && evs[k].Para?
    ensures Under(evs, k, j) ==> Under(evs, i, j)
  {
    UnderIffOpen(evs, j, i);
    UnderIffOpen(evs, j, k);
  }

  // ----- `list_items`

  predicate IsTop(b: Block) { b.parent == None && !b.item }

  /** How many rows there are from block `k` on, before another kind of block. */
  function RowsFrom(blocks: seq<Block>, k: nat): (r: nat)
    requires k <= |blocks|
    ensures k + r <= |blocks| && (k + r < |blocks| ==> blocks[k + r].kind != RowKind)
    ensures forall m :: k <= m < k + r ==> blocks[m].kind == RowKind
    decreases |blocks| - k
  {
    if k == |blocks| || blocks[k].kind != RowKind then 0 else 1 + RowsFrom(blocks, k + 1)
  }

  /** What the loop over the blocks from `k` on counts, for a rule in block `here`. */
  function ItemsFrom(blocks: seq<Block>, here: Block, k: nat, parents: map<nat, Option<nat>>): nat
    requires k <= |blocks| && Upward(parents)
    decreases |blocks| - k
  {
    if k == |blocks| || blocks[k].kind != ProseKind then 0
    else
      var b := blocks[k];
      if !IsTop(here) then
        if !IsWithin(b.line, here.line, parents) || (!b.item && b.parent == Some(here.line)) then 0
        else (if b.item && b.parent == Some(here.line) then 1 else 0) + ItemsFrom(blocks, here, k + 1, parents)
      else
        if IsTop(b) then 0
        else (if b.item && b.parent == None then 1 else 0) + ItemsFrom(blocks, here, k + 1, parents)
  }

  /** The length of the list that block `index` leads; a table's, as a negative number. */
  function ListLength(blocks: seq<Block>, index: nat, parents: map<nat, Option<nat>>): int
    requires index < |blocks| && Upward(parents)
  {
    var here := blocks[index];
    if index + 1 < |blocks| && blocks[index + 1].kind == RowKind && IsTop(here) then
      var rows := RowsFrom(blocks, index + 1);
      -(if rows > 2 then rows - 2 else 0)
    else ItemsFrom(blocks, here, index + 1, parents)
  }

  method ListItems(blocks: seq<Block>, index: nat, parents: map<nat, Option<nat>>) returns (n: int)
    requires index < |blocks| && Upward(parents)
    ensures n == ListLength(blocks, index, parents)
  {
    var here := blocks[index];
    var k := index + 1;
    if k < |blocks| && blocks[k].kind == RowKind && here.parent == None && !here.item {
      var rows := 0;
      while k < |blocks| && blocks[k].kind == RowKind
        invariant index < k <= |blocks| && rows + RowsFrom(blocks, k) == RowsFrom(blocks, index + 1)
      {
        rows, k := rows + 1, k + 1;
      }
      return -(if rows > 2 then rows - 2 else 0);
    }
    n := 0;
    while k < |blocks|
      invariant index < k <= |blocks| &&
        n + ItemsFrom(blocks, here, k, parents) == ItemsFrom(blocks, here, index + 1, parents)
    {
      var b := blocks[k];
      if b.kind != ProseKind { break; }
      if here.item || here.parent != None {
        var inside := Within(b.line, here.line, parents);
        if !inside || (!b.item && b.parent == Some(here.line)) { break; }
        if b.item && b.parent == Some(here.line) { n := n + 1; }
      } else {
        if b.parent == None && !b.item { break; }
        if b.item && b.parent == None { n := n + 1; }
      }
      k := k + 1;
    }
  }

  /** How many of `lo` to `hi` have the property. */
  ghost function Count(p: nat -> bool, lo: nat, hi: nat): nat
    decreases hi - lo
  {
    if lo >= hi then 0 else (if p(lo) then 1 else 0) + Count(p, lo + 1, hi)
  }

  lemma {:induction false} CountNone(p: nat -> bool, lo: nat, hi: nat)
    requires forall k :: lo <= k < hi ==> !p(k)
    ensures Count(p, lo, hi) == 0
    decreases hi - lo
  {
    if lo < hi { CountNone(p, lo + 1, hi); }
  }

  // ----- What the forest keeps

  /** Blocks `i` and `k` after item `j`: where the later is under the item, so is the earlier. */
  ghost predicate Interval(blocks: seq<Block>, parents: map<nat, Option<nat>>, j: nat, i: nat, k: nat)
    requires Upward(parents) && j < |blocks| && i < |blocks| && k < |blocks|
  {
    (j < i <= k && blocks[j].item && blocks[i].kind == ProseKind == blocks[k].kind &&
      IsWithin(blocks[k].line, blocks[j].line, parents)) ==> IsWithin(blocks[i].line, blocks[j].line, parents)
  }

  /** Block `i` is where its parents are looked up, and its parent is an item before it. */
  ghost predicate Linked(blocks: seq<Block>, parents: map<nat, Option<nat>>, i: nat)
    requires i < |blocks|
  {
    && blocks[i].line in parents && parents[blocks[i].line] == blocks[i].parent
    && (blocks[i].kind != ProseKind ==> blocks[i].parent == None && !blocks[i].item)
    && (blocks[i].parent.Some? ==> exists p :: ParentAt(blocks, i, p))
  }

  predicate ParentAt(blocks: seq<Block>, i: nat, p: int)
    requires i < |blocks|
  {
    0 <= p < i && blocks[p].item && blocks[i].parent == Some(blocks[p].line)
  }

  /** Blocks in the order of their lines, parents before their children, and subtrees that are intervals. */
  ghost predicate IsForest(blocks: seq<Block>, parents: map<nat, Option<nat>>) {
    && Upward(parents)
    && (forall a, b :: 0 <= a < b < |blocks| ==> blocks[a].line < blocks[b].line)
    && (forall i :: 0 <= i < |blocks| ==> Linked(blocks, parents, i))
    && (forall j, i, k :: 0 <= j < |blocks| && 0 <= i < |blocks| && 0 <= k < |blocks| ==>
       Interval(blocks, parents, j, i, k))
  }

  ghost predicate Mirrors(evs: seq<Event>, blocks: seq<Block>) {
    |blocks| == |evs| && forall i :: 0 <= i < |evs| ==> MirrorsAt(evs, blocks, i)
  }

  predicate MirrorsAt(evs: seq<Event>, blocks: seq<Block>, i: nat)
    requires i < |evs| == |blocks|
  {
    blocks[i].line == evs[i].line && (blocks[i].item <==> IsItem(evs, i)) &&
      (blocks[i].kind == ProseKind <==> evs[i].Para?)
  }

  lemma MirrorsForest(evs: seq<Event>)
    ensures Mirrors(evs, Forest(evs))
  {
    forall i | 0 <= i < |evs|
      ensures MirrorsAt(evs, Forest(evs), i)
    {
      assert Forest(evs)[i] == BlockOf(evs, i);
    }
  }

  lemma LinesInterval(evs: seq<Event>, parents: map<nat, Option<nat>>, j: nat, i: nat, k: nat)
    requires Ordered(evs) && parents == Parents(evs) && Upward(parents)
    requires j < i < k < |evs| && IsItem(evs, j) && evs[i].Para? && evs[k].Para?
    ensures IsWithin(evs[k].line, evs[j].line, parents) ==> IsWithin(evs[i].line, evs[j].line, parents)
  {
    assert Under(evs, k, j) == IsWithin(evs[k].line, evs[j].line, parents);
    assert Under(evs, i, j) == IsWithin(evs[i].line, evs[j].line, parents);
    SubtreeIsInterval(evs, j, i, k);
  }

  lemma KeepsInterval(evs: seq<Event>, blocks: seq<Block>, parents: map<nat, Option<nat>>, j: nat, i: nat, k: nat)
    requires Upward(parents) && |blocks| == |evs| && j < |evs| && i < |evs| && k < |evs|
    requires MirrorsAt(evs, blocks, j) && MirrorsAt(evs, blocks, i) && MirrorsAt(evs, blocks, k)
    requires j < i < k && IsItem(evs, j) && evs[i].Para? && evs[k].Para? && IsWithin(evs[k].line, evs[j].line, parents)
      ==> IsWithin(evs[i].line, evs[j].line, parents)
    ensures Interval(blocks, parents, j, i, k)
  {
  }

  lemma KeepsLinks(evs: seq<Event>, i: nat)
    requires Ordered(evs) && i < |evs|
    ensures Linked(Forest(evs), Parents(evs), i)
  {
    var blocks, p := Forest(evs), ParentOf(evs, i);
    ParentsOf(evs, i);
    if evs[i].Para? && p.Some? {
      ParentIsNearest(evs, i);
      assert ParentAt(blocks, i, p.value);
    }
  }

  /** The forest built from blocks in order is one. */
  lemma ForestIsForest(evs: seq<Event>)
    requires Ordered(evs)
    ensures IsForest(Forest(evs), Parents(evs))
  {
    var blocks, parents := Forest(evs), Parents(evs);
    ParentsGoUp(evs);
    MirrorsForest(evs);
    forall a | 0 <= a < |blocks|
      ensures blocks[a].line == evs[a].line
    {
      assert MirrorsAt(evs, blocks, a);
    }
    forall i | 0 <= i < |blocks|
      ensures Linked(blocks, parents, i)
    {
      KeepsLinks(evs, i);
    }
    forall j, i, k | 0 <= j < |blocks| && 0 <= i < |blocks| && 0 <= k < |blocks|
      ensures Interval(blocks, parents, j, i, k)
    {
      assert MirrorsAt(evs, blocks, j) && MirrorsAt(evs, blocks, i) && MirrorsAt(evs, blocks, k);
      if j < i < k && IsItem(evs, j) && evs[i].Para? && evs[k].Para? { LinesInterval(evs, parents, j, i, k); }
      KeepsInterval(evs, blocks, parents, j, i, k);
    }
  }

  // ----- What the list's length is

  predicate IsChild(blocks: seq<Block>, j: nat, k: nat)
    requires j < |blocks| && k < |blocks|
  {
    blocks[k].item && blocks[k].parent == Some(blocks[j].line)
  }

  /** Block `m` ends the list that item `j` leads: it is no prose, or the item's own next paragraph. */
  predicate Stops(blocks: seq<Block>, j: nat, m: nat)
    requires j < |blocks| && m < |blocks|
  {
    blocks[m].kind != ProseKind || (!blocks[m].item && blocks[m].parent == Some(blocks[j].line))
  }

  /** Block `k` is an item right under item `j`, and nothing between them ends the list. */
  ghost predicate Listed(blocks: seq<Block>, j: nat, k: nat)
    requires j < |blocks|
  {
    k < |blocks| && IsChild(blocks, j, k) && forall m :: j < m < k ==> !Stops(blocks, j, m)
  }

  /** A child is under its parent, so a block outside the subtree has no child of the item after it. */
  lemma NoChildOutside(blocks: seq<Block>, parents: map<nat, Option<nat>>, j: nat, k: nat, x: nat)
    requires IsForest(blocks, parents) && j < k <= x < |blocks| && blocks[j].item && blocks[k].kind == ProseKind
    requires !IsWithin(blocks[k].line, blocks[j].line, parents)
    ensures !IsChild(blocks, j, x)
  {
    assert Linked(blocks, parents, x) && Interval(blocks, parents, j, k, x);
    if IsChild(blocks, j, x) {
      assert IsWithin(blocks[j].line, blocks[j].line, parents);
    }
  }

  /** What the loop counts under an item is its children up to what ends its list. */
  lemma {:induction false} CountsListed(blocks: seq<Block>, parents: map<nat, Option<nat>>, j: nat, k: nat)
    requires IsForest(blocks, parents) && j < k <= |blocks| && blocks[j].item
    requires forall m :: j < m < k ==> !Stops(blocks, j, m)
    ensures ItemsFrom(blocks, blocks[j], k, parents) == Count((x: nat) => Listed(blocks, j, x), k, |blocks|)
    decreases |blocks| - k
  {
    if k < |blocks| {
      var p := (x: nat) => Listed(blocks, j, x);
      assert Linked(blocks, parents, k);
      if Stops(blocks, j, k) {
        CountNone(p, k, |blocks|);
      } else if !IsWithin(blocks[k].line, blocks[j].line, parents) {
        forall x | k <= x < |blocks|
          ensures !p(x)
        {
          NoChildOutside(blocks, parents, j, k, x);
        }
        CountNone(p, k, |blocks|);
      } else {
        CountsListed(blocks, parents, j, k + 1);
      }
    }
  }

  predicate InRun(b: Block) { b.kind == ProseKind && (b.item || b.parent.Some?) }

  /** Block `k` is a top-level item, and only items and what sits under them lie between it and block `index`. */
  ghost predicate TopListed(blocks: seq<Block>, index: nat, k: nat) {
    k < |blocks| && blocks[k].kind == ProseKind && blocks[k].item && blocks[k].parent == None &&
    forall m :: index < m < k ==> InRun(blocks[m])
  }

  lemma {:induction false} CountsTopListed(blocks: seq<Block>, parents: map<nat, Option<nat>>, index: nat, k: nat)
    requires Upward(parents) && index < k <= |blocks| && blocks[index].parent == None && !blocks[index].item
    requires forall m :: index < m < k ==> InRun(blocks[m])
    ensures ItemsFrom(blocks, blocks[index], k, parents) == Count((x: nat) => TopListed(blocks, index, x), k, |blocks|)
    decreases |blocks| - k
  {
    if k < |blocks| {
      if InRun(blocks[k]) {
        CountsTopListed(blocks, parents, index, k + 1);
      } else {
        CountNone((x: nat) => TopListed(blocks, index, x), k, |blocks|);
      }
    }
  }

  /**
   The length a rule gives the list it leads: in a list item, the items right under it, up to
   its own next paragraph or the end of the prose; in a paragraph that continues an item, none;
   at the top level, the rows of the table that follows but two, or the top-level items of the
   run that follows.
   */
  lemma ListLengthIs(blocks: seq<Block>, parents: map<nat, Option<nat>>, index: nat)
    requires IsForest(blocks, parents) && index < |blocks|
    ensures var n, next := ListLength(blocks, index, parents), index + 1;
      if blocks[index].item then n == Count((x: nat) => Listed(blocks, index, x), next, |blocks|)
      else if blocks[index].parent.Some? then n == 0
      else if next < |blocks| && blocks[next].kind == RowKind then
        n == if RowsFrom(blocks, next) <= 2 then 0 else 2 - RowsFrom(blocks, next)
      else n == Count((x: nat) => TopListed(blocks, index, x), next, |blocks|)
  {
    if blocks[index].item {
      CountsListed(blocks, parents, index, index + 1);
    } else if blocks[index].parent == None {
      CountsTopListed(blocks, parents, index, index + 1);
    } else if index + 1 < |blocks| {
      NothingUnderParagraph(blocks, parents, index);
    }
  }

  lemma {:induction false} CountSome(p: nat -> bool, lo: nat, hi: nat, k: nat)
    requires lo <= k < hi && p(k)
    ensures Count(p, lo, hi) > 0
    decreases hi - lo
  {
    if lo < k { CountSome(p, lo + 1, hi, k); }
  }

  /** The rows of a table right after a block, but two. */
  function RowsCounted(blocks: seq<Block>, index: nat): nat
    requires index < |blocks|
  {
    var rows := RowsFrom(blocks, index + 1);
    if rows > 2 then rows - 2 else 0
  }

  /**
   The length that the description of `list_items` gives for a block that is no list item: a
   table's rows as a negative, else the top-level items right after it.
   */
  ghost function Described(blocks: seq<Block>, index: nat): int
    requires index < |blocks|
  {
    if index + 1 < |blocks| && blocks[index + 1].kind == RowKind then 0 - RowsCounted(blocks, index)
    else Count((x: nat) => TopListed(blocks, index, x), index + 1, |blocks|)
  }

  /**
   A block that is no list item gets the length described exactly when it is at the top level,
   or has neither a table with rows to count nor a top-level item in the run after it.
   */
  lemma ListLengthAsDescribedIff(blocks: seq<Block>, parents: map<nat, Option<nat>>, index: nat)
    requires IsForest(blocks, parents) && index < |blocks| && !blocks[index].item
    ensures ListLength(blocks, index, parents) == Described(blocks, index) <==>
      || blocks[index].parent == None
      || (RowsCounted(blocks, index) == 0 && forall k: nat :: index < k ==> !TopListed(blocks, index, k))
  {
    var p := (x: nat) => TopListed(blocks, index, x);
    ListLengthIs(blocks, parents, index);
    if index + 1 < |blocks| && blocks[index + 1].kind == RowKind {
      forall k: nat | index < k
        ensures !TopListed(blocks, index, k)
      {
        if k > index + 1 { assert !InRun(blocks[index + 1]); }
      }
    } else if k: nat :| index < k && TopListed(blocks, index, k) {
      CountSome(p, index + 1, |blocks|, k);
    } else {
      CountNone(p, index + 1, |blocks|);
    }
  }

  lemma ContinuingBlocks(evs: seq<Event>)
    requires evs == [Para(1, 0, true), Para(2, 2, false), Para(3, 0, true)]
    ensures Forest(evs) == [Block(ProseKind, 1, None, true), Block(ProseKind, 2, Some(1), false),
      Block(ProseKind, 3, None, true)]
  {
    hide StackAfter, BlockOf;
    EmptyAtFirst(evs);
    Placed(evs, 0, 1, [], 0);
    Placed(evs, 1, 2, [0], 1);
    Placed(evs, 2, 3, [0], 0);
  }

  lemma ContinuingDescribed(blocks: seq<Block>)
    requires |blocks| == 3 && blocks[2] == Block(ProseKind, 3, None, true)
    ensures Described(blocks, 1) == 1
  {
    var p := (x: nat) => TopListed(blocks, 1, x);
    assert p(2);
    assert Count(p, 3, 3) == 0;
    assert Count(p, 2, 3) == 1;
  }

  /** An item, a paragraph that goes on it, and another item: the paragraph is given no list. */
  lemma ContinuingLeadsNothing()
    ensures var evs := [Para(1, 0, true), Para(2, 2, false), Para(3, 0, true)];
      && Ordered(evs) && Upward(Parents(evs))
      && ListLength(Forest(evs), 1, Parents(evs)) == 0 && Described(Forest(evs), 1) == 1
  {
    var evs := [Para(1, 0, true), Para(2, 2, false), Para(3, 0, true)];
    assert Ordered(evs);
    ParentsGoUp(evs);
    ForestIsForest(evs);
    ContinuingBlocks(evs);
    hide *;
    ListLengthIs(Forest(evs), Parents(evs), 1);
    ContinuingDescribed(Forest(evs));
  }

  /** Nothing sits under a paragraph. */
  lemma NothingUnderParagraph(blocks: seq<Block>, parents: map<nat, Option<nat>>, index: nat)
    requires IsForest(blocks, parents) && index + 1 < |blocks| && !blocks[index].item
    ensures !IsWithin(blocks[index + 1].line, blocks[index].line, parents)
  {
    var i := index + 1;
    assert Linked(blocks, parents, i);
    if blocks[i].parent.Some? {
      var p :| ParentAt(blocks, i, p);
      assert p < index;
      if IsWithin(blocks[p].line, blocks[index].line, parents) {
        WithinIsEarlier(blocks[p].line, blocks[index].line, parents);
      }
    }
  }
}
