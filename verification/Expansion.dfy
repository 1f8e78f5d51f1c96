/**
 The open nodes of a tree, of zengui/src/expansion.rs: a sorted set of paths in which closing
 a node deletes one contiguous range, from `path/` to `path0`.
 */
module ExpansionSet {
  import opened ByteOrder
  import opened SortedSet

  // ----- What an operation means for the set of open nodes

  function Toggled(nodes: set<Path>, path: Path): set<Path> {
    if path in nodes then set q | q in nodes && q != path && !Under(q, path) else nodes + {path}
  }

  class Expansion {
    var keys: seq<Path>

    ghost predicate Valid()
      reads this
    {
      Sorted(keys)
    }

    ghost function Nodes(): set<Path>
      reads this
    {
      Elements(keys)
    }

    constructor ()
      ensures Valid() && Nodes() == {}
    {
      keys := [];
    }

    method Open(path: Path)
      requires Valid()
      modifies this
      ensures Valid() && Nodes() == old(Nodes()) + {path}
    {
      InsertedElements(keys, path);
      keys := Inserted(keys, path);
    }

    method Toggle(path: Path)
      requires Valid()
      modifies this
      ensures Valid() && Nodes() == Toggled(old(Nodes()), path)
    {
      if path in keys {
        RemovedElements(keys, path);
        keys := Removed(keys, path);
        CloseDescendants(path);
      } else {
        InsertedElements(keys, path);
        keys := Inserted(keys, path);
      }
    }

    method Clear()
      modifies this
      ensures Valid() && Nodes() == {}
    {
      keys := [];
    }

    method CloseDescendants(path: Path)
      requires Valid()
      modifies this
      ensures Valid() && Nodes() == set q | q in old(Nodes()) && !Under(q, path)
    {
      RangeIsDescendants(path, path);
      var doomed := Range(keys, path + [SLASH], path + [ZERO]);
      RangeElements(keys, path + [SLASH], path + [ZERO]);
      for k := 0 to |doomed|
        invariant Valid() && Nodes() == old(Nodes()) - Elements(doomed[..k])
      {
        RemovedElements(keys, doomed[k]);
        keys := Removed(keys, doomed[k]);
        assert doomed[..k + 1] == doomed[..k] + [doomed[k]];
      }
      assert doomed[..|doomed|] == doomed;
      forall q
        ensures q in Elements(doomed) <==> q in old(Nodes()) && Under(q, path)
      {
        RangeIsDescendants(path, q);
      }
    }
  }

  // ----- Runs

  datatype Op = OpenNode(path: Path) | ToggleNode(path: Path) | ClearAll

  function Applied(nodes: set<Path>, op: Op): set<Path> {
    match op
    case OpenNode(p) => nodes + {p}
    case ToggleNode(p) => Toggled(nodes, p)
    case ClearAll => {}
  }

  /** The open nodes after the first `n` operations. */
  function After(ops: seq<Op>, n: nat): set<Path>
    requires n <= |ops|
  {
    if n == 0 then {} else Applied(After(ops, n - 1), ops[n - 1])
  }

  /** A run of operations on a new object. */
  method RunAll(ops: seq<Op>) returns (e: Expansion)
    ensures fresh(e) && e.Valid() && e.Nodes() == After(ops, |ops|)
  {
    e := new Expansion();
    for n := 0 to |ops|
      invariant fresh(e) && e.Valid() && e.Nodes() == After(ops, n)
    {
      match ops[n] {
        case OpenNode(p) => e.Open(p);
        case ToggleNode(p) => e.Toggle(p);
        case ClearAll => e.Clear();
      }
    }
  }

  /** Operation `i` opens `q`. */
  predicate Opens(ops: seq<Op>, i: nat, q: Path)
    requires i < |ops|
  {
    ops[i] == OpenNode(q) || (ops[i] == ToggleNode(q) && q !in After(ops, i))
  }

  /** Operation `i` closes `q`: it clears the set, or toggles `q` or an open node above it. */
  predicate Closes(ops: seq<Op>, i: nat, q: Path)
    requires i < |ops|
  {
    ops[i] == ClearAll ||
    (ops[i].ToggleNode? && ops[i].path in After(ops, i) && (ops[i].path == q || Under(q, ops[i].path)))
  }

  predicate OpenedSince(ops: seq<Op>, i: nat, n: nat, q: Path)
    requires n <= |ops|
  {
    i < n && Opens(ops, i, q) && forall j :: i < j < n ==> !Closes(ops, j, q)
  }

  /**
   After any run, the open nodes are those opened by an operation that none after it undid: a
   node that was open under a closed one does not come back with it.
   */
  lemma {:induction false} OpenIffOpenedSince(ops: seq<Op>, n: nat, q: Path)
    requires n <= |ops|
    ensures q in After(ops, n) <==> exists i :: OpenedSince(ops, i, n, q)
    decreases n
  {
    if n > 0 {
      OpenIffOpenedSince(ops, n - 1, q);
      assert q in After(ops, n) <==> Opens(ops, n - 1, q) || (q in After(ops, n - 1) && !Closes(ops, n - 1, q));
      if Opens(ops, n - 1, q) {
        assert OpenedSince(ops, n - 1, n, q);
      } else if q in After(ops, n) {
        var i :| OpenedSince(ops, i, n - 1, q);
        assert OpenedSince(ops, i, n, q);
      } else {
        assert forall i :: OpenedSince(ops, i, n, q) ==> OpenedSince(ops, i, n - 1, q) && !Closes(ops, n - 1, q);
      }
    }
  }

  /** Closing and reopening a node leaves everything outside its subtree, and nothing below it. */
  lemma ReopeningRestoresNothing(nodes: set<Path>, p: Path, q: Path)
    requires p in nodes
    ensures q in Toggled(Toggled(nodes, p), p) <==> q in nodes && !Under(q, p)
  {
    assert !Under(p, p);
  }
}
