/** The `BTreeSet<String>` operations used, on the sorted listing of the set. */
module SortedSet {
  import opened ByteOrder

  ghost predicate Sorted(s: seq<Path>) { forall i, j :: 0 <= i < j < |s| ==> Less(s[i], s[j]) }

  ghost function Elements(s: seq<Path>): set<Path> { set p | p in s }

  /** The number of elements before `key`, counted from `i` on. */
  function LowerBound(s: seq<Path>, key: Path, i: nat): (r: nat)
    requires i <= |s|
    ensures i <= r <= |s|
    ensures forall k :: i <= k < r ==> Less(s[k], key)
    ensures r < |s| ==> !Less(s[r], key)
    decreases |s| - i
  {
    if i < |s| && Less(s[i], key) then LowerBound(s, key, i + 1) else i
  }

  lemma Splits(s: seq<Path>, key: Path)
    requires Sorted(s)
    ensures forall k :: 0 <= k < |s| ==> (k < LowerBound(s, key, 0) <==> Less(s[k], key))
  {
    var r := LowerBound(s, key, 0);
    forall k | r <= k < |s|
      ensures !Less(s[k], key)
    {
      LessIsTotal(s[r], s[k], key);
    }
  }

  function Inserted(s: seq<Path>, key: Path): seq<Path> {
    var r := LowerBound(s, key, 0);
    if r < |s| && s[r] == key then s else s[..r] + [key] + s[r..]
  }

  function Removed(s: seq<Path>, key: Path): seq<Path> {
    var r := LowerBound(s, key, 0);
    if r < |s| && s[r] == key then s[..r] + s[r + 1..] else s
  }

  /** `range(lo..hi)`, which demands bounds that are not inverted. */
  function Range(s: seq<Path>, lo: Path, hi: Path): seq<Path>
    requires Sorted(s) && Less(lo, hi)
  {
    Splits(s, lo);
    Splits(s, hi);
    var i, j := LowerBound(s, lo, 0), LowerBound(s, hi, 0);
    assert i <= j by {
      if j < i {
        LessIsTotal(s[j], lo, hi);
      }
    }
    s[i..j]
  }

  lemma InsertedElements(s: seq<Path>, key: Path)
    requires Sorted(s)
    ensures Sorted(Inserted(s, key)) && Elements(Inserted(s, key)) == Elements(s) + {key}
  {
    var r := LowerBound(s, key, 0);
    Splits(s, key);
    if !(r < |s| && s[r] == key) {
      forall k | r <= k < |s|
        ensures Less(key, s[k])
      {
        LessIsTotal(key, s[r], s[k]);
      }
      var t := Inserted(s, key);
      assert Sorted(t);
      assert t[r] == key;
      assert forall p :: p in t <==> p in s[..r] || p == key || p in s[r..];
      assert s == s[..r] + s[r..];
    }
  }

  lemma RemovedElements(s: seq<Path>, key: Path)
    requires Sorted(s)
    ensures Sorted(Removed(s, key)) && Elements(Removed(s, key)) == Elements(s) - {key}
  {
    var r := LowerBound(s, key, 0);
    Splits(s, key);
    if r < |s| && s[r] == key {
      var t := Removed(s, key);
      assert s == s[..r] + [key] + s[r + 1..];
      assert forall p :: p in s <==> p in s[..r] || p == key || p in s[r + 1..];
      assert key !in t by {
        LessIsTotal(key, key, key);
      }
    } else {
      assert key !in s by {
        forall k | 0 <= k < |s|
          ensures s[k] != key
        {
          if r <= k { LessIsTotal(key, s[r], s[k]); } else { LessIsTotal(key, s[k], key); }
        }
      }
    }
  }

  lemma RangeElements(s: seq<Path>, lo: Path, hi: Path)
    requires Sorted(s) && Less(lo, hi)
    ensures Elements(Range(s, lo, hi)) == set p | p in s && !Less(p, lo) && Less(p, hi)
  {
    Splits(s, lo);
    Splits(s, hi);
    var t := Range(s, lo, hi);
    var i := LowerBound(s, lo, 0);
    forall p | p in s && !Less(p, lo) && Less(p, hi)
      ensures p in t
    {
      var k :| 0 <= k < |s| && s[k] == p;
      assert t[k - i] == p;
    }
  }
}
