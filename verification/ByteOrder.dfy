/** Paths as byte sequences, in the byte order that a `BTreeSet<String>` keeps them in. */
module ByteOrder {

  type Byte = b: int | 0 <= b < 256
  type Path = seq<Byte>

  const SLASH: Byte := 47
  const ZERO: Byte := 48

  /** Lexicographic order of the bytes from `i` on. */
  predicate LessFrom(a: Path, b: Path, i: nat)
    decreases |b| - i
  {
    if i >= |b| then false
    else if i >= |a| then true
    else if a[i] != b[i] then a[i] < b[i]
    else LessFrom(a, b, i + 1)
  }

  predicate Less(a: Path, b: Path) { LessFrom(a, b, 0) }

  lemma {:induction false} TransitiveFrom(a: Path, b: Path, c: Path, i: nat)
    requires LessFrom(a, b, i) && LessFrom(b, c, i)
    ensures LessFrom(a, c, i)
    decreases |b| - i
  {
    if i < |a| && a[i] == b[i] == c[i] {
      TransitiveFrom(a, b, c, i + 1);
    }
  }

  lemma {:induction false} TotalFrom(a: Path, b: Path, i: nat)
    requires i <= |a| && i <= |b| && a[..i] == b[..i]
    ensures !(LessFrom(a, b, i) && LessFrom(b, a, i))
    ensures LessFrom(a, b, i) || LessFrom(b, a, i) <==> a != b
    decreases |b| - i
  {
    if i < |a| && i < |b| {
      if a[i] == b[i] {
        assert a[..i + 1] == a[..i] + [a[i]] && b[..i + 1] == b[..i] + [b[i]];
        TotalFrom(a, b, i + 1);
      } else {
        assert a != b;
      }
    } else if i == |a| == |b| {
      assert a == a[..i] && b == b[..i];
    }
  }

  /** Paths `a` and `b` are alike before `k`, where `a` ends or has the lesser byte. */
  ghost predicate LessAt(a: Path, b: Path, k: nat) {
    && k <= |a| && k < |b| && (forall j :: 0 <= j < k ==> a[j] == b[j])
    && (k == |a| || a[k] < b[k])
  }

  lemma {:induction false} LessFromIff(a: Path, b: Path, i: nat)
    requires i <= |a| && i <= |b| && forall j :: 0 <= j < i ==> a[j] == b[j]
    ensures LessFrom(a, b, i) <==> exists k :: i <= k && LessAt(a, b, k)
    decreases |b| - i
  {
    if i < |a| && i < |b| && a[i] == b[i] {
      LessFromIff(a, b, i + 1);
    } else if LessFrom(a, b, i) {
      assert LessAt(a, b, i);
    }
  }

  /** Lexicographic: a path is before those that go on from it, and else the first byte that differs decides. */
  lemma LessIsLexicographic(a: Path, b: Path)
    ensures Less(a, b) <==> exists k :: LessAt(a, b, k)
  {
    LessFromIff(a, b, 0);
  }

  /** The order is strict and total, so a sorted set has one listing. */
  lemma LessIsTotal(a: Path, b: Path, c: Path)
    ensures !Less(a, a)
    ensures Less(a, b) || Less(b, a) <==> a != b
    ensures Less(a, b) && Less(b, c) ==> Less(a, c)
  {
    TotalFrom(a, a, 0);
    TotalFrom(a, b, 0);
    if Less(a, b) && Less(b, c) {
      TransitiveFrom(a, b, c, 0);
    }
  }

  /** `q` is a descendant of `p`: it begins with `p/`. */
  predicate Under(q: Path, p: Path) { p + [SLASH] <= q }

  lemma {:induction false} RangeFrom(p: Path, q: Path, i: nat)
    requires i <= |p| && i <= |q|
    ensures !LessFrom(q, p + [SLASH], i) && LessFrom(q, p + [ZERO], i)
      <==> |p| < |q| && q[|p|] == SLASH && forall j :: i <= j < |p| ==> q[j] == p[j]
    decreases |p| - i
  {
    if i < |p| && i < |q| && q[i] == p[i] {
      RangeFrom(p, q, i + 1);
    }
  }

  /**
   The range from `p/` to `p0` is never inverted, and it holds exactly the descendants of `p`.
   */
  lemma RangeIsDescendants(p: Path, q: Path)
    ensures Less(p + [SLASH], p + [ZERO])
    ensures !Less(q, p + [SLASH]) && Less(q, p + [ZERO]) <==> Under(q, p)
  {
    RangeFrom(p, p + [SLASH], 0);
    assert !Less(p + [SLASH], p + [SLASH]) by { LessIsTotal(p + [SLASH], [], []); }
    RangeFrom(p, q, 0);
    if |p| < |q| && q[|p|] == SLASH && forall j :: 0 <= j < |p| ==> q[j] == p[j] {
      assert q[..|p| + 1] == p + [SLASH];
    }
    if Under(q, p) {
      assert forall j :: 0 <= j <= |p| ==> q[j] == (p + [SLASH])[j];
    }
  }
}
