/**
 The anchors of scripts/gen-rules-index.py: `slug` numbers the repeats of a heading. A heading's
 bare slug (lower case, punctuation dropped, blanks as dashes) is taken as given; the allocator
 hands it out once bare, and then as `<slug>-1`, `<slug>-2` and so on.
 */
module Anchors {

  const DASH := '-'

  // ----- Decimal numbers

  function Digit(d: nat): char
    requires d < 10
  {
    '0' + d as char
  }

  function Decimal(n: nat): (r: string)
    ensures r != "" && forall k :: 0 <= k < |r| ==> '0' <= r[k] <= '9'
  {
    if n < 10 then [Digit(n)] else Decimal(n / 10) + [Digit(n % 10)]
  }

  function Value(s: string): nat
    requires forall k :: 0 <= k < |s| ==> '0' <= s[k] <= '9'
  {
    if s == "" then 0 else Value(s[..|s| - 1]) * 10 + (s[|s| - 1] - '0') as nat
  }

  lemma {:induction false} DecimalReadsBack(n: nat)
    ensures Value(Decimal(n)) == n
  {
    var s := Decimal(n);
    if n < 10 {
      assert s[..0] == "";
    } else {
      DecimalReadsBack(n / 10);
      assert s[..|s| - 1] == Decimal(n / 10);
    }
  }

  /** Only 0 starts with a zero. */
  lemma {:induction false} NoLeadingZero(n: nat)
    ensures Decimal(n)[0] == '0' <==> n == 0
  {
    if n >= 10 { NoLeadingZero(n / 10); }
  }

  // ----- What an anchor is

  /** The digits spell the number, with no zero in front. */
  predicate IsNumeral(digits: string, n: nat) {
    && digits != "" && (forall k :: 0 <= k < |digits| ==> '0' <= digits[k] <= '9')
    && Value(digits) == n && (digits[0] == '0' ==> |digits| == 1)
  }

  lemma NumberParts(front: nat, digit: nat, n: nat)
    requires n == front * 10 + digit && digit < 10
    ensures n / 10 == front && n % 10 == digit && (n < 10 <==> front == 0)
  {
  }

  lemma DigitsPart(digits: string, n: nat)
    requires IsNumeral(digits, n)
    ensures var front, last := digits[..|digits| - 1], digits[|digits| - 1];
      digits == front + [last] && last == Digit(n % 10) && (front == "" ==> n < 10) &&
      (front != "" ==> IsNumeral(front, n / 10) && front[0] != '0')
  {
    var front, last := digits[..|digits| - 1], digits[|digits| - 1];
    NumberParts(Value(front), (last - '0') as nat, n);
  }

  lemma {:induction false} NumeralIsDecimal(digits: string, n: nat)
    requires IsNumeral(digits, n)
    ensures digits == Decimal(n)
    decreases n
  {
    hide IsNumeral;
    DigitsPart(digits, n);
    var front := digits[..|digits| - 1];
    if front != "" {
      if n < 10 {
        NumeralOfNought(front, n / 10);
      } else {
        NumeralIsDecimal(front, n / 10);
      }
    }
  }

  lemma {:induction false} NumeralOfNought(digits: string, n: nat)
    requires IsNumeral(digits, n) && n == 0
    ensures digits[0] == '0'
    decreases |digits|
  {
    DigitsPart(digits, n);
    var front := digits[..|digits| - 1];
    if front != "" { NumeralOfNought(front, n / 10); }
  }

  lemma DecimalIsNumeral(n: nat)
    ensures IsNumeral(Decimal(n), n)
  {
    DecimalReadsBack(n);
    NoLeadingZero(n);
  }

  /** The headings among the first `n` that have this bare slug. */
  function Having(bares: seq<string>, n: nat, bare: string): set<nat>
    requires n <= |bares|
  {
    set k: nat | k < n && bares[k] == bare
  }

  /** A bare slug, a dash and a number. */
  predicate IsNumbered(anchor: string, bare: string, n: nat) {
    |bare| < |anchor| && anchor[..|bare|] == bare && anchor[|bare|] == '-' && IsNumeral(anchor[|bare| + 1..], n)
  }

  /** Heading `i` has its slug bare when none before it has that slug, and else with the number of those. */
  predicate IsAnchor(bares: seq<string>, i: nat, anchor: string)
    requires i < |bares|
  {
    var repeats := |Having(bares, i, bares[i])|;
    if repeats == 0 then anchor == bares[i] else IsNumbered(anchor, bares[i], repeats)
  }

  // ----- The allocator

  /** A repeat's anchor. */
  function Numbered(bare: string, n: nat): string { bare + [DASH] + Decimal(n) }

  function AnchorFor(bare: string, n: nat): string { if n == 0 then bare else Numbered(bare, n) }

  /** How many of the first `n` headings have this bare slug. */
  function Count(bares: seq<string>, n: nat, bare: string): nat
    requires n <= |bares|
  {
    if n == 0 then 0 else Count(bares, n - 1, bare) + (if bares[n - 1] == bare then 1 else 0)
  }

  /** The anchors of a text's headings, through one allocator. */
  function AnchorsOf(bares: seq<string>): (r: seq<string>)
    ensures |r| == |bares|
  {
    seq(|bares|, i requires 0 <= i < |bares| => AnchorFor(bares[i], Count(bares, i, bares[i])))
  }

  /** The `seen` dictionary that `slug` reads and writes, and the headings it has been given. */
  class Allocator {
    var seen: map<string, nat>
    ghost var given: seq<string>

    ghost predicate Valid()
      reads this
    {
      forall bare :: Count(given, |given|, bare) == if bare in seen then seen[bare] else 0
    }

    constructor ()
      ensures Valid() && given == []
    {
      seen, given := map[], [];
    }

    method Slug(bare: string) returns (anchor: string)
      requires Valid()
      modifies this
      ensures Valid() && given == old(given) + [bare]
      ensures anchor == AnchorsOf(given)[|given| - 1]
      ensures AnchorsOf(given)[..|given| - 1] == AnchorsOf(old(given))
    {
      var n := if bare in seen then seen[bare] else 0;
      seen := seen[bare := n + 1];
      anchor := if n == 0 then bare else bare + "-" + Decimal(n);
      CountsOfMore(given, bare);
      given := given + [bare];
    }
  }

  lemma {:induction false} CountOfPrefix(bares: seq<string>, more: seq<string>, n: nat, bare: string)
    requires n <= |bares|
    ensures Count(bares + more, n, bare) == Count(bares, n, bare)
  {
    if n > 0 { CountOfPrefix(bares, more, n - 1, bare); }
  }

  lemma CountsOfMore(bares: seq<string>, next: string)
    ensures forall n: nat, bare :: n <= |bares| ==> Count(bares + [next], n, bare) == Count(bares, n, bare)
  {
    forall n: nat, bare | n <= |bares| { CountOfPrefix(bares, [next], n, bare); }
  }

  lemma NumberedIs(anchor: string, bare: string, n: nat)
    ensures IsNumbered(anchor, bare, n) <==> anchor == Numbered(bare, n)
  {
    var numbered := Numbered(bare, n);
    assert numbered[..|bare|] == bare && numbered[|bare| + 1..] == Decimal(n);
    DecimalIsNumeral(n);
    if IsNumbered(anchor, bare, n) {
      NumeralIsDecimal(anchor[|bare| + 1..], n);
      assert anchor == anchor[..|bare|] + [anchor[|bare|]] + anchor[|bare| + 1..];
    }
  }

  lemma {:induction false} CountIsSize(bares: seq<string>, n: nat, bare: string)
    requires n <= |bares|
    ensures |Having(bares, n, bare)| == Count(bares, n, bare)
  {
    if n > 0 {
      CountIsSize(bares, n - 1, bare);
      var before := Having(bares, n - 1, bare);
      assert Having(bares, n, bare) == if bares[n - 1] == bare then before + {n - 1} else before;
    }
  }

  /** The anchor a heading gets is the one described. */
  lemma AnchorIs(bares: seq<string>, i: nat, anchor: string)
    requires i < |bares|
    ensures anchor == AnchorsOf(bares)[i] <==> IsAnchor(bares, i, anchor)
  {
    CountIsSize(bares, i, bares[i]);
    NumberedIs(anchor, bares[i], Count(bares, i, bares[i]));
  }

  // ----- When the anchors are distinct

  ghost predicate Distinct(anchors: seq<string>) {
    forall i, k :: 0 <= i < k < |anchors| ==> anchors[i] != anchors[k]
  }

  /** A heading's own slug is another one's with a number that a repeat of it is given. */
  ghost predicate Clash(bares: seq<string>, i: nat, j: nat, c: nat) {
    i < |bares| && j < |bares| && 1 <= c < |Having(bares, |bares|, bares[j])| && IsNumbered(bares[i], bares[j], c)
  }

  lemma {:induction false} CountGrows(bares: seq<string>, i: nat, k: nat)
    requires i < k <= |bares|
    ensures Count(bares, i, bares[i]) < Count(bares, k, bares[i])
  {
    if i < k - 1 { CountGrows(bares, i, k - 1); }
  }

  lemma LastDash(bare: string, n: nat)
    ensures var s := Numbered(bare, n);
      s[|bare|] == DASH && s[..|bare|] == bare && s[|bare| + 1..] == Decimal(n) &&
      forall k :: |bare| < k < |s| ==> s[k] != DASH
  {
    var s, digits := Numbered(bare, n), Decimal(n);
    assert forall k :: |bare| < k < |s| ==> s[k] == digits[k - |bare| - 1];
  }

  /** A number has no dash, so the last dash of a numbered anchor parts the slug from its number. */
  lemma NumberedIsInjective(a: string, m: nat, b: string, n: nat)
    requires Numbered(a, m) == Numbered(b, n)
    ensures a == b && m == n
  {
    LastDash(a, m);
    LastDash(b, n);
    DecimalReadsBack(m);
    DecimalReadsBack(n);
  }

  lemma EqualAnchorsClash(bares: seq<string>, i: nat, k: nat)
    requires i < k < |bares| && AnchorsOf(bares)[i] == AnchorsOf(bares)[k]
    ensures exists x, y, c :: Clash(bares, x, y, c)
  {
    var m, n := Count(bares, i, bares[i]), Count(bares, k, bares[k]);
    if bares[i] == bares[k] { CountGrows(bares, i, k); }
    CountGrows(bares, i, |bares|);
    CountGrows(bares, k, |bares|);
    CountIsSize(bares, |bares|, bares[i]);
    CountIsSize(bares, |bares|, bares[k]);
    NumberedIs(bares[k], bares[i], m);
    NumberedIs(bares[i], bares[k], n);
    if m > 0 && n > 0 {
      NumberedIsInjective(bares[i], m, bares[k], n);
    } else if m > 0 {
      assert Clash(bares, k, i, m);
    } else if n > 0 {
      assert Clash(bares, i, k, n);
    }
  }

  /** The heading that is given number `c`. */
  lemma {:induction false} Occurrence(bares: seq<string>, n: nat, bare: string, c: nat) returns (p: nat)
    requires n <= |bares| && c < Count(bares, n, bare)
    ensures p < n && bares[p] == bare && Count(bares, p, bare) == c
  {
    p := n - 1;
    if bares[p] != bare || Count(bares, p, bare) != c {
      p := Occurrence(bares, n - 1, bare, c);
    }
  }

  lemma ClashGivesEqualAnchors(bares: seq<string>, i: nat, j: nat, c: nat)
    requires Clash(bares, i, j, c)
    ensures !Distinct(AnchorsOf(bares))
  {
    CountGrows(bares, i, |bares|);
    CountIsSize(bares, |bares|, bares[j]);
    NumberedIs(bares[i], bares[j], c);
    var p := Occurrence(bares, |bares|, bares[j], c);
    var q := Occurrence(bares, |bares|, bares[i], 0);
    assert |bares[i]| > |bares[j]|;
    assert AnchorsOf(bares)[p] == AnchorsOf(bares)[q] && p != q;
  }

  /**
   Anchors are pairwise different exactly when no heading's slug is that of another heading with
   the number of one of its repeats.
   */
  lemma AnchorsDistinctIff(bares: seq<string>)
    ensures Distinct(AnchorsOf(bares)) <==> !exists i, j, c :: Clash(bares, i, j, c)
  {
    if i, j, c :| Clash(bares, i, j, c) {
      ClashGivesEqualAnchors(bares, i, j, c);
    }
    forall i, k | 0 <= i < k < |bares| && AnchorsOf(bares)[i] == AnchorsOf(bares)[k]
      ensures exists x, y, c :: Clash(bares, x, y, c)
    {
      EqualAnchorsClash(bares, i, k);
    }
  }

  /** Three headings whose anchors are not distinct: "a", "a" and "a-1". */
  lemma ThirdHeadingClashes()
    ensures AnchorsOf(["a", "a", "a-1"])[1] == AnchorsOf(["a", "a", "a-1"])[2]
  {
    var bares := ["a", "a", "a-1"];
    assert Count(bares, 1, "a") == 1;
    assert Count(bares, 2, "a-1") == 0;
    assert Decimal(1) == "1";
  }
}
