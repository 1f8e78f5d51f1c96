/**
 The history tags of scripts/check-spec-prose.py: each marker of a text is given to the
 innermost parenthesis that holds it, by one pass with a stack of open parentheses.
 The markers themselves are found by regular expressions and are taken as given.
 */
module Tags {
  import opened Wrappers

  datatype Tag = Tag(off: nat, text: string)

  /** The key a tag is filed under while the markers are read. */
  datatype Key = Marker(off: nat) | Paren(off: nat)

  // ----- Brackets, without the stack

  /** Opening minus closing parentheses among the first `k` characters. */
  function Depth(text: string, k: nat): int
    requires k <= |text|
  {
    if k == 0 then 0
    else Depth(text, k - 1) + (if text[k - 1] == '(' then 1 else if text[k - 1] == ')' then -1 else 0)
  }

  ghost predicate Deeper(text: string, g: nat, j: nat)
    requires g <= |text| && j <= |text|
  {
    Depth(text, j) > Depth(text, g)
  }

  /** The parenthesis at `g` is open once `k` characters have been read. */
  ghost predicate OpenAt(text: string, g: int, k: nat) {
    0 <= g < k <= |text| && text[g] == '(' && forall j :: g < j <= k ==> Deeper(text, g, j)
  }

  /** The brackets at `g` and `j` match: what lies between them is balanced. */
  ghost predicate Matches(text: string, g: nat, j: int) {
    g < j < |text| && OpenAt(text, g, j) && Depth(text, j + 1) == Depth(text, g)
  }

  /** The bracket at `g` spans the text up to `r`: its match, or the text's last character when it has none. */
  ghost predicate Spans(text: string, g: nat, r: nat) {
    Matches(text, g, r) || (r == |text| - 1 && forall j :: !Matches(text, g, j))
  }

  /** `o` is the innermost parenthesis open once `k` characters have been read. */
  ghost predicate Innermost(text: string, k: nat, o: Option<nat>) {
    match o
    case None => forall g :: !OpenAt(text, g, k)
    case Some(t) => OpenAt(text, t, k) && forall g :: OpenAt(text, g, k) ==> g <= t
  }

  lemma DeeperWhileOpen(text: string, g: nat, k: nat, j: nat)
    requires OpenAt(text, g, k) && g < j <= k
    ensures Depth(text, j) > Depth(text, g)
  {
    assert Deeper(text, g, j);
  }

  lemma OneMoreRead(text: string, g: int, i: nat)
    requires i < |text| && g < i
    ensures OpenAt(text, g, i + 1) <==> OpenAt(text, g, i) && Depth(text, i + 1) > Depth(text, g)
  {
    if OpenAt(text, g, i + 1) {
      DeeperWhileOpen(text, g, i + 1, i + 1);
    }
  }

  lemma OneMatch(text: string, g: nat, j: int, k: int)
    requires Matches(text, g, j) && Matches(text, g, k)
    ensures j == k
  {
    assert !Deeper(text, g, j + 1) && !Deeper(text, g, k + 1);
  }

  // ----- What the pass keeps after `i` characters

  function StackStep(text: string, i: nat, stack: seq<nat>): seq<nat>
    requires i < |text|
  {
    if text[i] == '(' then stack + [i]
    else if text[i] == ')' && stack != [] then stack[..|stack| - 1]
    else stack
  }

  function StackAfter(text: string, i: nat): seq<nat>
    requires i <= |text|
  {
    if i == 0 then [] else StackStep(text, i - 1, StackAfter(text, i - 1))
  }

  function PairsAfter(text: string, i: nat): map<nat, nat>
    requires i <= |text|
  {
    if i == 0 then map[]
    else
      var stack, pairs := StackAfter(text, i - 1), PairsAfter(text, i - 1);
      if text[i - 1] == ')' && stack != [] then pairs[stack[|stack| - 1] := i - 1] else pairs
  }

  function LastOf(stack: seq<nat>): Option<nat> {
    if stack == [] then None else Some(stack[|stack| - 1])
  }

  /** `owner`, once `i` characters have been read. */
  function OwnersAfter(text: string, i: nat): (r: seq<Option<nat>>)
    requires i <= |text|
    ensures |r| == i
  {
    if i == 0 then [] else OwnersAfter(text, i - 1) + [LastOf(StackAfter(text, i))]
  }

  method ReadBrackets(text: string) returns (owner: seq<Option<nat>>, pairs: map<nat, nat>)
    ensures owner == OwnersAfter(text, |text|) && pairs == PairsAfter(text, |text|)
  {
    var stack: seq<nat> := [];
    owner, pairs := [], map[];
    for i := 0 to |text|
      invariant stack == StackAfter(text, i) && pairs == PairsAfter(text, i) && owner == OwnersAfter(text, i)
    {
      if text[i] == '(' {
        stack := stack + [i];
      } else if text[i] == ')' && stack != [] {
        pairs := pairs[stack[|stack| - 1] := i];
        stack := stack[..|stack| - 1];
      }
      owner := owner + [LastOf(stack)];
    }
  }

  // ----- The stack holds the open brackets

  ghost predicate Has(stack: seq<nat>, g: int) { exists a :: 0 <= a < |stack| && stack[a] == g }

  /** Bracket `a` of the stack is open, and each one is deeper than the one below. */
  ghost predicate Entry(text: string, i: nat, stack: seq<nat>, a: nat)
    requires i <= |text| && a < |stack|
  {
    OpenAt(text, stack[a], i) && Depth(text, i) - Depth(text, stack[a]) == |stack| - a
  }

  /** The stack holds the parentheses open at `i`, innermost last. */
  ghost predicate IsStack(text: string, i: nat, stack: seq<nat>)
    requires i <= |text|
  {
    && (forall a, b :: 0 <= a < b < |stack| ==> stack[a] < stack[b])
    && (forall a :: 0 <= a < |stack| ==> Entry(text, i, stack, a))
    && (forall g :: OpenAt(text, g, i) ==> Has(stack, g))
  }

  /** Only the innermost bracket is closed by a closing one. */
  lemma StillOpen(text: string, i: nat, stack: seq<nat>, a: nat)
    requires i < |text| && IsStack(text, i, stack) && a < |stack|
    requires text[i] == ')' ==> a < |stack| - 1
    ensures OpenAt(text, stack[a], i + 1)
  {
    assert Entry(text, i, stack, a);
    OneMoreRead(text, stack[a], i);
  }

  lemma Push(text: string, i: nat, stack: seq<nat>)
    requires i < |text| && text[i] == '(' && IsStack(text, i, stack)
    ensures IsStack(text, i + 1, stack + [i])
  {
    var next, k := stack + [i], i + 1;
    forall a | 0 <= a < |next|
      ensures Entry(text, k, next, a)
    {
      if a < |stack| {
        assert Entry(text, i, stack, a);
        StillOpen(text, i, stack, a);
      }
    }
    forall g | OpenAt(text, g, i + 1)
      ensures Has(next, g)
    {
      if g < i {
        OneMoreRead(text, g, i);
        var a :| 0 <= a < |stack| && stack[a] == g;
        assert next[a] == g;
      } else {
        assert next[|stack|] == g;
      }
    }
    forall a | 0 <= a < |stack|
      ensures stack[a] < i
    {
      assert Entry(text, i, stack, a);
    }
  }

  lemma Skip(text: string, i: nat, stack: seq<nat>)
    requires i < |text| && IsStack(text, i, stack)
    requires text[i] != '(' && (text[i] == ')' ==> stack == [])
    ensures IsStack(text, i + 1, stack)
  {
    var k := i + 1;
    forall a | 0 <= a < |stack|
      ensures Entry(text, k, stack, a)
    {
      assert Entry(text, i, stack, a);
      StillOpen(text, i, stack, a);
    }
    forall g | OpenAt(text, g, i + 1)
      ensures Has(stack, g)
    {
      OneMoreRead(text, g, i);
    }
  }

  lemma Pop(text: string, i: nat, stack: seq<nat>)
    requires i < |text| && text[i] == ')' && stack != [] && IsStack(text, i, stack)
    ensures IsStack(text, i + 1, stack[..|stack| - 1])
    ensures Matches(text, stack[|stack| - 1], i)
  {
    var n, k := |stack| - 1, i + 1;
    var next := stack[..n];
    assert Entry(text, i, stack, n);
    forall a | 0 <= a < n
      ensures Entry(text, k, next, a)
    {
      assert Entry(text, i, stack, a);
      StillOpen(text, i, stack, a);
    }
    forall g | OpenAt(text, g, i + 1)
      ensures Has(next, g)
    {
      OneMoreRead(text, g, i);
      var a :| 0 <= a < |stack| && stack[a] == g;
      assert next[a] == g;
    }
  }

  lemma StackStepHolds(text: string, i: nat, stack: seq<nat>)
    requires i < |text| && IsStack(text, i, stack)
    ensures IsStack(text, i + 1, StackStep(text, i, stack))
  {
    if text[i] == '(' {
      Push(text, i, stack);
    } else if text[i] == ')' && stack != [] {
      Pop(text, i, stack);
    } else {
      Skip(text, i, stack);
    }
  }

  lemma {:induction false} StackHoldsOpen(text: string, i: nat)
    requires i <= |text|
    ensures IsStack(text, i, StackAfter(text, i))
  {
    if i > 0 {
      StackHoldsOpen(text, i - 1);
      StackStepHolds(text, i - 1, StackAfter(text, i - 1));
    }
  }

  /** The pairs recorded once `i` characters have been read; a bracket without one is still open. */
  ghost predicate ArePairs(text: string, i: nat, pairs: map<nat, nat>)
    requires i <= |text|
  {
    && (forall g :: g in pairs ==> pairs[g] < i && Matches(text, g, pairs[g]))
    && (forall g :: 0 <= g < i && text[g] == '(' && g !in pairs ==> OpenAt(text, g, i))
  }

  lemma {:induction false} PairsMatch(text: string, i: nat)
    requires i <= |text|
    ensures ArePairs(text, i, PairsAfter(text, i))
  {
    if i > 0 {
      var k := i - 1;
      PairsMatch(text, k);
      StackHoldsOpen(text, k);
      var stack, before, pairs := StackAfter(text, k), PairsAfter(text, k), PairsAfter(text, i);
      if text[k] == ')' && stack != [] {
        Pop(text, k, stack);
      }
      forall g | 0 <= g < i && text[g] == '(' && g !in pairs
        ensures OpenAt(text, g, i)
      {
        if g < k {
          assert OpenAt(text, g, k);
          var a :| 0 <= a < |stack| && stack[a] == g;
          StillOpen(text, k, stack, a);
        }
      }
    }
  }

  // ----- What the pass finds

  /** The pairs recorded are exactly the matching brackets. */
  lemma PairsAreMatches(text: string, g: nat, j: nat)
    ensures g in PairsAfter(text, |text|) && PairsAfter(text, |text|)[g] == j <==> Matches(text, g, j)
  {
    PairsMatch(text, |text|);
    var pairs := PairsAfter(text, |text|);
    if Matches(text, g, j) {
      assert !Deeper(text, g, j + 1);
      OneMatch(text, g, pairs[g], j);
    }
  }

  /** The owner of a position is the innermost bracket open there. */
  lemma {:induction false} OwnerIsInnermost(text: string, i: nat, k: nat)
    requires k < i <= |text|
    ensures Innermost(text, k + 1, OwnersAfter(text, i)[k])
    decreases i
  {
    if k < i - 1 {
      OwnerIsInnermost(text, i - 1, k);
    } else {
      var stack := StackAfter(text, i);
      StackHoldsOpen(text, i);
      if stack != [] {
        assert Entry(text, i, stack, |stack| - 1);
      }
    }
  }

  function OwnerOf(text: string, m: nat): Option<nat>
    requires m < |text|
  {
    OwnersAfter(text, |text|)[m]
  }

  function EndOf(text: string, g: nat): nat
    requires g < |text|
  {
    if g in PairsAfter(text, |text|) then PairsAfter(text, |text|)[g] else |text| - 1
  }

  lemma OwnerAndEnd(text: string, m: nat)
    requires m < |text|
    ensures Innermost(text, m + 1, OwnerOf(text, m))
    ensures OwnerOf(text, m).Some? ==> OwnerOf(text, m).value <= m && text[OwnerOf(text, m).value] == '('
  {
    OwnerIsInnermost(text, |text|, m);
  }

  lemma EndIsSpan(text: string, g: nat, r: nat)
    requires g < |text|
    ensures g <= EndOf(text, g) < |text|
    ensures Spans(text, g, r) <==> r == EndOf(text, g)
  {
    var pairs := PairsAfter(text, |text|);
    if g in pairs {
      PairsAreMatches(text, g, pairs[g]);
      PairsAreMatches(text, g, r);
    } else {
      forall j
        ensures !Matches(text, g, j)
      {
        if 0 <= j { PairsAreMatches(text, g, j); }
      }
    }
  }

  lemma UnmatchedStaysOpen(text: string, g: nat)
    requires g < |text| && text[g] == '(' && forall j :: !Matches(text, g, j)
    ensures OpenAt(text, g, |text|)
  {
    PairsMatch(text, |text|);
    assert g !in PairsAfter(text, |text|);
  }

  /** The spans of two brackets are nested or disjoint, or both run to the text's end. */
  lemma SpansAreLaminar(text: string, g: nat, h: nat, r: nat, q: nat)
    requires g < h < |text| && text[g] == '(' == text[h] && Spans(text, g, r) && Spans(text, h, q)
    ensures r < h || q < r || q == |text| - 1 == r
  {
    if Matches(text, g, r) && h <= r <= q {
      DeeperWhileOpen(text, g, r, r);
      DeeperWhileOpen(text, g, r, h);
      if Matches(text, h, q) {
        if r < q { DeeperWhileOpen(text, h, q, r + 1); }
      } else {
        UnmatchedStaysOpen(text, h);
        DeeperWhileOpen(text, h, |text|, r + 1);
      }
    }
  }

  /** A parenthesis is open at a marker exactly when it spans the marker. */
  lemma OpenIffSpansMark(text: string, g: nat, r: nat, m: nat)
    requires m < |text| && text[m] != '(' && text[m] != ')'
    requires g < |text| && text[g] == '(' && Spans(text, g, r)
    ensures OpenAt(text, g, m + 1) <==> g < m <= r
  {
    if Matches(text, g, r) {
      DeeperWhileOpen(text, g, r, r);
      assert !Deeper(text, g, r + 1);
    } else {
      UnmatchedStaysOpen(text, g);
    }
  }

  // ----- The tags of a text

  /**
   The marker positions: in order, and never at a parenthesis, since a marker starts with a
   letter, a digit or `#`.
   */
  predicate AreMarks(text: string, marks: seq<nat>) {
    && (forall a, b :: 0 <= a < b < |marks| ==> marks[a] < marks[b])
    && (forall a :: 0 <= a < |marks| ==> marks[a] < |text| && text[marks[a]] != '(' && text[marks[a]] != ')')
  }

  /** A marker that no parenthesis holds shows 24 characters. */
  function Excerpt(text: string, m: nat): string
    requires m < |text|
  {
    text[m..if m + 24 <= |text| then m + 24 else |text|]
  }

  function KeyOf(text: string, m: nat): Key
    requires m < |text|
  {
    match OwnerOf(text, m)
    case None => Marker(m)
    case Some(g) => Paren(g)
  }

  function KeysOf(text: string, marks: seq<nat>): (r: seq<Key>)
    requires AreMarks(text, marks)
    ensures |r| == |marks|
  {
    seq(|marks|, a requires 0 <= a < |marks| => KeyOf(text, marks[a]))
  }

  /** The tag filed under a key: a parenthesis whole, or an excerpt. */
  function TagUnder(text: string, key: Key): (t: Tag)
    ensures t.off == key.off
  {
    if key.off >= |text| then Tag(key.off, "")
    else match key
      case Marker(m) => Tag(m, Excerpt(text, m))
      case Paren(g) => EndIsSpan(text, g, EndOf(text, g)); Tag(g, text[g..EndOf(text, g) + 1])
  }

  /** `found`, once the first `k` keys have been filed. */
  function FoundAfter(keys: seq<Key>, k: nat, tagUnder: Key -> Tag): map<Key, Tag>
    requires k <= |keys|
  {
    if k == 0 then map[] else FoundAfter(keys, k - 1, tagUnder)[keys[k - 1] := tagUnder(keys[k - 1])]
  }

  lemma {:induction false} FoundHolds(keys: seq<Key>, k: nat, tagUnder: Key -> Tag)
    requires k <= |keys|
    ensures forall key :: key in FoundAfter(keys, k, tagUnder) <==> exists a :: 0 <= a < k && keys[a] == key
    ensures forall key :: key in FoundAfter(keys, k, tagUnder) ==> FoundAfter(keys, k, tagUnder)[key] == tagUnder(key)
  {
    if k > 0 { FoundHolds(keys, k - 1, tagUnder); }
  }

  function AtOffset(found: map<Key, Tag>, o: nat): seq<Tag> {
    (if Marker(o) in found then [found[Marker(o)]] else []) + (if Paren(o) in found then [found[Paren(o)]] else [])
  }

  /** `sorted(found.values())`: the tags filed under offsets below `n`, by offset. */
  function SortedValues(found: map<Key, Tag>, n: nat): seq<Tag> {
    if n == 0 then [] else SortedValues(found, n - 1) + AtOffset(found, n - 1)
  }

  function TagList(text: string, marks: seq<nat>): seq<Tag>
    requires AreMarks(text, marks)
  {
    SortedValues(FoundAfter(KeysOf(text, marks), |marks|, key => TagUnder(text, key)), |text|)
  }

  lemma EndInText(text: string, g: nat)
    requires g < |text|
    ensures g <= EndOf(text, g) < |text|
  {
    EndIsSpan(text, g, 0);
  }

  /** What the second loop does with the marker at `m`. */
  method FileMark(text: string, m: nat, group: Option<nat>, pairs: map<nat, nat>, found: map<Key, Tag>)
    returns (r: map<Key, Tag>)
    requires m < |text| && pairs == PairsAfter(text, |text|)
    requires group.Some? ==> group.value < |text|
    requires forall key :: key in found ==> found[key] == TagUnder(text, key)
    ensures var key := if group == None then Marker(m) else Paren(group.value); r == found[key := TagUnder(text, key)]
  {
    if group == None {
      r := found[Marker(m) := Tag(m, Excerpt(text, m))];
    } else {
      var g := group.value;
      EndInText(text, g);
      var end := if g in pairs then pairs[g] else |text| - 1;
      r := if Paren(g) in found then found else found[Paren(g) := Tag(g, text[g..end + 1])];
    }
  }

  method TagsOf(text: string, marks: seq<nat>) returns (out: seq<Tag>)
    requires AreMarks(text, marks)
    ensures out == TagList(text, marks)
  {
    if marks == [] {
      NothingFiled(|text|);
      return [];
    }
    var owner, pairs := ReadBrackets(text);
    ghost var keys, tagUnder := KeysOf(text, marks), key => TagUnder(text, key);
    var found: map<Key, Tag> := map[];
    for k := 0 to |marks|
      invariant found == FoundAfter(keys, k, tagUnder)
    {
      OwnerAndEnd(text, marks[k]);
      FoundHolds(keys, k, tagUnder);
      found := FileMark(text, marks[k], owner[marks[k]], pairs, found);
    }
    out := SortedValues(found, |text|);
  }

  lemma {:induction false} NothingFiled(n: nat)
    ensures SortedValues(map[], n) == []
  {
    if n > 0 { NothingFiled(n - 1); }
  }

  ghost predicate Ascending(tags: seq<Tag>, n: nat) {
    && (forall a :: 0 <= a < |tags| ==> tags[a].off < n)
    && (forall a, b :: 0 <= a < b < |tags| ==> tags[a].off < tags[b].off)
  }

  lemma OneMoreOffset(tags: seq<Tag>, more: seq<Tag>, n: nat)
    requires Ascending(tags, n) && |more| <= 1 && (more != [] ==> more[0].off == n)
    ensures Ascending(tags + more, n + 1)
  {
  }

  lemma {:induction false} SortedAscends(found: map<Key, Tag>, n: nat)
    requires forall key :: key in found ==> found[key].off == key.off
    requires forall o :: !(Marker(o) in found && Paren(o) in found)
    ensures Ascending(SortedValues(found, n), n)
  {
    if n > 0 {
      SortedAscends(found, n - 1);
      OneMoreOffset(SortedValues(found, n - 1), AtOffset(found, n - 1), n - 1);
    }
  }

  lemma {:induction false} SortedLists(found: map<Key, Tag>, n: nat, t: Tag)
    ensures t in SortedValues(found, n) <==> exists key :: key in found && key.off < n && t == found[key]
  {
    if n > 0 {
      SortedLists(found, n - 1, t);
      var m, p := Marker(n - 1), Paren(n - 1);
      assert t in SortedValues(found, n) <==>
        t in SortedValues(found, n - 1) || (m in found && t == found[m]) || (p in found && t == found[p]);
      if key :| key in found && key.off < n && t == found[key] {
        assert key.off < n - 1 || key == m || key == p;
      }
    }
  }

  // ----- What the tags are

  /** The parenthesis at `g` spans the text up to `r`, and holds the marker at `m`. */
  ghost predicate HoldsMark(text: string, g: nat, r: nat, m: nat) {
    g < m <= r < |text| && text[g] == '(' && Spans(text, g, r)
  }

  /** The 24 characters from `m` on, or the rest of the text if there are fewer. */
  predicate IsExcerpt(text: string, m: nat, shown: string)
    requires m < |text|
  {
    shown <= text[m..] && (|shown| == 24 || (|shown| < 24 && shown == text[m..]))
  }

  /** `t` is the innermost parenthesis that holds the marker at `m`, whole; or an excerpt where none does. */
  ghost predicate IsTagOf(text: string, m: nat, t: Tag)
    requires m < |text|
  {
    || (t.off == m && IsExcerpt(text, m, t.text) && forall g: nat, r: nat :: !HoldsMark(text, g, r, m))
    || exists r: nat :: HoldsMark(text, t.off, r, m) && t.text == text[t.off..r + 1] &&
         forall h: nat, q: nat :: HoldsMark(text, h, q, m) ==> h <= t.off
  }

  lemma TagIsInnermost(text: string, m: nat, t: Tag)
    requires m < |text| && text[m] != '(' && text[m] != ')'
    ensures IsTagOf(text, m, t) <==> t == TagUnder(text, KeyOf(text, m))
  {
    var o := OwnerOf(text, m);
    OwnerAndEnd(text, m);
    forall g: nat, r: nat | HoldsMark(text, g, r, m)
      ensures OpenAt(text, g, m + 1) && r == EndOf(text, g)
    {
      OpenIffSpansMark(text, g, r, m);
      EndIsSpan(text, g, r);
    }
    if o.Some? {
      EndIsSpan(text, o.value, EndOf(text, o.value));
      OpenIffSpansMark(text, o.value, EndOf(text, o.value), m);
      assert HoldsMark(text, o.value, EndOf(text, o.value), m);
    }
  }

  lemma KeyIsInText(text: string, m: nat)
    requires m < |text| && text[m] != '('
    ensures var key := KeyOf(text, m); key.off <= m && (key.Paren? <==> text[key.off] == '(')
  {
    OwnerAndEnd(text, m);
  }

  lemma FoundIsSortable(text: string, marks: seq<nat>, found: map<Key, Tag>)
    requires AreMarks(text, marks)
    requires found == FoundAfter(KeysOf(text, marks), |marks|, key => TagUnder(text, key))
    ensures forall key :: key in found ==> found[key].off == key.off < |text|
    ensures forall o :: !(Marker(o) in found && Paren(o) in found)
  {
    var keys := KeysOf(text, marks);
    FoundHolds(keys, |keys|, key => TagUnder(text, key));
    forall a | 0 <= a < |keys|
      ensures keys[a].off < |text| && (keys[a].Paren? <==> text[keys[a].off] == '(')
    {
      KeyIsInText(text, marks[a]);
    }
  }

  lemma TagInList(text: string, marks: seq<nat>, t: Tag)
    requires AreMarks(text, marks)
    ensures t in TagList(text, marks) <==> exists a :: 0 <= a < |marks| && IsTagOf(text, marks[a], t)
  {
    var keys, tagUnder := KeysOf(text, marks), key => TagUnder(text, key);
    var found := FoundAfter(keys, |marks|, tagUnder);
    FoundIsSortable(text, marks, found);
    FoundHolds(keys, |marks|, tagUnder);
    SortedLists(found, |text|, t);
    forall a | 0 <= a < |marks|
      ensures IsTagOf(text, marks[a], t) <==> t == tagUnder(keys[a])
    {
      TagIsInnermost(text, marks[a], t);
    }
  }

  /**
   The tags of a text are in strictly increasing order, and they are exactly the tags of its
   markers: for each, the innermost parenthesis that holds it, once however many it holds.
   */
  lemma TagListIsExact(text: string, marks: seq<nat>)
    requires AreMarks(text, marks)
    ensures Ascending(TagList(text, marks), |text|)
    ensures forall t :: t in TagList(text, marks) <==> exists a :: 0 <= a < |marks| && IsTagOf(text, marks[a], t)
  {
    var found := FoundAfter(KeysOf(text, marks), |marks|, key => TagUnder(text, key));
    FoundIsSortable(text, marks, found);
    SortedAscends(found, |text|);
    forall t { TagInList(text, marks, t); }
  }

  /** Two markers share a tag exactly when one parenthesis is the innermost around both. */
  lemma SharedTagIffSharedBracket(text: string, m: nat, n: nat, t: Tag, u: Tag)
    requires m < n < |text| && text[m] != '(' && text[m] != ')' && text[n] != '(' && text[n] != ')'
    requires IsTagOf(text, m, t) && IsTagOf(text, n, u)
    ensures t == u <==> exists g: nat :: Innermost(text, m + 1, Some(g)) && Innermost(text, n + 1, Some(g))
  {
    TagIsInnermost(text, m, t);
    TagIsInnermost(text, n, u);
    KeyIsInText(text, m);
    KeyIsInText(text, n);
    OwnerAndEnd(text, m);
    OwnerAndEnd(text, n);
  }
}
