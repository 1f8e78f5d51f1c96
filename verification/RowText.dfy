/**
 What `row_cells` of scripts/gen-rules-index.py reads in any row, rendered or not: the text between
 the pipes that are neither escaped nor in inline code, without blanks and pipes at the row's ends.
 */
module RowText {
  import opened Text
  import opened Leftmost
  import opened CodeSpans
  import opened TableRows

  // ----- What the cells of a row are

  /** Character `k` parts two cells: a pipe in none of the spans, with no backslash before it. */
  predicate PartsCells(text: string, spans: seq<Span>, k: int) {
    0 <= k < |text| && text[k] == '|' && !Inside(spans, k) && !(k > 0 && text[k - 1] == '\\')
  }

  ghost predicate AllPart(text: string, spans: seq<Span>, i: nat, j: nat) {
    forall k: nat :: i <= k < j ==> PartsCells(text, spans, k)
  }

  predicate AllBlank(text: string, i: nat, j: nat)
    requires i <= j <= |text|
  {
    forall k :: i <= k < j ==> IsSpace(text[k])
  }

  /** The row's inside is from `i` to `j`: around it are pipes, as far as `b` and `c`, and then blanks. */
  ghost predicate IsInside(text: string, spans: seq<Span>, b: nat, i: nat, j: nat, c: nat) {
    && b <= i <= j <= c <= |text|
    && AllBlank(text, 0, b) && AllPart(text, spans, b, i) && AllPart(text, spans, j, c) && AllBlank(text, c, |text|)
    && (b < |text| ==> !IsSpace(text[b])) && (b < c ==> !IsSpace(text[c - 1]))
    && (i < |text| ==> !PartsCells(text, spans, i)) && (i < j ==> !PartsCells(text, spans, j - 1))
  }

  /** The characters that part the cells between `i` and `j`, in order, with the ends around them. */
  ghost predicate AreCuts(text: string, spans: seq<Span>, i: nat, j: nat, cuts: seq<int>) {
    && |cuts| >= 2 && cuts[0] == i - 1 && cuts[|cuts| - 1] == j
    && (forall n, m :: 0 <= n < m < |cuts| ==> cuts[n] < cuts[m])
    && forall k: nat :: i <= k < j ==> (k in cuts <==> PartsCells(text, spans, k))
  }

  ghost predicate AreBetween(text: string, cuts: seq<int>, parts: seq<string>) {
    |parts| == |cuts| - 1 && forall n :: 0 <= n < |parts| ==> IsBetween(text, cuts[n], cuts[n + 1], parts[n])
  }

  predicate IsBetween(text: string, from: int, to: int, part: string) {
    0 <= from + 1 <= to <= |text| && part == text[from + 1..to]
  }

  /** The cell of a part: stripped, with the placeholders it may have held put back too. */
  predicate IsShown(part: string, cell: string) {
    cell == Strip(if NUL in part || SOH in part then Restored(part) else part)
  }

  /** The cells of a row whose code spans are `spans`. */
  ghost predicate AreRowCells(text: string, spans: seq<Span>, cells: seq<string>) {
    exists b: nat, i: nat, j: nat, c: nat, cuts, parts ::
      && IsInside(text, spans, b, i, j, c) && AreCuts(text, spans, i, j, cuts) && AreBetween(text, cuts, parts)
      && |cells| == |parts| && forall n :: 0 <= n < |cells| ==> IsShown(parts[n], cells[n])
  }

  // ----- The inside of a row

  lemma {:induction false} PipesFrom(text: string, spans: seq<Span>, b: nat) returns (i: nat)
    requires b <= |text|
    ensures b <= i <= |text| && AllPart(text, spans, b, i) && !PartsCells(text, spans, i)
    decreases |text| - b
  {
    i := b;
    if PartsCells(text, spans, b) { i := PipesFrom(text, spans, b + 1); }
  }

  lemma {:induction false} PipesBack(text: string, spans: seq<Span>, i: nat, c: nat) returns (j: nat)
    requires i <= c <= |text|
    ensures i <= j <= c && AllPart(text, spans, j, c) && (i < j ==> !PartsCells(text, spans, j - 1))
    decreases c
  {
    j := c;
    if i < c && PartsCells(text, spans, c - 1) { j := PipesBack(text, spans, i, c - 1); }
  }

  lemma InsideIs(text: string, spans: seq<Span>) returns (b: nat, i: nat, j: nat, c: nat)
    ensures IsInside(text, spans, b, i, j, c)
  {
    b := SkipSpaces(text, 0);
    c := TrimTo(text, b, |text|);
    i := PipesFrom(text, spans, b);
    assert i > c ==> PartsCells(text, spans, c);
    j := PipesBack(text, spans, i, c);
  }

  // ----- Stripping a text of what is around its inside

  /** Blanks and then pipes before a text, pipes and then blanks after it, and no more of them to strip. */
  ghost predicate Surround(p: string, b: nat, y: string, e: nat, q: string) {
    && b <= |p| && e <= |q|
    && AllBlank(p, 0, b) && AllPipes(p, b, |p|) && AllPipes(q, 0, e) && AllBlank(q, e, |q|)
    && (y == "" ==> e == 0 && (b == |p| ==> q == ""))
    && (y != "" ==> y[0] != PIPE && y[|y| - 1] != PIPE)
    && (y != "" && b == |p| ==> !IsSpace(y[0])) && (y != "" && e == 0 ==> !IsSpace(y[|y| - 1]))
  }

  predicate AllPipes(s: string, i: nat, j: nat)
    requires i <= j <= |s|
  {
    forall k :: i <= k < j ==> s[k] == PIPE
  }

  lemma StripsBlanks(p: string, b: nat, y: string, e: nat, q: string)
    requires Surround(p, b, y, e, q)
    ensures Strip(p + y + q) == p[b..] + y + q[..e]
  {
    var s := p + y + q;
    var start, end := SkipSpaces(s, 0), TrimTo(s, SkipSpaces(s, 0), |s|);
    assert start >= b;
    assert b < |s| ==> !IsSpace(s[b]);
    assert start == b;
    var last := |p| + |y| + e;
    assert forall k :: last <= k < |s| ==> s[k] == q[k - |p| - |y|];
    assert b < last ==> !IsSpace(s[last - 1]);
    assert end == last;
    assert s[b..last] == p[b..] + y + q[..e];
  }

  lemma StripsPipes(p: string, y: string, q: string)
    requires AllPipes(p, 0, |p|) && AllPipes(q, 0, |q|)
    requires (y == "" ==> q == "") && (y != "" ==> y[0] != PIPE && y[|y| - 1] != PIPE)
    ensures StripPipes(p + y + q) == y
  {
    var s := p + y + q;
    LeadingIs(s, 0, |p|);
    TrailingIs(s, |p|, |p| + |y|, |s|);
    assert s[|p|..|p| + |y|] == y;
  }

  lemma {:induction false} LeadingIs(s: string, i: nat, r: nat)
    requires i <= r <= |s| && AllPipes(s, i, r) && (r < |s| ==> s[r] != PIPE)
    ensures LeadingPipes(s, i) == r
    decreases r - i
  {
    if i < r { LeadingIs(s, i + 1, r); }
  }

  lemma {:induction false} TrailingIs(s: string, i: nat, r: nat, j: nat)
    requires i <= r <= j <= |s| && AllPipes(s, r, j) && (i < r ==> s[r - 1] != PIPE)
    ensures TrailingPipes(s, i, j) == r
  {
    if r < j { TrailingIs(s, i, r, j - 1); }
  }

  lemma SurroundStrips(p: string, b: nat, y: string, e: nat, q: string)
    requires Surround(p, b, y, e, q)
    ensures StripPipes(Strip(p + y + q)) == y
  {
    StripsBlanks(p, b, y, e, q);
    StripsPipes(p[b..], y, q[..e]);
  }

  // ----- The placeholders in what is around a row's inside

  lemma {:induction false} ReplacedAfter(s: string, i: nat, k: nat, c: char)
    requires i <= k <= |s| && forall l :: 0 <= l < i ==> s[l] != ESCAPE
    ensures Replaced(s, k, c) == s[..i] + Replaced(s[i..], k - i, c)
  {
    if k == i {
      ReplacedNowhere(s, 0, i, c);
      assert s[..i] + "" == s[..i];
    } else {
      assert EscapedPipe(s, k - 1) <==> EscapedPipe(s[i..], k - i - 1);
      ReplacedAfter(s, i, if EscapedPipe(s, k - 1) then k - 2 else k - 1, c);
    }
  }

  lemma {:induction false} ReplacedNowhere(s: string, j: nat, k: nat, c: char)
    requires j <= k <= |s| && forall l :: j <= l < k ==> !EscapedPipe(s, l)
    ensures Replaced(s, k, c) == Replaced(s, j, c) + s[j..k]
  {
    if j < k {
      ReplacedNowhere(s, j, k - 1, c);
      assert s[j..k] == s[j..k - 1] + [s[k - 1]];
    }
  }

  lemma {:induction false} ReplacedFirst(t: string, k: nat)
    requires 0 < k <= |t|
    ensures var y := Replaced(t, k, SOH); y != "" && (y[0] == t[0] || y[0] == SOH)
  {
    if k > 1 {
      var l := if EscapedPipe(t, k - 1) then k - 2 else k - 1;
      if l > 0 { ReplacedFirst(t, l); }
    }
  }

  lemma {:induction false} ReplacedLast(t: string)
    requires t != "" && (t[|t| - 1] == PIPE ==> EscapedPipe(t, |t| - 1))
    ensures var y := Replaced(t, |t|, SOH); y != "" && (y[|y| - 1] == SOH || y[|y| - 1] == t[|t| - 1] != PIPE)
  {
  }

  /** There is nothing to put out of reach around the inside. */
  lemma NothingAround(text: string, m: string, b: nat, i: nat, j: nat, c: nat)
    requires m == MaskedAt(text, InCode(text)) && IsInside(text, Spans(text), b, i, j, c)
    ensures forall l :: 0 <= l < i ==> m[l] != ESCAPE
    ensures forall l :: j <= l < |m| ==> !EscapedPipe(m, l)
  {
    forall l: nat | l < i
      ensures m[l] != ESCAPE
    {
      assert b <= l ==> PartsCells(text, Spans(text), l);
    }
    forall l: nat | j <= l < |m|
      ensures !EscapedPipe(m, l)
    {
      assert l < c ==> PartsCells(text, Spans(text), l);
    }
  }

  /** What is around the inside stays as it is. */
  lemma InsideIsReplaced(text: string, m: string, b: nat, i: nat, j: nat, c: nat)
    requires m == MaskedAt(text, InCode(text)) && IsInside(text, Spans(text), b, i, j, c)
    ensures Replaced(m, |m|, SOH) == m[..i] + Replaced(m[i..j], j - i, SOH) + m[j..]
  {
    hide Replaced;
    NothingAround(text, m, b, i, j, c);
    ReplacedNowhere(m, j, |m|, SOH);
    ReplacedAfter(m, i, j, SOH);
    ReplacedPrefix(m[i..j], m[i..], j - i, SOH);
  }

  lemma PipesAround(text: string, m: string, b: nat, i: nat, j: nat, c: nat)
    requires m == MaskedAt(text, InCode(text)) && IsInside(text, Spans(text), b, i, j, c)
    ensures AllPipes(m, b, i) && AllPipes(m, j, c) && AllBlank(m, 0, b) && AllBlank(m, c, |m|)
  {
    forall k: nat | b <= k < i || j <= k < c
      ensures m[k] == PIPE
    {
      assert PartsCells(text, Spans(text), k);
    }
    forall k: nat | k < b || c <= k < |text|
      ensures IsSpace(m[k])
    {
      assert IsSpace(text[k]);
    }
  }

  lemma InsideIsSurrounded(text: string, m: string, b: nat, i: nat, j: nat, c: nat)
    requires m == MaskedAt(text, InCode(text)) && IsInside(text, Spans(text), b, i, j, c)
    ensures Surround(m[..i], b, Replaced(m[i..j], j - i, SOH), c - j, m[j..])
  {
    hide Replaced;
    var t := m[i..j];
    PipesAround(text, m, b, i, j, c);
    if i < j {
      EndsOfInside(text, m, b, i, j, c);
      ReplacedFirst(t, |t|);
      ReplacedLast(t);
    } else {
      NothingReplaced(t);
    }
  }

  lemma NothingReplaced(t: string)
    requires t == ""
    ensures Replaced(t, 0, SOH) == ""
  {
  }

  /** The inside starts with no pipe, and ends with none but an escaped one. */
  lemma EndsOfInside(text: string, m: string, b: nat, i: nat, j: nat, c: nat)
    requires m == MaskedAt(text, InCode(text)) && IsInside(text, Spans(text), b, i, j, c) && i < j
    ensures m[i] != PIPE && (m[j - 1] == PIPE ==> i < j - 1 && m[j - 2] == ESCAPE)
  {
    NothingAround(text, m, b, i, j, c);
  }

  // ----- The cells are the parts of the inside

  function InCodeFrom(text: string, i: nat): nat -> bool { k => Inside(Spans(text), i + k) }

  /** The parts of the inside up to `k`. */
  function PartsTo(text: string, i: nat, j: nat, k: nat): Pieces
    requires i <= k <= j <= |text|
  {
    PartedTo(text[i..j], InCodeFrom(text, i), k - i)
  }

  lemma InsideIsLeft(text: string, m: string, b: nat, i: nat, j: nat, c: nat)
    requires m == MaskedAt(text, InCode(text)) && IsInside(text, Spans(text), b, i, j, c)
    ensures i <= j <= |m| && StripPipes(Strip(Replaced(m, |m|, SOH))) == Replaced(m[i..j], j - i, SOH)
  {
    assert b <= i <= j <= c <= |m|;
    hide Replaced, Strip, StripPipes, IsInside, Surround;
    InsideIsReplaced(text, m, b, i, j, c);
    InsideIsSurrounded(text, m, b, i, j, c);
    SurroundStrips(m[..i], b, Replaced(m[i..j], j - i, SOH), c - j, m[j..]);
  }

  lemma MaskedInside(text: string, i: nat, j: nat)
    requires i <= j <= |text|
    ensures MaskedAt(text, InCode(text))[i..j] == MaskedAt(text[i..j], InCodeFrom(text, i))
  {
  }

  /** `row_cells` reads the parts of the inside. */
  lemma RowCellsAreInside(text: string, b: nat, i: nat, j: nat, c: nat)
    requires IsInside(text, Spans(text), b, i, j, c)
    ensures i <= j <= |text| && RowCells(text) == StrippedAll(RestoredAll(PartsTo(text, i, j, j).All()))
  {
    hide Replaced, MaskedAt, Strip, StripPipes, IsInside, SplitTo, RestoredTo, PartedTo;
    var m := MaskedAt(text, InCode(text));
    InsideIsLeft(text, m, b, i, j, c);
    var y := Replaced(m[i..j], j - i, SOH);
    MaskedInside(text, i, j);
    ShownIsParted(text[i..j], m[i..j], InCodeFrom(text, i), j - i);
    AllRestored(SplitTo(y, |y|));
    AllRestored(PartsTo(text, i, j, j));
  }

  lemma AllRestored(p: Pieces)
    ensures RestoredAll(p.All()) == RestoredPieces(p).All()
  {
  }

  /** Where the parts of the inside are cut, up to `k`. */
  ghost function CutsTo(text: string, spans: seq<Span>, i: nat, k: nat): (r: seq<int>)
    requires i <= k
    ensures r != [] && r[0] == i - 1 && r[|r| - 1] < k
    ensures forall n, m :: 0 <= n < m < |r| ==> r[n] < r[m]
    ensures forall l: nat :: i <= l < k ==> (l in r <==> PartsCells(text, spans, l))
  {
    if k == i then [i - 1]
    else CutsTo(text, spans, i, k - 1) + if PartsCells(text, spans, k - 1) then [k - 1] else []
  }

  lemma OneMoreInPart(text: string, cuts: seq<int>, k: nat, p: Pieces)
    requires k < |text| && cuts != [] && AreBetween(text, cuts + [k], p.All())
    ensures AreBetween(text, cuts + [k + 1], p.Add([text[k]]).All())
  {
    var was, now, all := cuts + [k], cuts + [k + 1], p.Add([text[k]]).All();
    forall n | 0 <= n < |all|
      ensures IsBetween(text, now[n], now[n + 1], all[n])
    {
      assert IsBetween(text, was[n], was[n + 1], p.All()[n]);
    }
  }

  lemma OneMorePart(text: string, cuts: seq<int>, k: nat, p: Pieces)
    requires k < |text| && cuts != [] && AreBetween(text, cuts + [k], p.All())
    ensures AreBetween(text, cuts + [k] + [k + 1], p.Next().All())
  {
    var was, now, all := cuts + [k], cuts + [k] + [k + 1], p.Next().All();
    forall n | 0 <= n < |all|
      ensures IsBetween(text, now[n], now[n + 1], all[n])
    {
      if n < |p.All()| {
        assert IsBetween(text, was[n], was[n + 1], p.All()[n]);
      }
    }
  }

  lemma PartsOneMore(text: string, i: nat, j: nat, k: nat)
    requires i <= k < j <= |text| && FreeBefore(text, i)
    ensures var p := PartsTo(text, i, j, k);
      PartsTo(text, i, j, k + 1) == if PartsCells(text, Spans(text), k) then p.Next() else p.Add([text[k]])
  {
    SliceParts(text, i, j, k);
    assert text[i..j][k - i] == text[k];
  }

  lemma {:induction false} PartsAreBetween(text: string, i: nat, j: nat, k: nat)
    requires i <= k <= j <= |text| && FreeBefore(text, i)
    ensures AreBetween(text, CutsTo(text, Spans(text), i, k) + [k], PartsTo(text, i, j, k).All())
  {
    hide PartsTo, AreBetween, PartsCells;
    if k == i {
      FirstPart(text, i, j);
    } else {
      var cuts, p := CutsTo(text, Spans(text), i, k - 1), PartsTo(text, i, j, k - 1);
      PartsAreBetween(text, i, j, k - 1);
      PartsOneMore(text, i, j, k - 1);
      OneMoreInPart(text, cuts, k - 1, p);
      OneMorePart(text, cuts, k - 1, p);
      assert cuts + [] == cuts;
    }
  }

  lemma FirstPart(text: string, i: nat, j: nat)
    requires i <= j <= |text|
    ensures AreBetween(text, [i - 1] + [i], PartsTo(text, i, j, i).All())
  {
  }

  predicate FreeBefore(text: string, i: nat) { 0 < i <= |text| ==> text[i - 1] != ESCAPE }

  lemma SliceParts(text: string, i: nat, j: nat, k: nat)
    requires i <= k < j <= |text| && FreeBefore(text, i)
    ensures LivePipe(text[i..j], InCodeFrom(text, i), k - i) <==> PartsCells(text, Spans(text), k)
  {
  }

  lemma InsideIsFree(text: string, spans: seq<Span>, b: nat, i: nat, j: nat, c: nat)
    requires IsInside(text, spans, b, i, j, c)
    ensures FreeBefore(text, i)
  {
    if i > 0 {
      assert i - 1 >= b ==> PartsCells(text, spans, i - 1);
    }
  }

  lemma ShownAreCells(parts: seq<string>)
    ensures forall n :: 0 <= n < |parts| ==> IsShown(parts[n], StrippedAll(RestoredAll(parts))[n])
  {
    forall n | 0 <= n < |parts|
      ensures IsShown(parts[n], StrippedAll(RestoredAll(parts))[n])
    {
      var p := parts[n];
      RestoredIs(p, |p|);
      assert p[..|p|] == p;
      assert forall k :: 0 <= k < |p| ==> p[k] in p;
    }
  }

  lemma CutsAreCuts(text: string, spans: seq<Span>, i: nat, j: nat)
    requires i <= j
    ensures AreCuts(text, spans, i, j, CutsTo(text, spans, i, j) + [j])
  {
  }

  /**
   What `row_cells` reads in any row: with the code spans being the leftmost, exactly the stripped
   texts between the pipes that part cells, all of them and in order.
   */
  lemma RowCellsAreBetween(text: string, spans: seq<Span>)
    requires AreLeftmost(CodePattern(text), 0, spans)
    ensures AreRowCells(text, spans, RowCells(text))
  {
    hide AreLeftmost, CodePattern, IsInside, PartsCells, RowCells, PartsTo, CutsTo, AreBetween, AreCuts;
    SpansAreLeftmost(text, spans);
    var b, i, j, c := InsideIs(text, spans);
    RowCellsAreInside(text, b, i, j, c);
    InsideIsFree(text, spans, b, i, j, c);
    PartsAreBetween(text, i, j, j);
    CutsAreCuts(text, spans, i, j);
    ShownAreCells(PartsTo(text, i, j, j).All());
  }
}
