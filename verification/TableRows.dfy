/**
 Table rows, as scripts/gen-rules-index.py writes and reads them: `cell` escapes the pipes of
 a cell, a row is the cells between pipes, and `row_cells` takes a row apart, keeping the pipes
 that are escaped or inside inline code.
 */
module TableRows {
  import opened Wrappers
  import opened Text
  import opened Leftmost
  import opened CodeSpans

  const PIPE := '|'
  const ESCAPE := '\\'
  const NUL := '\U{0}'
  const SOH := '\U{1}'

  // ----- `cell`

  /** `" ".join(s.split())` */
  function Flat(s: string): string { Joined(Split(s), 0, |Split(s)|, ' ') }

  /** The character `k` of a text is a pipe with a backslash before it. */
  predicate EscapedPipe(s: string, k: nat)
    requires k < |s|
  {
    s[k] == PIPE && k > 0 && s[k - 1] == ESCAPE
  }

  /** `replace("\\|", c)`, whose matches cannot overlap, on the first `k` characters. */
  function Replaced(s: string, k: nat, c: char): string
    requires k <= |s|
  {
    if k == 0 then ""
    else if EscapedPipe(s, k - 1) then Replaced(s, k - 2, c) + [c]
    else Replaced(s, k - 1, c) + [s[k - 1]]
  }

  /** `replace("|", "\\|")`, on the first `k` characters. */
  function Escaped(s: string, k: nat): string
    requires k <= |s|
  {
    if k == 0 then "" else Escaped(s, k - 1) + (if s[k - 1] == PIPE then [ESCAPE, PIPE] else [s[k - 1]])
  }

  function Unescape(s: string): string { Replaced(s, |s|, PIPE) }

  function Escape(s: string): string { Escaped(s, |s|) }

  function Cell(s: string): string { Escape(Unescape(Flat(s))) }

  // ----- `row_cells`

  /** The pipes at hidden places put out of reach. */
  function MaskedAt(s: string, hidden: nat -> bool): (r: string)
    ensures |r| == |s|
    ensures forall k :: 0 <= k < |s| ==> r[k] == if s[k] == PIPE && hidden(k) then NUL else s[k]
  {
    seq(|s|, k requires 0 <= k < |s| => if s[k] == PIPE && hidden(k) then NUL else s[k])
  }

  /** The places inside inline code. */
  function InCode(text: string): nat -> bool { k => Inside(Spans(text), k) }

  function LeadingPipes(s: string, i: nat): (r: nat)
    requires i <= |s|
    ensures i <= r <= |s|
    decreases |s| - i
  {
    if i < |s| && s[i] == PIPE then LeadingPipes(s, i + 1) else i
  }

  function TrailingPipes(s: string, i: nat, j: nat): (r: nat)
    requires i <= j <= |s|
    ensures i <= r <= j
    decreases j
  {
    if i < j && s[j - 1] == PIPE then TrailingPipes(s, i, j - 1) else j
  }

  /** `strip("|")` */
  function StripPipes(s: string): string {
    var i := LeadingPipes(s, 0);
    s[i..TrailingPipes(s, i, |s|)]
  }

  /** The pieces of what has been read: those that a pipe has ended, and the one being read. */
  datatype Pieces = Pieces(done: seq<string>, last: string) {
    function Add(x: string): Pieces { Pieces(done, last + x) }

    function Next(): Pieces { Pieces(done + [last], "") }

    function All(): seq<string> { done + [last] }
  }

  const NO_PIECES := Pieces([], "")

  /** `split("|")`, of the first `k` characters. */
  function SplitTo(s: string, k: nat): Pieces
    requires k <= |s|
  {
    if k == 0 then NO_PIECES
    else if s[k - 1] == PIPE then SplitTo(s, k - 1).Next()
    else SplitTo(s, k - 1).Add([s[k - 1]])
  }

  function PutBack(x: char): string {
    if x == NUL then [PIPE] else if x == SOH then [ESCAPE, PIPE] else [x]
  }

  /** The placeholders of the first `k` characters put back. */
  function RestoredTo(s: string, k: nat): string
    requires k <= |s|
  {
    if k == 0 then "" else RestoredTo(s, k - 1) + PutBack(s[k - 1])
  }

  function Restored(s: string): string { RestoredTo(s, |s|) }

  function RestoredAll(pieces: seq<string>): (r: seq<string>)
    ensures |r| == |pieces|
    ensures forall k :: 0 <= k < |pieces| ==> r[k] == Restored(pieces[k])
  {
    seq(|pieces|, k requires 0 <= k < |pieces| => Restored(pieces[k]))
  }

  function StrippedAll(pieces: seq<string>): (r: seq<string>)
    ensures |r| == |pieces|
    ensures forall k :: 0 <= k < |pieces| ==> r[k] == Strip(pieces[k])
  {
    seq(|pieces|, k requires 0 <= k < |pieces| => Strip(pieces[k]))
  }

  function RowCells(text: string): seq<string> {
    var masked := MaskedAt(text, InCode(text));
    var inner := StripPipes(Strip(Replaced(masked, |masked|, SOH)));
    StrippedAll(RestoredAll(SplitTo(inner, |inner|).All()))
  }

  // ----- `cell` is idempotent

  /** Every blank is a single space after a word. */
  predicate Spaced(s: string) {
    forall k :: 0 <= k < |s| && IsSpace(s[k]) ==> s[k] == ' ' && k > 0 && !IsSpace(s[k - 1])
  }

  /** Words with one space between, and no blank around. */
  predicate IsFlat(s: string) { Spaced(s) && (s != "" ==> !IsSpace(s[|s| - 1])) }

  /** Every pipe has a backslash right before it. */
  predicate PipesEscaped(s: string) {
    forall k :: 0 <= k < |s| && s[k] == PIPE ==> k > 0 && s[k - 1] == ESCAPE
  }

  predicate IsWord(w: string) { w != "" && forall k :: 0 <= k < |w| ==> !IsSpace(w[k]) }

  lemma {:induction false} JoinIsFlat(words: seq<string>, n: nat)
    requires n <= |words| && forall k :: 0 <= k < n ==> IsWord(words[k])
    ensures IsFlat(Joined(words, 0, n, ' ')) && (Joined(words, 0, n, ' ') == "" <==> n == 0)
  {
    if n > 1 {
      JoinIsFlat(words, n - 1);
      FlatPair(Joined(words, 0, n - 1, ' '), words[n - 1]);
    }
  }

  lemma FlatPair(before: string, word: string)
    requires IsFlat(before) && before != "" && IsWord(word)
    ensures IsFlat(before + " " + word)
  {
    var s := before + " " + word;
    assert forall k :: |before| < k < |s| ==> s[k] == word[k - |before| - 1];
    assert forall k :: 0 <= k < |before| ==> s[k] == before[k];
  }

  lemma {:induction false} SplitsIntoWords(s: string, i: nat)
    requires i <= |s|
    ensures forall k :: 0 <= k < |SplitFrom(s, i)| ==> IsWord(SplitFrom(s, i)[k])
    decreases |s| - i
  {
    var j := SkipSpaces(s, i);
    if j < |s| {
      SplitsIntoWords(s, SkipWord(s, j));
    }
  }

  lemma SplitAtWord(s: string, i: nat)
    requires IsFlat(s) && i < |s| && !IsSpace(s[i])
    ensures var m := SkipWord(s, i);
      i < m && SplitFrom(s, i) == [s[i..m]] + SplitFrom(s, m) &&
      if m == |s| then SplitFrom(s, m) == []
      else s[m] == ' ' && m + 1 < |s| && !IsSpace(s[m + 1]) && SplitFrom(s, m) == SplitFrom(s, m + 1) != []
  {
    var m := SkipWord(s, i);
    if m < |s| {
      assert !IsSpace(s[m + 1]);
      assert SkipSpaces(s, m) == SkipSpaces(s, m + 1) == m + 1;
    }
  }

  lemma JoinBeforeSpace(s: string, i: nat, m: nat, rest: seq<string>)
    requires i < m < |s| && s[m] == ' ' && rest != [] && Joined(rest, 0, |rest|, ' ') == s[m + 1..]
    ensures Joined([s[i..m]] + rest, 0, |rest| + 1, ' ') == s[i..]
  {
    hide Joined, IsSpace;
    JoinedFromFront(s[i..m], rest, |rest|, ' ');
    assert s[i..] == s[i..m] + [s[m]] + s[m + 1..];
  }

  lemma {:induction false} FlatFrom(s: string, i: nat)
    requires IsFlat(s) && i < |s| && !IsSpace(s[i])
    ensures Joined(SplitFrom(s, i), 0, |SplitFrom(s, i)|, ' ') == s[i..]
    decreases |s| - i
  {
    hide SplitFrom, SkipSpaces, IsFlat;
    var m := SkipWord(s, i);
    SplitAtWord(s, i);
    if m < |s| {
      FlatFrom(s, m + 1);
      JoinBeforeSpace(s, i, m, SplitFrom(s, m));
    }
  }

  lemma FlatOfFlat(s: string)
    ensures IsFlat(Flat(s))
    ensures IsFlat(s) ==> Flat(s) == s
  {
    SplitsIntoWords(s, 0);
    JoinIsFlat(Split(s), |Split(s)|);
    if IsFlat(s) && s != "" {
      FlatFrom(s, 0);
    }
  }

  /** What a prefix becomes does not depend on what follows it. */
  lemma {:induction false} ReplacedPrefix(a: string, b: string, k: nat, c: char)
    requires k <= |a| && a <= b
    ensures Replaced(b, k, c) == Replaced(a, k, c)
  {
    if k > 0 {
      assert b[k - 1] == a[k - 1] && (k > 1 ==> b[k - 2] == a[k - 2]);
      ReplacedPrefix(a, b, if EscapedPipe(a, k - 1) then k - 2 else k - 1, c);
    }
  }

  /** Escaping keeps a text's last character, and its blanks as they are; all its pipes are escaped. */
  lemma {:induction false} EscapedKeepsSpaces(x: string, k: nat)
    requires Spaced(x) && k <= |x|
    ensures var e := Escaped(x, k);
      Spaced(e) && PipesEscaped(e) && (e == "" <==> k == 0) && (k > 0 ==> e[|e| - 1] == x[k - 1])
  {
    if k > 0 { EscapedKeepsSpaces(x, k - 1); }
  }

  lemma {:induction false} ReplacedKeepsSpaces(x: string, k: nat)
    requires Spaced(x) && k <= |x|
    ensures var u := Replaced(x, k, PIPE); Spaced(u) && (u == "" <==> k == 0) && (k > 0 ==> u[|u| - 1] == x[k - 1])
  {
    if k > 0 { ReplacedKeepsSpaces(x, if EscapedPipe(x, k - 1) then k - 2 else k - 1); }
  }

  lemma {:induction false} UnescapeOfEscape(x: string, k: nat)
    requires k <= |x|
    ensures Unescape(Escaped(x, k)) == x[..k]
  {
    if k > 0 {
      var before, e := Escaped(x, k - 1), Escaped(x, k);
      UnescapeOfEscape(x, k - 1);
      ReplacedPrefix(before, e, |before|, PIPE);
      assert e[|e| - 1] == x[k - 1];
    }
  }

  lemma CellIsFlat(s: string)
    ensures IsFlat(Cell(s)) && PipesEscaped(Cell(s))
  {
    var f := Flat(s);
    FlatOfFlat(s);
    ReplacedKeepsSpaces(f, |f|);
    EscapedKeepsSpaces(Unescape(f), |Unescape(f)|);
  }

  /** Making a cell of a cell changes nothing. */
  lemma CellIsIdempotent(s: string)
    ensures Cell(Cell(s)) == Cell(s)
  {
    var u := Unescape(Flat(s));
    CellIsFlat(s);
    FlatOfFlat(Cell(s));
    UnescapeOfEscape(u, |u|);
    assert u[..|u|] == u;
  }

  /** From `d` on, text `t` is text `b`. */
  ghost predicate Shifted(t: string, d: nat, b: string) {
    |t| == d + |b| && forall k :: 0 <= k < |b| ==> t[d + k] == b[k]
  }

  lemma {:induction false} SpacesShift(t: string, d: nat, b: string, i: nat)
    requires Shifted(t, d, b) && i <= |b|
    ensures SkipSpaces(t, d + i) == d + SkipSpaces(b, i)
    decreases |b| - i
  {
    if i < |b| && IsSpace(b[i]) { SpacesShift(t, d, b, i + 1); }
  }

  lemma {:induction false} WordShift(t: string, d: nat, b: string, i: nat)
    requires Shifted(t, d, b) && i <= |b|
    ensures SkipWord(t, d + i) == d + SkipWord(b, i)
    decreases |b| - i
  {
    if i < |b| && !IsSpace(b[i]) { WordShift(t, d, b, i + 1); }
  }

  lemma SliceShift(t: string, d: nat, b: string, i: nat, m: nat)
    requires Shifted(t, d, b) && i <= m <= |b|
    ensures t[d + i..d + m] == b[i..m]
  {
    forall k | 0 <= k < m - i
      ensures t[d + i..d + m][k] == b[i..m][k]
    {
      assert t[d + (i + k)] == b[i + k];
    }
  }

  lemma ShiftedLength(t: string, d: nat, b: string)
    requires Shifted(t, d, b)
    ensures |t| == d + |b|
  {
  }

  /** A text's words are the same after another text, counted from its start. */
  lemma {:induction false} SplitShift(t: string, d: nat, b: string, i: nat)
    requires Shifted(t, d, b) && i <= |b|
    ensures d + i <= |t| && SplitFrom(t, d + i) == SplitFrom(b, i)
    decreases |b| - i
  {
    hide Shifted, SkipSpaces, SkipWord, SplitFrom;
    ShiftedLength(t, d, b);
    SpacesShift(t, d, b, i);
    SplitOne(t, d + i);
    SplitOne(b, i);
    var j := SkipSpaces(b, i);
    if j < |b| {
      WordShift(t, d, b, j);
      SliceShift(t, d, b, j, SkipWord(b, j));
      SplitShift(t, d, b, SkipWord(b, j));
    }
  }

  lemma SplitOne(s: string, i: nat)
    requires i <= |s|
    ensures var j := SkipSpaces(s, i);
      SplitFrom(s, i) == if j == |s| then [] else [s[j..SkipWord(s, j)]] + SplitFrom(s, SkipWord(s, j))
    ensures SkipSpaces(s, i) < |s| ==> SkipWord(s, SkipSpaces(s, i)) > i
  {
  }

  lemma WordEnds(word: string, rest: string)
    requires IsWord(word) && (rest != "" ==> rest[0] == ' ')
    ensures SkipSpaces(word + rest, 0) == 0 && SkipWord(word + rest, 0) == |word|
    ensures Shifted(word + rest, |word|, rest)
  {
    hide SkipSpaces, SkipWord;
    var s := word + rest;
    assert forall k :: 0 <= k < |word| ==> s[k] == word[k];
    assert rest != "" ==> s[|word|] == ' ';
    assert !IsSpace(s[0]);
  }

  lemma SplitFirst(word: string, rest: string)
    requires IsWord(word) && (rest != "" ==> rest[0] == ' ')
    ensures Split(word + rest) == [word] + Split(rest)
  {
    hide SkipSpaces, SkipWord, SplitFrom, Shifted;
    var s := word + rest;
    WordEnds(word, rest);
    SplitOne(s, 0);
    SplitShift(s, |word|, rest, 0);
    assert s[0..|word|] == word && |s| > 0;
  }

  lemma OneMoreWord(word: string, rest: seq<string>)
    requires IsWord(word) && Split(Joined(rest, 0, |rest|, ' ')) == rest
    ensures Split(Joined([word] + rest, 0, |rest| + 1, ' ')) == [word] + rest
  {
    hide Joined, SplitFrom, IsWord;
    var joined := Joined(rest, 0, |rest|, ' ');
    JoinedFromFront(word, rest, |rest|, ' ');
    if rest == [] {
      SplitFirst(word, "");
      assert word + "" == word;
      NoWords();
    } else {
      SplitFirst(word, " " + joined);
      assert word + [' '] + joined == word + (" " + joined);
      SpaceFirst(joined);
    }
  }

  lemma NoWords()
    ensures Split("") == []
  {
  }

  lemma {:induction false} SplitOfJoined(words: seq<string>)
    requires forall k :: 0 <= k < |words| ==> IsWord(words[k])
    ensures Split(Joined(words, 0, |words|, ' ')) == words
    decreases |words|
  {
    if words == [] {
      NoWords();
    } else {
      hide Joined, Split, IsWord;
      SplitOfJoined(words[1..]);
      OneMoreWord(words[0], words[1..]);
      assert [words[0]] + words[1..] == words;
    }
  }

  lemma SpaceFirst(s: string)
    ensures Split(" " + s) == Split(s)
  {
    var t := " " + s;
    assert t[0] == ' ' && Shifted(t, 1, s);
    SplitShift(t, 1, s, 0);
    assert SkipSpaces(t, 0) == SkipSpaces(t, 1);
  }

  /** A cell keeps its text: its words, and with the pipes no longer escaped its characters. */
  lemma CellKeepsText(s: string)
    ensures Split(Flat(s)) == Split(s)
    ensures Unescape(Cell(s)) == Unescape(Flat(s))
  {
    SplitsIntoWords(s, 0);
    SplitOfJoined(Split(s));
    var u := Unescape(Flat(s));
    UnescapeOfEscape(u, |u|);
    assert u[..|u|] == u;
  }

  // ----- `row_cells` parts a text at its live pipes

  /** A pipe that is neither hidden nor escaped. */
  predicate LivePipe(s: string, hidden: nat -> bool, k: nat)
    requires k < |s|
  {
    s[k] == PIPE && !hidden(k) && !EscapedPipe(s, k)
  }

  /** The first `k` characters, parted at the live pipes and otherwise as written. */
  function PartedTo(s: string, hidden: nat -> bool, k: nat): Pieces
    requires k <= |s|
  {
    if k == 0 then NO_PIECES
    else if LivePipe(s, hidden, k - 1) then PartedTo(s, hidden, k - 1).Next()
    else PartedTo(s, hidden, k - 1).Add([s[k - 1]])
  }

  /** No character of a text is one of the two placeholders. */
  predicate NoPlaceholder(s: string) { forall k :: 0 <= k < |s| ==> s[k] != NUL && s[k] != SOH }

  lemma {:induction false} SplitPrefix(a: string, b: string, k: nat)
    requires k <= |a| && a <= b
    ensures SplitTo(b, k) == SplitTo(a, k)
  {
    if k > 0 { SplitPrefix(a, b, k - 1); }
  }

  lemma SplitOneMore(a: string, x: char)
    ensures SplitTo(a + [x], |a| + 1) == if x == PIPE then SplitTo(a, |a|).Next() else SplitTo(a, |a|).Add([x])
  {
    SplitPrefix(a, a + [x], |a|);
  }

  lemma {:induction false} RestoredPrefix(a: string, b: string, k: nat)
    requires k <= |a| && a <= b
    ensures RestoredTo(b, k) == RestoredTo(a, k)
  {
    if k > 0 { RestoredPrefix(a, b, k - 1); }
  }

  function RestoredPieces(p: Pieces): Pieces { Pieces(RestoredAll(p.done), Restored(p.last)) }

  /** The pieces of a text split at its pipes, with the placeholders put back. */
  function Shown(r: string): Pieces { RestoredPieces(SplitTo(r, |r|)) }

  lemma RestoredOneMore(s: string, x: char)
    ensures Restored(s + [x]) == Restored(s) + PutBack(x)
  {
    RestoredPrefix(s, s + [x], |s|);
  }

  lemma RestoredNext(p: Pieces)
    ensures RestoredPieces(p.Next()) == RestoredPieces(p).Next()
  {
    assert RestoredAll(p.done + [p.last]) == RestoredAll(p.done) + [Restored(p.last)];
  }

  lemma ShownOneMore(r: string, a: string, x: char)
    requires r == a + [x]
    ensures Shown(r) == if x == PIPE then Shown(a).Next() else Shown(a).Add(PutBack(x))
  {
    var p := SplitTo(a, |a|);
    SplitOneMore(a, x);
    RestoredOneMore(p.last, x);
    RestoredNext(p);
  }

  lemma RestoredMore(p: Pieces, x: char)
    ensures RestoredPieces(p.Add([x])) == RestoredPieces(p).Add(PutBack(x))
  {
    RestoredOneMore(p.last, x);
  }

  lemma RestoredEscape(p: Pieces)
    ensures RestoredPieces(p.Add([ESCAPE, PIPE])) == RestoredPieces(p).Add([ESCAPE, PIPE])
  {
    RestoredMore(p, ESCAPE);
    RestoredMore(p.Add([ESCAPE]), PIPE);
    assert p.last + [ESCAPE] + [PIPE] == p.last + [ESCAPE, PIPE];
    assert Restored(p.last) + [ESCAPE] + [PIPE] == Restored(p.last) + [ESCAPE, PIPE];
  }

  /** What an escaped pipe adds to the pieces, and to the parts. */
  lemma EscapedStep(s: string, m: string, hidden: nat -> bool, k: nat)
    requires m == MaskedAt(s, hidden) && 0 < k <= |s| && EscapedPipe(m, k - 1)
    ensures Shown(Replaced(m, k, SOH)) == Shown(Replaced(m, k - 2, SOH)).Add([ESCAPE, PIPE])
    ensures RestoredPieces(PartedTo(s, hidden, k)) ==
      RestoredPieces(PartedTo(s, hidden, k - 2)).Add([ESCAPE, PIPE])
  {
    ShownOneMore(Replaced(m, k, SOH), Replaced(m, k - 2, SOH), SOH);
    PartedAtEscape(s, hidden, k);
    RestoredEscape(PartedTo(s, hidden, k - 2));
  }

  lemma PartedAtEscape(s: string, hidden: nat -> bool, k: nat)
    requires 2 <= k <= |s| && s[k - 1] == PIPE && s[k - 2] == ESCAPE
    ensures PartedTo(s, hidden, k) == PartedTo(s, hidden, k - 2).Add([ESCAPE, PIPE])
  {
    var before := PartedTo(s, hidden, k - 2);
    assert PartedTo(s, hidden, k - 1) == before.Add([ESCAPE]);
    assert before.last + [ESCAPE] + [PIPE] == before.last + [ESCAPE, PIPE];
  }

  lemma NothingShown()
    ensures Shown("") == RestoredPieces(NO_PIECES)
  {
    assert Restored("") == "";
  }

  /** What any other character adds to the pieces, and to the parts. */
  lemma PlainStep(s: string, m: string, hidden: nat -> bool, k: nat)
    requires m == MaskedAt(s, hidden) && 0 < k <= |s| && !EscapedPipe(m, k - 1)
    ensures Shown(Replaced(m, k, SOH)) == if LivePipe(s, hidden, k - 1) then Shown(Replaced(m, k - 1, SOH)).Next()
      else Shown(Replaced(m, k - 1, SOH)).Add(PutBack(s[k - 1]))
  {
    ShownOneMore(Replaced(m, k, SOH), Replaced(m, k - 1, SOH), m[k - 1]);
  }

  lemma RestoredStep(p: Pieces, x: char, live: bool)
    ensures RestoredPieces(if live then p.Next() else p.Add([x])) ==
      if live then RestoredPieces(p).Next() else RestoredPieces(p).Add(PutBack(x))
  {
    RestoredNext(p);
    RestoredMore(p, x);
  }

  /** A text without placeholders is kept, and none are left in any other. */
  lemma {:induction false} RestoredIs(s: string, k: nat)
    requires k <= |s|
    ensures NoPlaceholder(RestoredTo(s, k))
    ensures NoPlaceholder(s) ==> RestoredTo(s, k) == s[..k]
  {
    if k > 0 { RestoredIs(s, k - 1); }
  }

  /**
   With the placeholders, replacing, splitting and putting back part a text exactly at its live
   pipes, and keep every other character but a placeholder that was there before.
   */
  lemma {:induction false} ShownIsParted(s: string, m: string, hidden: nat -> bool, k: nat)
    requires m == MaskedAt(s, hidden) && k <= |s|
    ensures Shown(Replaced(m, k, SOH)) == RestoredPieces(PartedTo(s, hidden, k))
  {
    if k == 0 {
      NothingShown();
    } else {
      if EscapedPipe(m, k - 1) {
        ShownIsParted(s, m, hidden, k - 2);
        EscapedStep(s, m, hidden, k);
      } else {
        ShownIsParted(s, m, hidden, k - 1);
        PlainStep(s, m, hidden, k);
        RestoredStep(PartedTo(s, hidden, k - 1), s[k - 1], LivePipe(s, hidden, k - 1));
      }
    }
  }

  // ----- Rows

  /** The row of the first `n` cells, as `render` writes it: `| c1 | c2 |`. */
  function RowTo(cells: seq<string>, n: nat): (r: string)
    requires n <= |cells|
  {
    if n == 0 then [PIPE] else RowTo(cells, n - 1) + [' '] + cells[n - 1] + [' ', PIPE]
  }

  function Row(cells: seq<string>): string { RowTo(cells, |cells|) }

  /** Where the pipe after the first `n` cells is. */
  function PipeAt(cells: seq<string>, n: nat): nat
    requires n <= |cells|
  {
    if n == 0 then 0 else PipeAt(cells, n - 1) + |cells[n - 1]| + 3
  }

  /** A text holds cell `i` of a row, and the blanks and the pipe after it, at their places. */
  ghost predicate HoldsCell(r: string, cells: seq<string>, i: nat)
    requires i < |cells|
  {
    var p, c := PipeAt(cells, i), cells[i];
    p + |c| + 3 < |r| && r[p + 1] == ' ' && (forall k :: 0 <= k < |c| ==> r[p + 2 + k] == c[k]) &&
    r[p + 2 + |c|] == ' ' && r[p + 3 + |c|] == PIPE
  }

  lemma HoldsInPrefix(a: string, b: string, cells: seq<string>, i: nat)
    requires i < |cells| && a <= b && HoldsCell(a, cells, i)
    ensures HoldsCell(b, cells, i)
  {
  }

  lemma {:induction false} RowHoldsCells(cells: seq<string>, n: nat, i: nat)
    requires n <= |cells|
    ensures |RowTo(cells, n)| == PipeAt(cells, n) + 1 && RowTo(cells, n)[0] == PIPE
    ensures i < n ==> HoldsCell(RowTo(cells, n), cells, i)
  {
    if n > 0 {
      RowHoldsCells(cells, n - 1, i);
      if i < n - 1 {
        HoldsInPrefix(RowTo(cells, n - 1), RowTo(cells, n), cells, i);
      }
    }
  }

  /** What the cells have in common that `cell` makes: tight, and every pipe escaped. */
  predicate Tight(c: string) { c != "" ==> !IsSpace(c[0]) && !IsSpace(c[|c| - 1]) }

  ghost predicate AreCells(cells: seq<string>) {
    forall i :: 0 <= i < |cells| ==> Tight(cells[i]) && PipesEscaped(cells[i])
  }

  lemma {:induction false} PartedWhereNoPipe(r: string, hidden: nat -> bool, a: nat, b: nat)
    requires a <= b <= |r| && forall k :: a <= k < b ==> !LivePipe(r, hidden, k)
    ensures PartedTo(r, hidden, b) == PartedTo(r, hidden, a).Add(r[a..b])
  {
    var last := PartedTo(r, hidden, a).last;
    if a == b {
      assert last + r[a..b] == last;
    } else {
      PartedWhereNoPipe(r, hidden, a, b - 1);
      assert last + r[a..b] == last + r[a..b - 1] + [r[b - 1]];
    }
  }

  function Pad(c: string): string { [' '] + c + [' '] }

  lemma NoLivePipeInCell(r: string, cells: seq<string>, hidden: nat -> bool, i: nat)
    requires AreCells(cells) && i < |cells| && HoldsCell(r, cells, i)
    ensures forall k :: PipeAt(cells, i) < k < PipeAt(cells, i + 1) ==> !LivePipe(r, hidden, k)
    ensures r[PipeAt(cells, i) + 1..PipeAt(cells, i + 1)] == Pad(cells[i])
  {
    var p, e, c := PipeAt(cells, i), PipeAt(cells, i + 1), cells[i];
    assert e == p + |c| + 3;
    forall k | p < k < e
      ensures !LivePipe(r, hidden, k)
    {
      if p + 2 <= k < e - 1 {
        assert r[k] == c[k - p - 2];
        assert k > p + 2 ==> r[k - 1] == c[k - p - 3];
      } else {
        assert k == p + 1 || k == e - 1;
      }
    }
    forall k | 0 <= k < |Pad(c)|
      ensures r[p + 1..e][k] == Pad(c)[k]
    {
      if 0 < k <= |c| {
        assert r[p + 2 + (k - 1)] == c[k - 1];
      }
    }
  }

  /** No pipe of a cell is live in its row; the pipe after it is, unless it is hidden. */
  lemma PartedOverCell(r: string, cells: seq<string>, hidden: nat -> bool, i: nat)
    requires AreCells(cells) && i < |cells| && HoldsCell(r, cells, i)
    ensures PipeAt(cells, i) < PipeAt(cells, i + 1) < |r|
    ensures var parts := PartsAt(r, cells, hidden, i).Add(Pad(cells[i]));
      PartsAt(r, cells, hidden, i + 1) == if hidden(PipeAt(cells, i + 1)) then parts.Add([PIPE]) else parts.Next()
  {
    var p, e := PipeAt(cells, i), PipeAt(cells, i + 1);
    assert e == p + |cells[i]| + 3;
    NoLivePipeInCell(r, cells, hidden, i);
    PartedWhereNoPipe(r, hidden, p + 1, e);
  }

  /** What has been read once the pipe after the first `n` cells is. */
  function PartsAt(r: string, cells: seq<string>, hidden: nat -> bool, n: nat): Pieces
    requires n <= |cells| && PipeAt(cells, n) < |r|
  {
    PartedTo(r, hidden, PipeAt(cells, n) + 1)
  }

  function Padded(cells: seq<string>, n: nat): (r: seq<string>)
    requires n <= |cells|
    ensures |r| == n && forall i :: 0 <= i < n ==> r[i] == Pad(cells[i])
  {
    seq(n, i requires 0 <= i < n => Pad(cells[i]))
  }

  /** A separator among the first `n` is hidden. */
  ghost predicate HidesOne(cells: seq<string>, hidden: nat -> bool, n: nat)
    requires n <= |cells|
  {
    exists i :: 0 <= i <= n && hidden(PipeAt(cells, i))
  }

  /** The text holds the cells of a row at their places. */
  ghost predicate HoldsRow(r: string, cells: seq<string>) {
    AreCells(cells) && |r| == PipeAt(cells, |cells|) + 1 && r[0] == PIPE &&
      forall i :: 0 <= i < |cells| ==> HoldsCell(r, cells, i)
  }

  lemma {:induction false} PipesInRow(cells: seq<string>, n: nat, m: nat)
    requires n <= m <= |cells|
    ensures PipeAt(cells, n) <= PipeAt(cells, m)
  {
    if n < m { PipesInRow(cells, n, m - 1); }
  }

  /** The parts of a row are one more than its separators that are not hidden. */
  lemma {:induction false} CountParts(r: string, cells: seq<string>, hidden: nat -> bool, n: nat)
    requires HoldsRow(r, cells) && n <= |cells| && PipeAt(cells, n) < |r|
    ensures var count := |PartsAt(r, cells, hidden, n).done|;
      count <= n + 1 && (count == n + 1 <==> !HidesOne(cells, hidden, n))
  {
    if n == 0 {
      assert HidesOne(cells, hidden, 0) <==> hidden(0);
      assert PartedTo(r, hidden, 0) == NO_PIECES;
    } else {
      assert HoldsCell(r, cells, n - 1);
      PartedOverCell(r, cells, hidden, n - 1);
      CountParts(r, cells, hidden, n - 1);
      HidesOneMore(cells, hidden, n);
    }
  }

  /** When no separator is hidden, the parts are the cells, padded, between two empty ones. */
  lemma {:induction false} PartsAreCells(r: string, cells: seq<string>, hidden: nat -> bool, n: nat)
    requires HoldsRow(r, cells) && n <= |cells| && PipeAt(cells, n) < |r| && !HidesOne(cells, hidden, n)
    ensures PartsAt(r, cells, hidden, n) == Pieces([""] + Padded(cells, n), "")
  {
    if n == 0 {
      assert !hidden(PipeAt(cells, 0));
      assert PartedTo(r, hidden, 0) == NO_PIECES;
    } else {
      assert HoldsCell(r, cells, n - 1);
      PartedOverCell(r, cells, hidden, n - 1);
      HidesOneMore(cells, hidden, n);
      PartsAreCells(r, cells, hidden, n - 1);
      assert "" + Pad(cells[n - 1]) == Pad(cells[n - 1]);
      assert Padded(cells, n) == Padded(cells, n - 1) + [Pad(cells[n - 1])];
    }
  }

  lemma HidesOneMore(cells: seq<string>, hidden: nat -> bool, n: nat)
    requires 0 < n <= |cells|
    ensures HidesOne(cells, hidden, n) <==> HidesOne(cells, hidden, n - 1) || hidden(PipeAt(cells, n))
  {
  }

  // ----- The ends of a row

  lemma {:induction false} ReplacedStart(m: string, k: nat)
    requires 2 <= k <= |m| && m[0] == PIPE && m[1] == ' '
    ensures var r := Replaced(m, k, SOH); |r| >= 2 && r[0] == PIPE && r[1] == ' '
  {
    if k > 2 {
      ReplacedStart(m, if EscapedPipe(m, k - 1) then k - 2 else k - 1);
    } else {
      assert Replaced(m, 1, SOH) == [PIPE];
    }
  }

  lemma ReplacedEnds(m: string)
    requires |m| >= 4 && m[0] == PIPE == m[|m| - 1] && m[1] == ' ' == m[|m| - 2]
    ensures var r := Replaced(m, |m|, SOH); |r| >= 4 && r[0] == PIPE == r[|r| - 1] && r[1] == ' ' == r[|r| - 2]
  {
    ReplacedStart(m, |m| - 2);
  }

  lemma StripRow(r: string)
    requires |r| >= 4 && r[0] == PIPE == r[|r| - 1] && r[1] == ' ' == r[|r| - 2]
    ensures StripPipes(Strip(r)) == r[1..|r| - 1]
  {
    assert SkipSpaces(r, 0) == 0 && TrimTo(r, 0, |r|) == |r|;
    assert r[0..|r|] == r;
    assert LeadingPipes(r, 1) == 1 && TrailingPipes(r, 1, |r| - 1) == |r| - 1;
  }

  lemma {:induction false} SplitInside(r: string, inner: string, k: nat)
    requires r != "" && r[0] == PIPE && k <= |inner| < |r| && forall j :: 0 <= j < |inner| ==> inner[j] == r[j + 1]
    ensures SplitTo(r, k + 1) == Pieces([""] + SplitTo(inner, k).done, SplitTo(inner, k).last)
  {
    if k == 0 {
      assert SplitTo(r, 0) == NO_PIECES;
    } else {
      SplitInside(r, inner, k - 1);
    }
  }

  lemma SplitBetweenPipes(r: string)
    requires |r| >= 2 && r[0] == PIPE == r[|r| - 1]
    ensures var inner := r[1..|r| - 1]; SplitTo(r, |r|) == Pieces([""] + SplitTo(inner, |inner|).All(), "")
  {
    SplitInside(r, r[1..|r| - 1], |r| - 2);
  }

  /** The first and the last pipe of a text are in no code span. */
  lemma EdgesNotInCode(text: string)
    requires text != "" && text[0] == PIPE == text[|text| - 1]
    ensures !InCode(text)(0) && !InCode(text)(|text| - 1)
  {
    SpansAreApart(text, 0);
    var spans := Spans(text);
    assert forall a :: 0 <= a < |spans| ==> IsSpan(text, 0, spans[a]);
  }

  lemma RowEnds(cells: seq<string>)
    requires cells != []
    ensures var r := Row(cells); |r| >= 4 && r[0] == PIPE == r[|r| - 1] && r[1] == ' ' == r[|r| - 2]
  {
    RowHoldsCells(cells, |cells|, 0);
    RowHoldsCells(cells, |cells|, |cells| - 1);
  }

  lemma ShownBetweenPipes(x: string)
    requires |x| >= 4 && x[0] == PIPE == x[|x| - 1] && x[1] == ' ' == x[|x| - 2]
    ensures var inner := StripPipes(Strip(x));
      Shown(x).done != [] && RestoredAll(SplitTo(inner, |inner|).All()) == Shown(x).done[1..]
  {
    hide StripPipes, Strip, SplitTo, Restored;
    StripRow(x);
    SplitBetweenPipes(x);
    var inner := x[1..|x| - 1];
    assert RestoredAll([""] + SplitTo(inner, |inner|).All())[1..] == RestoredAll(SplitTo(inner, |inner|).All());
  }

  /** What `row_cells` reads in a row: its parts but the first and the last. */
  lemma RowCellsAreParts(cells: seq<string>)
    requires cells != []
    ensures var r, parts := Row(cells), PartedTo(Row(cells), InCode(Row(cells)), |Row(cells)|);
      parts.done != [] && RowCells(r) == StrippedAll(RestoredAll(parts.done[1..]))
  {
    var r, hidden := Row(cells), InCode(Row(cells));
    var m := MaskedAt(r, hidden);
    RowEnds(cells);
    EdgesNotInCode(r);
    ReplacedEnds(m);
    ShownBetweenPipes(Replaced(m, |m|, SOH));
    ShownIsParted(r, m, hidden, |r|);
  }

  /** The condition on a row: a code span of it runs over the pipe between two cells. */
  ghost predicate SpanOverPipe(cells: seq<string>) {
    exists i, a :: 0 < i < |cells| && 0 <= a < |Spans(Row(cells))| &&
      Spans(Row(cells))[a].start <= PipeAt(cells, i) < Spans(Row(cells))[a].end
  }

  lemma StripPadded(c: string)
    requires Tight(c)
    ensures Strip(Pad(c)) == c
  {
    var s := Pad(c);
    if c == "" {
      assert SkipSpaces(s, 1) == 2;
    } else {
      assert s[1] == c[0] && s[|c|] == c[|c| - 1];
      assert SkipSpaces(s, 1) == 1 && TrimTo(s, 1, |c| + 1) == |c| + 1;
      assert s[1..|c| + 1] == c;
    }
  }

  ghost predicate NoPlaceholders(cells: seq<string>) { forall i :: 0 <= i < |cells| ==> NoPlaceholder(cells[i]) }

  lemma NoPlaceholderRead(text: string)
    ensures NoPlaceholders(RowCells(text))
  {
    hide MaskedAt, StripPipes, Replaced, RestoredTo, SplitTo, Strip, NoPlaceholder;
    var masked := MaskedAt(text, InCode(text));
    var inner := StripPipes(Strip(Replaced(masked, |masked|, SOH)));
    var pieces := SplitTo(inner, |inner|).All();
    forall i | 0 <= i < |pieces|
      ensures NoPlaceholder(Strip(Restored(pieces[i])))
    {
      RestoredIs(pieces[i], |pieces[i]|);
      NoneInStripped(Restored(pieces[i]));
    }
  }

  lemma NoneInStripped(s: string)
    requires NoPlaceholder(s)
    ensures NoPlaceholder(Strip(s))
  {
  }

  lemma PaddedIsRestored(cells: seq<string>)
    requires NoPlaceholders(cells)
    ensures RestoredAll(Padded(cells, |cells|)) == Padded(cells, |cells|)
  {
    forall i | 0 <= i < |cells|
      ensures Restored(Pad(cells[i])) == Pad(cells[i])
    {
      var p := Pad(cells[i]);
      RestoredIs(p, |p|);
      assert p[..|p|] == p;
    }
  }

  lemma RowIsHeld(cells: seq<string>)
    requires AreCells(cells)
    ensures HoldsRow(Row(cells), cells)
  {
    RowHoldsCells(cells, |cells|, 0);
    forall i | 0 <= i < |cells| { RowHoldsCells(cells, |cells|, i); }
  }

  lemma StrippedPadded(cells: seq<string>)
    requires AreCells(cells)
    ensures StrippedAll(Padded(cells, |cells|)) == cells
  {
    forall i | 0 <= i < |cells| { StripPadded(cells[i]); }
  }

  lemma RowsReadBack(cells: seq<string>)
    requires cells != [] && AreCells(cells) && NoPlaceholders(cells)
    ensures RowCells(Row(cells)) == cells <==> !SpanOverPipe(cells)
  {
    var n, r, hidden := |cells|, Row(cells), InCode(Row(cells));
    RowCellsAreParts(cells);
    RowIsHeld(cells);
    SpanIffHidden(cells);
    CountParts(r, cells, hidden, n);
    if !SpanOverPipe(cells) {
      PartsAreCells(r, cells, hidden, n);
      assert PartsAt(r, cells, hidden, n).done[1..] == Padded(cells, n);
      PaddedIsRestored(cells);
      StrippedPadded(cells);
    }
  }

  /**
   Table rows round-trip: a row of cells that `cell` makes is read back as exactly those cells if
   and only if they hold no NUL or SOH, and no code span runs over the pipe between two of them.
   */
  lemma RowsRoundTripIff(cells: seq<string>)
    requires cells != []
    requires forall i :: 0 <= i < |cells| ==> Cell(cells[i]) == cells[i]
    ensures RowCells(Row(cells)) == cells <==> NoPlaceholders(cells) && !SpanOverPipe(cells)
  {
    forall i | 0 <= i < |cells| { CellIsFlat(cells[i]); }
    NoPlaceholderRead(Row(cells));
    if NoPlaceholders(cells) { RowsReadBack(cells); }
  }

  lemma TickIsCell()
    ensures Cell("`") == "`"
  {
    var t := "`";
    FlatOfFlat(t);
    assert Flat(t) == t;
    hide Flat, IsSpace;
    assert Replaced(t, 0, PIPE) == "" && Escaped(t, 0) == "";
    assert Replaced(t, 1, PIPE) == "" + "`" == t && Escaped(t, 1) == "" + "`" == t;
  }

  lemma SpanOfTicks(s: string)
    requires s == "| ` | ` |"
    ensures |Spans(s)| > 0 && Spans(s)[0] == Span(2, 7)
  {
    assert Ticks(s, 0) == Ticks(s, 1) == Ticks(s, 3) == Ticks(s, 4) == Ticks(s, 5) == 0;
    assert Ticks(s, 6) == Ticks(s, 2) == 1;
    assert CloseFrom(s, 5, 1) == Some(6);
    assert CloseFrom(s, 4, 1) == Some(6);
    assert SpanEnd(s, 2, 1) == Some(7);
    assert SpansFrom(s, 1) == SpansFrom(s, 2);
  }

  lemma RowOfTicks(cells: seq<string>)
    requires cells == ["`", "`"]
    ensures Row(cells) == "| ` | ` |" && PipeAt(cells, 1) == 4
  {
    assert RowTo(cells, 1) == "| ` |";
  }

  /** Two cells of a backtick each: the code span they make runs over the pipe between them. */
  lemma TicksRunTogether()
    ensures var cells := ["`", "`"];
      && (forall i :: 0 <= i < |cells| ==> Cell(cells[i]) == cells[i]) && NoPlaceholders(cells)
      && SpanOverPipe(cells) && RowCells(Row(cells)) != cells
  {
    hide RowCells, Cell, PipesEscaped, RowTo, PipeAt, Spans, Ticks, SpanEnd;
    var cells := ["`", "`"];
    TickIsCell();
    RowOfTicks(cells);
    SpanOfTicks(Row(cells));
    RowsRoundTripIff(cells);
  }

  lemma SpanIffHidden(cells: seq<string>)
    requires cells != []
    ensures SpanOverPipe(cells) <==> HidesOne(cells, InCode(Row(cells)), |cells|)
  {
    var r, spans, hidden := Row(cells), Spans(Row(cells)), InCode(Row(cells));
    RowEnds(cells);
    RowHoldsCells(cells, |cells|, 0);
    EdgesNotInCode(r);
    if SpanOverPipe(cells) {
      var i, a :| 0 < i < |cells| && 0 <= a < |spans| && spans[a].start <= PipeAt(cells, i) < spans[a].end;
      assert hidden(PipeAt(cells, i));
    }
    if HidesOne(cells, hidden, |cells|) {
      var i :| 0 <= i <= |cells| && hidden(PipeAt(cells, i));
      var a :| 0 <= a < |spans| && spans[a].start <= PipeAt(cells, i) < spans[a].end;
    }
  }

  /** In particular, rows of cells without backticks round-trip, escaped pipes and all. */
  lemma PlainRowsRoundTrip(cells: seq<string>)
    requires cells != []
    requires forall i :: 0 <= i < |cells| ==> Cell(cells[i]) == cells[i]
    requires forall i, k :: 0 <= i < |cells| && 0 <= k < |cells[i]| ==> cells[i][k] != TICK
    ensures RowCells(Row(cells)) == cells <==> NoPlaceholders(cells)
  {
    NoTickInRow(cells, |cells|);
    NoTickNoSpan(Row(cells), 0);
    RowsRoundTripIff(cells);
  }

  lemma {:induction false} NoTickInRow(cells: seq<string>, n: nat)
    requires n <= |cells| && forall i, k :: 0 <= i < |cells| && 0 <= k < |cells[i]| ==> cells[i][k] != TICK
    ensures forall k :: 0 <= k < |RowTo(cells, n)| ==> RowTo(cells, n)[k] != TICK
  {
    if n > 0 { NoTickInRow(cells, n - 1); }
  }
}
