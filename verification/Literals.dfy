/**
 The string-literal scanner of scripts/check-prose.py, which knows `\"` escapes and nothing
 else. `Scanned` is what its two nested loops compute; `Printed` is the line that a list of
 literal bodies is printed as, and the two are inverse to each other.
 */
module Literals {

  const QUOTE := '"'
  const ESCAPE := '\\'

  /**
   The inner loop from `j`: the position of the quote that closes the literal, or the
   line's length if the literal is not closed on this line.
   */
  function CloseFrom(line: string, j: nat): (r: nat)
    ensures r >= |line| || (j <= r && line[r] == QUOTE)
    decreases |line| - j
  {
    if j >= |line| then j
    else if line[j] == ESCAPE && j + 1 < |line| then CloseFrom(line, j + 2)
    else if line[j] == QUOTE then j
    else CloseFrom(line, j + 1)
  }

  /** The literals of a line from `i` on. */
  function ScannedFrom(line: string, i: nat): seq<string>
    decreases |line| - i
  {
    if i >= |line| then []
    else if line[i] != QUOTE then ScannedFrom(line, i + 1)
    else
      var j := CloseFrom(line, i + 1);
      if j >= |line| then [] else [line[i + 1..j]] + ScannedFrom(line, j + 1)
  }

  function Scanned(line: string): seq<string> { ScannedFrom(line, 0) }

  /** The inner loop: the body of the literal opened at `i`, and where it ends. */
  method ScanBody(line: string, i: nat) returns (j: nat, buf: string)
    requires i < |line|
    ensures i < j <= |line| && j == CloseFrom(line, i + 1) && buf == line[i + 1..j]
  {
    j, buf := i + 1, [];
    while j < |line|
      invariant i < j <= |line| && buf == line[i + 1..j]
      invariant CloseFrom(line, j) == CloseFrom(line, i + 1)
      decreases |line| - j
    {
      if line[j] == ESCAPE && j + 1 < |line| {
        assert line[i + 1..j + 2] == line[i + 1..j] + line[j..j + 2];
        buf := buf + line[j..j + 2];
        j := j + 2;
        continue;
      }
      if line[j] == QUOTE { break; }
      buf := buf + [line[j]];
      j := j + 1;
    }
  }

  method LiteralsOf(line: string) returns (out: seq<string>)
    ensures out == Scanned(line)
  {
    hide CloseFrom;
    out := [];
    var i, n := 0, |line|;
    while i < n
      invariant out + ScannedFrom(line, i) == Scanned(line)
      decreases n - i
    {
      if line[i] != QUOTE {
        i := i + 1;
        continue;
      }
      var j, buf := ScanBody(line, i);
      if j >= n { break; }
      out := out + [buf];
      i := j + 1;
    }
  }

  // ----- Printing

  predicate QuoteFree(s: string) { forall k :: 0 <= k < |s| ==> s[k] != QUOTE }

  /** Every quote in a body is escaped, and no escape dangles at its end. */
  predicate WellEscaped(body: string)
  {
    if body == [] then true
    else if body[0] == ESCAPE then |body| >= 2 && WellEscaped(body[2..])
    else body[0] != QUOTE && WellEscaped(body[1..])
  }

  /** A text after an opening quote that never meets the quote that closes it. */
  predicate Unclosed(s: string)
  {
    if s == [] then true
    else if s[0] == ESCAPE then |s| < 2 || Unclosed(s[2..])
    else s[0] != QUOTE && Unclosed(s[1..])
  }

  /** What may follow the last literal: no quote, or an opening quote that nothing closes. */
  predicate IsTail(s: string)
  {
    s == [] || if s[0] == QUOTE then Unclosed(s[1..]) else IsTail(s[1..])
  }

  datatype Piece = Piece(before: string, body: string)

  /** A quote-free separator before each body; its quotes are escaped and no escape dangles. */
  predicate Printable(pieces: seq<Piece>) {
    forall k :: 0 <= k < |pieces| ==> QuoteFree(pieces[k].before) && WellEscaped(pieces[k].body)
  }

  function Printed(pieces: seq<Piece>, tail: string): string {
    if pieces == [] then tail
    else pieces[0].before + [QUOTE] + pieces[0].body + [QUOTE] + Printed(pieces[1..], tail)
  }

  function Bodies(pieces: seq<Piece>): (r: seq<string>)
    ensures |r| == |pieces|
    ensures forall k :: 0 <= k < |pieces| ==> r[k] == pieces[k].body
  {
    seq(|pieces|, k requires 0 <= k < |pieces| => pieces[k].body)
  }

  // ----- The scanner inverts the printer

  lemma {:induction false} SkipSeparator(line: string, i: nat, k: nat)
    requires i <= k <= |line| && QuoteFree(line[i..k])
    ensures ScannedFrom(line, i) == ScannedFrom(line, k)
    decreases k - i
  {
    if i < k {
      assert line[i..k][0] == line[i];
      assert line[i + 1..k] == line[i..k][1..];
      SkipSeparator(line, i + 1, k);
    }
  }

  lemma {:induction false} ClosesAfterBody(line: string, j: nat, k: nat)
    requires j <= k < |line| && WellEscaped(line[j..k]) && line[k] == QUOTE
    ensures CloseFrom(line, j) == k
    decreases k - j
  {
    if j < k {
      var body := line[j..k];
      assert body[0] == line[j];
      var step := if line[j] == ESCAPE then 2 else 1;
      assert line[j + step..k] == body[step..];
      ClosesAfterBody(line, j + step, k);
    }
  }

  lemma {:induction false} NeverCloses(line: string, j: nat)
    requires j <= |line|
    ensures Unclosed(line[j..]) <==> CloseFrom(line, j) >= |line|
    decreases |line| - j
  {
    if j < |line| {
      assert line[j..][0] == line[j];
      if line[j] == ESCAPE {
        if j + 1 < |line| {
          assert line[j + 2..] == line[j..][2..];
          NeverCloses(line, j + 2);
        }
      } else if line[j] != QUOTE {
        assert line[j + 1..] == line[j..][1..];
        NeverCloses(line, j + 1);
      }
    }
  }

  lemma {:induction false} NothingInTail(line: string, i: nat)
    requires i <= |line| && IsTail(line[i..])
    ensures ScannedFrom(line, i) == []
    decreases |line| - i
  {
    if i < |line| {
      assert line[i + 1..] == line[i..][1..];
      if line[i] == QUOTE {
        NeverCloses(line, i + 1);
      } else {
        NothingInTail(line, i + 1);
      }
    }
  }

  /** Where the parts of a printed piece lie in the line. */
  lemma PieceAt(line: string, i: nat, p: Piece, rest: string)
    requires i <= |line| && line[i..] == p.before + [QUOTE] + p.body + [QUOTE] + rest
    ensures var open := i + |p.before|; var close := open + 1 + |p.body|;
      close < |line| && line[i..open] == p.before && line[open] == QUOTE == line[close] &&
      line[open + 1..close] == p.body && line[close + 1..] == rest
  {
    var s := line[i..];
    var open, close := |p.before|, |p.before| + 1 + |p.body|;
    assert s[..open] == p.before && s[open] == QUOTE;
    assert s[open + 1..close] == p.body && s[close] == QUOTE && s[close + 1..] == rest;
    assert line[i..i + open] == s[..open] && line[i + open + 1..i + close] == s[open + 1..close];
    assert line[i + close + 1..] == s[close + 1..];
  }

  lemma ScansOnePiece(line: string, i: nat, p: Piece, rest: string)
    requires i <= |line| && line[i..] == p.before + [QUOTE] + p.body + [QUOTE] + rest
    requires QuoteFree(p.before) && WellEscaped(p.body)
    ensures var next := i + |p.before| + |p.body| + 2;
      next <= |line| && line[next..] == rest && ScannedFrom(line, i) == [p.body] + ScannedFrom(line, next)
  {
    hide CloseFrom, WellEscaped;
    var open := i + |p.before|;
    PieceAt(line, i, p, rest);
    SkipSeparator(line, i, open);
    ClosesAfterBody(line, open + 1, open + 1 + |p.body|);
  }

  lemma {:induction false} ScansPrintedFrom(line: string, i: nat, pieces: seq<Piece>, tail: string)
    requires i <= |line| && line[i..] == Printed(pieces, tail)
    requires Printable(pieces) && IsTail(tail)
    ensures ScannedFrom(line, i) == Bodies(pieces)
    decreases |pieces|
  {
    if pieces == [] {
      NothingInTail(line, i);
    } else {
      var p := pieces[0];
      ScansOnePiece(line, i, p, Printed(pieces[1..], tail));
      ScansPrintedFrom(line, i + |p.before| + |p.body| + 2, pieces[1..], tail);
      assert Bodies(pieces) == [p.body] + Bodies(pieces[1..]);
    }
  }

  /** Scanning a printed line returns exactly the printed bodies, whatever tail follows them. */
  lemma ScansPrinted(pieces: seq<Piece>, tail: string)
    requires Printable(pieces) && IsTail(tail)
    ensures Scanned(Printed(pieces, tail)) == Bodies(pieces)
  {
    var line := Printed(pieces, tail);
    assert line[0..] == line;
    ScansPrintedFrom(line, 0, pieces, tail);
  }

  // ----- Every line is a printed line

  lemma {:induction false} BodyOfClose(line: string, j: nat)
    requires CloseFrom(line, j) < |line|
    ensures j <= CloseFrom(line, j) && WellEscaped(line[j..CloseFrom(line, j)])
    decreases |line| - j
  {
    var k := CloseFrom(line, j);
    if line[j] != QUOTE || (line[j] == ESCAPE && j + 1 < |line|) {
      var step := if line[j] == ESCAPE && j + 1 < |line| then 2 else 1;
      BodyOfClose(line, j + step);
      assert line[j..k][0] == line[j];
      assert line[j..k][step..] == line[j + step..k];
    }
  }

  /** The line from `i` on, taken apart, with `sep` the text passed since the last literal. */
  function Parsed(line: string, start: nat, i: nat): (r: (seq<Piece>, string))
    requires start <= i <= |line|
    decreases |line| - i
  {
    if i >= |line| then ([], line[start..])
    else if line[i] != QUOTE then Parsed(line, start, i + 1)
    else
      var j := CloseFrom(line, i + 1);
      if j >= |line| then ([], line[start..])
      else
        var (pieces, tail) := Parsed(line, j + 1, j + 1);
        ([Piece(line[start..i], line[i + 1..j])] + pieces, tail)
  }

  lemma {:induction false} QuoteFreeThenTail(line: string, start: nat, i: nat)
    requires start <= i <= |line| && QuoteFree(line[start..i]) && IsTail(line[i..])
    ensures IsTail(line[start..])
    decreases i - start
  {
    if start < i {
      assert line[start] == line[start..i][0];
      assert line[start + 1..i] == line[start..i][1..];
      assert line[start + 1..] == line[start..][1..];
      QuoteFreeThenTail(line, start + 1, i);
    }
  }

  lemma OneMorePiece(p: Piece, pieces: seq<Piece>, tail: string)
    requires QuoteFree(p.before) && WellEscaped(p.body) && Printable(pieces)
    ensures Printable([p] + pieces) && Bodies([p] + pieces) == [p.body] + Bodies(pieces)
    ensures Printed([p] + pieces, tail) == p.before + [QUOTE] + p.body + [QUOTE] + Printed(pieces, tail)
  {
    assert ([p] + pieces)[1..] == pieces;
  }

  lemma QuoteFreeIsTail(line: string, start: nat)
    requires start <= |line| && QuoteFree(line[start..])
    ensures IsTail(line[start..])
  {
    QuoteFreeThenTail(line, start, |line|);
  }

  /** The rest of a line after a literal that is not closed, and before its opening quote no quote. */
  lemma UnclosedIsTail(line: string, start: nat, i: nat)
    requires start <= i < |line| && QuoteFree(line[start..i]) && line[i] == QUOTE && CloseFrom(line, i + 1) >= |line|
    ensures IsTail(line[start..])
  {
    NeverCloses(line, i + 1);
    assert line[i + 1..] == line[i..][1..];
    QuoteFreeThenTail(line, start, i);
  }

  lemma ParsedOneMore(line: string, start: nat, i: nat, j: nat, pieces: seq<Piece>, tail: string)
    requires start <= i < j < |line| && QuoteFree(line[start..i]) && line[i] == QUOTE == line[j]
    requires j == CloseFrom(line, i + 1)
    requires Printable(pieces) && Printed(pieces, tail) == line[j + 1..]
    ensures var more := [Piece(line[start..i], line[i + 1..j])] + pieces;
      Printable(more) && Printed(more, tail) == line[start..] && Bodies(more) == [line[i + 1..j]] + Bodies(pieces)
  {
    BodyOfClose(line, i + 1);
    OneMorePiece(Piece(line[start..i], line[i + 1..j]), pieces, tail);
    CutAtQuotes(line, start, i, j);
  }

  /** From `i` on, the line is printed from what it is taken apart into, and the bodies are those scanned. */
  ghost predicate ParsesRight(line: string, start: nat, i: nat)
    requires start <= i <= |line|
  {
    var (pieces, tail) := Parsed(line, start, i);
    Printable(pieces) && IsTail(tail) && Printed(pieces, tail) == line[start..] &&
      Bodies(pieces) == ScannedFrom(line, i)
  }

  lemma NoPieceLeft(line: string, start: nat, i: nat)
    requires start <= i <= |line| && QuoteFree(line[start..i])
    requires i == |line| || (line[i] == QUOTE && CloseFrom(line, i + 1) >= |line|)
    ensures ParsesRight(line, start, i)
  {
    hide CloseFrom, IsTail, Unclosed, QuoteFree;
    if i == |line| {
      assert line[start..] == line[start..i];
      QuoteFreeIsTail(line, start);
    } else {
      UnclosedIsTail(line, start, i);
    }
  }

  lemma PieceParsed(line: string, start: nat, i: nat, j: nat)
    requires start <= i < j < |line| && QuoteFree(line[start..i]) && line[i] == QUOTE == line[j]
    requires j == CloseFrom(line, i + 1)
    requires ParsesRight(line, j + 1, j + 1)
    ensures ParsesRight(line, start, i)
  {
    hide CloseFrom, IsTail, Printable, Printed, Bodies;
    var (pieces, tail) := Parsed(line, j + 1, j + 1);
    ParsedOneMore(line, start, i, j, pieces, tail);
  }

  lemma {:induction false} ParsedPrints(line: string, start: nat, i: nat)
    requires start <= i <= |line| && QuoteFree(line[start..i])
    ensures ParsesRight(line, start, i)
    decreases |line| - i
  {
    hide CloseFrom, IsTail, Printable, Printed, Bodies;
    if i == |line| || (line[i] == QUOTE && CloseFrom(line, i + 1) >= |line|) {
      NoPieceLeft(line, start, i);
    } else if line[i] != QUOTE {
      assert line[start..i + 1] == line[start..i] + [line[i]];
      ParsedPrints(line, start, i + 1);
    } else {
      var j := CloseFrom(line, i + 1);
      ParsedPrints(line, j + 1, j + 1);
      PieceParsed(line, start, i, j);
    }
  }

  lemma CutAtQuotes(line: string, start: nat, i: nat, j: nat)
    requires start <= i < j < |line| && line[i] == QUOTE == line[j]
    ensures line[start..] == line[start..i] + [QUOTE] + line[i + 1..j] + [QUOTE] + line[j + 1..]
  {
  }

  /** A line printed from these bodies: separators and a tail exist that give the line. */
  ghost predicate PrintsAs(line: string, bodies: seq<string>) {
    exists pieces, tail :: Printable(pieces) && IsTail(tail) && Printed(pieces, tail) == line &&
      Bodies(pieces) == bodies
  }

  /**
   For any line at all, the literals found are the one list of bodies the line can have been
   printed from: they are disjoint, in order, each closed by its first unescaped quote, and an
   unterminated literal gives nothing.
   */
  lemma ScannedIsTheOnlyReading(line: string, bodies: seq<string>)
    ensures Scanned(line) == bodies <==> PrintsAs(line, bodies)
  {
    ParsedPrints(line, 0, 0);
    var (pieces, tail) := Parsed(line, 0, 0);
    assert line[0..] == line;
    forall ps, t | Printable(ps) && IsTail(t) && Printed(ps, t) == line
      ensures Scanned(line) == Bodies(ps)
    {
      ScansPrinted(ps, t);
    }
  }
}
