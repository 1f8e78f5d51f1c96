/**
 The trimmer of zenctl/src/errors.rs: it strips the ` at <path>.rs:<line>.` tails that a
 library's errors carry, right to left, until the line no longer ends in one.
 A `string` is a sequence of Unicode scalar values, as a Rust `str` is.
 */
module SourceLocations {

  const AT := " at "
  const RS := ".rs"

  /** Rust's `char::is_whitespace`: the Unicode White_Space property. */
  predicate IsWhitespace(c: char) {
    '\t' <= c <= '\r' || c == ' ' || c == '\U{85}' || c == '\U{A0}' || c == '\U{1680}' ||
    '\U{2000}' <= c <= '\U{200A}' || c == '\U{2028}' || c == '\U{2029}' || c == '\U{202F}' ||
    c == '\U{205F}' || c == '\U{3000}'
  }

  predicate IsDigit(c: char) { '0' <= c <= '9' }

  predicate AllDigits(s: string) { forall k :: 0 <= k < |s| ==> IsDigit(s[k]) }

  predicate Blank(s: string) { forall k :: 0 <= k < |s| ==> IsWhitespace(s[k]) }

  predicate EndsTrimmed(s: string) { s == [] || !IsWhitespace(s[|s| - 1]) }

  /** How many of the first `k` characters are left once the blanks at their end are gone. */
  function KeptLength(s: string, k: nat): (r: nat)
    requires k <= |s|
    ensures r <= k && (r == 0 || !IsWhitespace(s[r - 1]))
    ensures forall j :: r <= j < k ==> IsWhitespace(s[j])
  {
    if k > 0 && IsWhitespace(s[k - 1]) then KeptLength(s, k - 1) else k
  }

  function TrimEnd(s: string): (r: string)
    ensures r <= s && EndsTrimmed(r) && Blank(s[|r|..])
    ensures EndsTrimmed(s) ==> r == s
  {
    s[..KeptLength(s, |s|)]
  }

  predicate AtHere(s: string, k: int) {
    0 <= k <= |s| - 4 && s[k] == ' ' && s[k + 1] == 'a' && s[k + 2] == 't' && s[k + 3] == ' '
  }

  /** The last " at " that starts at `k` or before it, or -1. */
  function LastAtFrom(s: string, k: int): (r: int)
    requires k < |s|
    ensures r == -1 || AtHere(s, r)
    ensures forall j :: r < j <= k ==> !AtHere(s, j)
    decreases k
  {
    if k < 0 then -1 else if AtHere(s, k) then k else LastAtFrom(s, k - 1)
  }

  /** `rfind(" at ")`, with -1 for no occurrence. */
  function LastAt(s: string): (r: int)
    ensures r == -1 || AtHere(s, r)
    ensures forall k :: r < k ==> !AtHere(s, k)
  {
    LastAtFrom(s, |s| - 1)
  }

  /** The last colon at `k` or before it, or -1. */
  function LastColonFrom(s: string, k: int): (r: int)
    requires k < |s|
    ensures -1 <= r <= k || r == -1
    ensures r >= 0 ==> s[r] == ':'
    ensures forall j :: r < j <= k ==> s[j] != ':'
    decreases k
  {
    if k < 0 then -1 else if s[k] == ':' then k else LastColonFrom(s, k - 1)
  }

  /** `rfind(':')`, with -1 for no occurrence. */
  function LastColon(s: string): (r: int)
    ensures -1 <= r < |s| && (r >= 0 ==> s[r] == ':')
    ensures forall k :: r < k < |s| ==> s[k] != ':'
  {
    LastColonFrom(s, |s| - 1)
  }

  function WithoutDot(tail: string): string {
    if tail != [] && tail[|tail| - 1] == '.' then tail[..|tail| - 1] else tail
  }

  predicate IsRustPath(path: string) {
    '/' in path && |path| >= 3 && path[|path| - 3..] == RS
  }

  predicate IsSourceLocation(tail: string) {
    var t := WithoutDot(tail);
    var c := LastColon(t);
    c >= 0 && IsRustPath(t[..c]) && t[c + 1..] != [] && AllDigits(t[c + 1..])
  }

  /** What the loop of `trim_line` computes. */
  function Trimmed(line: string): (out: string)
    decreases |line|
  {
    var i := LastAt(line);
    if i >= 0 && IsSourceLocation(line[i + 4..]) then Trimmed(TrimEnd(line[..i])) else line
  }

  method TrimLine(line: string) returns (out: string)
    ensures out == Trimmed(line)
  {
    out := line;
    while true
      invariant Trimmed(out) == Trimmed(line)
      decreases |out|
    {
      var i := LastAt(out);
      if i < 0 { break; }
      if IsSourceLocation(out[i + 4..]) {
        out := TrimEnd(out[..i]);
      } else {
        break;
      }
    }
  }

  // ----- What a location is

  /** A path with a slash in it that ends in `.rs`. */
  predicate NamesRust(path: string) {
    && (exists k :: 0 <= k < |path| && path[k] == '/')
    && |path| >= 3 && path[|path| - 3] == '.' && path[|path| - 2] == 'r' && path[|path| - 1] == 's'
  }

  predicate IsNumber(digits: string) { digits != [] && forall k :: 0 <= k < |digits| ==> '0' <= digits[k] <= '9' }

  lemma RustPathIs(path: string)
    ensures IsRustPath(path) <==> NamesRust(path)
  {
    if |path| >= 3 {
      var tail := path[|path| - 3..];
      assert tail == [path[|path| - 3], path[|path| - 2], path[|path| - 1]];
    }
  }

  /** A location spelled out: a path, a colon, a line number and at most one full stop. */
  ghost predicate Spells(tail: string, path: string, digits: string, stop: bool) {
    NamesRust(path) && IsNumber(digits) && tail == path + ":" + digits + (if stop then "." else "")
  }

  /** The two right-to-left splits accept exactly the strings so spelled. */
  lemma LocationShape(tail: string)
    ensures IsSourceLocation(tail) <==> exists path, digits, stop :: Spells(tail, path, digits, stop)
  {
    hide IsRustPath, NamesRust;
    var t := WithoutDot(tail);
    var c := LastColon(t);
    if IsSourceLocation(tail) {
      RustPathIs(t[..c]);
      assert t == t[..c] + ":" + t[c + 1..];
      assert Spells(tail, t[..c], t[c + 1..], tail != t);
    }
    forall path, digits, stop | Spells(tail, path, digits, stop)
      ensures IsSourceLocation(tail)
    {
      SpelledIsLocation(tail, path, digits, stop);
    }
  }

  lemma ColonIsLast(path: string, digits: string)
    requires IsNumber(digits)
    ensures var body := path + ":" + digits;
      LastColon(body) == |path| && body[..|path|] == path && body[|path| + 1..] == digits && body[|body| - 1] != '.'
  {
    hide LastColonFrom;
    var body := path + ":" + digits;
    assert body[|path|] == ':' && body[|body| - 1] == digits[|digits| - 1];
    assert forall k :: |path| < k < |body| ==> body[k] == digits[k - |path| - 1];
  }

  lemma SpelledIsLocation(tail: string, path: string, digits: string, stop: bool)
    requires Spells(tail, path, digits, stop)
    ensures IsSourceLocation(tail) && !IsWhitespace(tail[|tail| - 1])
  {
    hide IsRustPath, NamesRust, LastColon;
    var body := path + ":" + digits;
    RustPathIs(path);
    ColonIsLast(path, digits);
    assert stop ==> tail[..|tail| - 1] == body;
    assert WithoutDot(tail) == body;
    assert tail[|tail| - 1] == if stop then '.' else digits[|digits| - 1];
  }

  // ----- The fixed point

  /** Nothing left to strip: the part after the last " at " is no source location. */
  predicate Stuck(line: string) {
    var i := LastAt(line);
    i < 0 || !IsSourceLocation(line[i + 4..])
  }

  lemma {:induction false} TrimReachesFixedPoint(line: string)
    ensures Trimmed(line) <= line
    ensures Stuck(Trimmed(line))
    ensures Trimmed(Trimmed(line)) == Trimmed(line)
    ensures Trimmed(line) == line || EndsTrimmed(Trimmed(line))
    decreases |line|
  {
    if !Stuck(line) {
      TrimReachesFixedPoint(TrimEnd(line[..LastAt(line)]));
    }
  }

  // ----- What is removed

  /** One stripped tail: the blanks before it, " at ", and a source location. */
  ghost predicate IsTail(tail: string) {
    exists n :: AtHere(tail, n) && Blank(tail[..n]) && IsSourceLocation(tail[n + 4..])
  }

  /** `cuts` divides the end of a line, from `cuts[0]` on, into pieces that each are a `piece`. */
  ghost predicate CutsInto(line: string, cuts: seq<nat>, piece: string -> bool) {
    && cuts != [] && cuts[|cuts| - 1] == |line|
    && (forall k :: 0 <= k < |cuts| ==> cuts[k] <= |line|)
    && (forall i, k :: 0 <= i < k < |cuts| ==> cuts[i] <= cuts[k])
    && (forall i, k :: 0 <= i < k < |cuts| && k == i + 1 ==> piece(line[cuts[i]..cuts[k]]))
  }

  /** From `start` on, a line is a run of such pieces. */
  ghost predicate RunOf(line: string, start: nat, piece: string -> bool) {
    exists cuts :: CutsInto(line, cuts, piece) && cuts[0] == start
  }

  lemma EmptyRun(line: string, piece: string -> bool)
    ensures RunOf(line, |line|, piece)
  {
    var cuts: seq<nat> := [|line|];
    assert CutsInto(line, cuts, piece) && cuts[0] == |line|;
  }

  lemma OneMorePiece(line: string, kept: string, start: nat, piece: string -> bool)
    requires kept <= line && RunOf(kept, start, piece) && piece(line[|kept|..])
    ensures RunOf(line, start, piece)
  {
    var cuts: seq<nat> :| CutsInto(kept, cuts, piece) && cuts[0] == start;
    var more: seq<nat> := cuts + [|line|];
    assert forall i :: 0 <= i < |cuts| ==> more[i] == cuts[i];
    forall i, k | 0 <= i < k < |more| && k == i + 1
      ensures piece(line[more[i]..more[k]])
    {
      if k < |cuts| {
        assert line[cuts[i]..cuts[k]] == kept[cuts[i]..cuts[k]];
      } else {
        assert line[|kept|..|line|] == line[|kept|..];
      }
    }
    assert CutsInto(line, more, piece) && more[0] == start;
  }

  /** The guard of the loop: " at " at `i` is followed by a location. */
  predicate Strippable(line: string, i: int) {
    AtHere(line, i) && IsSourceLocation(line[i + 4..])
  }

  lemma StrippedIsTail(line: string, i: int)
    requires Strippable(line, i)
    ensures IsTail(line[|TrimEnd(line[..i])|..])
  {
    hide IsSourceLocation, KeptLength;
    var m := |TrimEnd(line[..i])|;
    var tail, n := line[m..], i - m;
    assert AtHere(tail, n);
    assert tail[..n] == line[..i][m..];
    assert tail[n + 4..] == line[i + 4..];
  }

  lemma {:induction false} RemovedInPieces(line: string, piece: string -> bool)
    requires forall s, i :: Strippable(s, i) ==> piece(s[|TrimEnd(s[..i])|..])
    ensures RunOf(line, |Trimmed(line)|, piece)
    decreases |line|
  {
    hide IsSourceLocation, LastAtFrom, RunOf;
    var i := LastAt(line);
    if Strippable(line, i) {
      var kept := TrimEnd(line[..i]);
      RemovedInPieces(kept, piece);
      OneMorePiece(line, kept, |Trimmed(kept)|, piece);
    } else {
      EmptyRun(line, piece);
    }
  }

  /** Only location tails are removed: the words of the message are kept. */
  lemma OnlyTailsRemoved(line: string)
    ensures RunOf(line, |Trimmed(line)|, IsTail)
  {
    forall s, i | Strippable(s, i)
      ensures IsTail(s[|TrimEnd(s[..i])|..])
    {
      StrippedIsTail(s, i);
    }
    RemovedInPieces(line, IsTail);
  }

  // ----- Appended locations come off again

  predicate NoSpace(s: string) { ' ' !in s }

  function AppendAll(message: string, locations: seq<string>): string {
    if locations == [] then message
    else AppendAll(message, locations[..|locations| - 1]) + AT + locations[|locations| - 1]
  }

  lemma LastAtOfAppended(message: string, location: string)
    requires NoSpace(location)
    ensures LastAt(message + AT + location) == |message|
  {
    var s := message + AT + location;
    assert AtHere(s, |message|);
    assert forall k :: |message| + 4 <= k < |s| ==> s[k] == location[k - |message| - 4];
  }

  lemma TrimmedOfAppended(message: string, location: string)
    requires IsSourceLocation(location) && NoSpace(location)
    ensures Trimmed(message + AT + location) == Trimmed(TrimEnd(message))
  {
    var line := message + AT + location;
    LastAtOfAppended(message, location);
    assert line[..|message|] == message && line[|message| + 4..] == location;
  }

  /** A line that ends in a location has no blank to trim. */
  lemma EndsInLocation(message: string, location: string)
    requires IsSourceLocation(location)
    ensures TrimEnd(message + AT + location) == message + AT + location
  {
    LocationShape(location);
    var path, digits, stop :| Spells(location, path, digits, stop);
    SpelledIsLocation(location, path, digits, stop);
  }

  /** However many locations are appended to a message, trimming gives the trimmed message. */
  lemma {:induction false} AppendedLocationsComeOff(message: string, locations: seq<string>)
    requires locations != []
    requires forall k :: 0 <= k < |locations| ==> IsSourceLocation(locations[k]) && NoSpace(locations[k])
    ensures Trimmed(AppendAll(message, locations)) == Trimmed(TrimEnd(message))
    decreases |locations|
  {
    var rest, last := locations[..|locations| - 1], locations[|locations| - 1];
    TrimmedOfAppended(AppendAll(message, rest), last);
    if rest != [] {
      AppendedLocationsComeOff(message, rest);
      EndsInLocation(AppendAll(message, rest[..|rest| - 1]), rest[|rest| - 1]);
    }
  }
}
