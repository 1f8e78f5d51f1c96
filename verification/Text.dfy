/** Characters and blanks, as the Python scripts see them. */
module Text {

  /** Python's `str.isspace`, which `split`, `strip` and `\s` go by. */
  predicate IsSpace(c: char) {
    '\t' <= c <= '\r' || '\U{1C}' <= c <= '\U{1F}' || c == ' ' || c == '\U{85}' || c == '\U{A0}' ||
    c == '\U{1680}' || '\U{2000}' <= c <= '\U{200A}' || c == '\U{2028}' || c == '\U{2029}' ||
    c == '\U{202F}' || c == '\U{205F}' || c == '\U{3000}'
  }

  /** `[0-9A-Za-z]` */
  predicate IsAlnum(c: char) {
    '0' <= c <= '9' || 'A' <= c <= 'Z' || 'a' <= c <= 'z'
  }

  /** The first position from `i` on that holds no blank. */
  function SkipSpaces(s: string, i: nat): (r: nat)
    requires i <= |s|
    ensures i <= r <= |s|
    ensures forall k :: i <= k < r ==> IsSpace(s[k])
    ensures r < |s| ==> !IsSpace(s[r])
    decreases |s| - i
  {
    if i < |s| && IsSpace(s[i]) then SkipSpaces(s, i + 1) else i
  }

  /** The first position from `i` on that holds a blank. */
  function SkipWord(s: string, i: nat): (r: nat)
    requires i <= |s|
    ensures i <= r <= |s|
    ensures forall k :: i <= k < r ==> !IsSpace(s[k])
    ensures r < |s| ==> IsSpace(s[r])
    decreases |s| - i
  {
    if i < |s| && !IsSpace(s[i]) then SkipWord(s, i + 1) else i
  }

  /** Where the blanks that end the first `j` characters start, but not before `i`. */
  function TrimTo(s: string, i: nat, j: nat): (r: nat)
    requires i <= j <= |s|
    ensures i <= r <= j
    ensures forall k :: r <= k < j ==> IsSpace(s[k])
    ensures i < r ==> !IsSpace(s[r - 1])
    decreases j
  {
    if i < j && IsSpace(s[j - 1]) then TrimTo(s, i, j - 1) else j
  }

  /** `s.strip()` */
  function Strip(s: string): string {
    var i := SkipSpaces(s, 0);
    s[i..TrimTo(s, i, |s|)]
  }

  /** `s.split()`, from `i` on. */
  function SplitFrom(s: string, i: nat): seq<string>
    requires i <= |s|
    decreases |s| - i
  {
    var j := SkipSpaces(s, i);
    if j == |s| then [] else [s[j..SkipWord(s, j)]] + SplitFrom(s, SkipWord(s, j))
  }

  function Split(s: string): seq<string> { SplitFrom(s, 0) }

  // ----- Parts put together

  /** The parts `i` to `j`, with `sep` between: `sep.join`. */
  function Joined(parts: seq<string>, i: nat, j: nat, sep: char): string
    requires i <= j <= |parts|
    decreases j
  {
    if j == i then "" else if j == i + 1 then parts[i] else Joined(parts, i, j - 1, sep) + [sep] + parts[j - 1]
  }

  /** Where part `n` starts in the parts so joined. */
  function StartOf(parts: seq<string>, n: nat): nat
    requires n <= |parts|
  {
    if n == 0 then 0 else StartOf(parts, n - 1) + |parts[n - 1]| + 1
  }

  lemma {:induction false} JoinedFromFront(part: string, rest: seq<string>, n: nat, sep: char)
    requires n <= |rest|
    ensures Joined([part] + rest, 0, n + 1, sep) == if n == 0 then part else part + [sep] + Joined(rest, 0, n, sep)
  {
    if n > 0 { JoinedFromFront(part, rest, n - 1, sep); }
  }
}
