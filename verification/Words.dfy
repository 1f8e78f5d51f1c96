/** The words of a text, as scripts/check-spec-prose.py counts them. */
module Words {
  import opened Text

  predicate HasAlnum(w: string) { exists k :: 0 <= k < |w| && IsAlnum(w[k]) }

  function CountTokens(tokens: seq<string>): nat {
    if tokens == [] then 0 else (if HasAlnum(tokens[0]) then 1 else 0) + CountTokens(tokens[1..])
  }

  /** `words`: the blank-separated tokens that hold a letter or a digit. */
  function WordsIn(s: string): nat { CountTokens(Split(s)) }

  // ----- The same count, one character at a time

  /** The token that ends at `k`, begun no earlier than `i`, holds a letter or a digit. */
  predicate Live(s: string, i: nat, k: nat)
    requires k <= |s|
    decreases k
  {
    i < k && !IsSpace(s[k - 1]) && (IsAlnum(s[k - 1]) || Live(s, i, k - 1))
  }

  /** The words of the characters `i` to `k`: each counted at its first letter or digit. */
  function CountIn(s: string, i: nat, k: nat): nat
    requires k <= |s|
    decreases k
  {
    if k <= i then 0
    else CountIn(s, i, k - 1) + (if IsAlnum(s[k - 1]) && !Live(s, i, k - 1) then 1 else 0)
  }

  /** Counting may stop and start again beside a blank. */
  lemma {:induction false} CountSplits(s: string, i: nat, m: nat, k: nat)
    requires i <= m <= k <= |s|
    requires m == i || m == |s| || IsSpace(s[m - 1]) || IsSpace(s[m])
    ensures CountIn(s, i, k) == CountIn(s, i, m) + CountIn(s, m, k)
    ensures k > m || m == i || IsSpace(s[m - 1]) ==> Live(s, i, k) == Live(s, m, k)
    decreases k
  {
    if k > m { CountSplits(s, i, m, k - 1); }
  }

  lemma {:induction false} NoWordsWithoutAlnum(s: string, i: nat, m: nat, k: nat)
    requires i <= m <= k <= |s| && forall j :: m <= j < k ==> !IsAlnum(s[j])
    ensures CountIn(s, i, k) == CountIn(s, i, m)
    decreases k
  {
    if k > m { NoWordsWithoutAlnum(s, i, m, k - 1); }
  }

  lemma {:induction false} OneWordInToken(s: string, i: nat, k: nat)
    requires i <= k <= |s| && forall j :: i <= j < k ==> !IsSpace(s[j])
    ensures Live(s, i, k) <==> exists j :: i <= j < k && IsAlnum(s[j])
    ensures CountIn(s, i, k) == if Live(s, i, k) then 1 else 0
    decreases k
  {
    if k > i { OneWordInToken(s, i, k - 1); }
  }

  lemma {:induction false} CountOfSlice(s: string, a: nat, t: string, k: nat)
    requires a + |t| <= |s| && k <= |t| && forall j :: 0 <= j < |t| ==> t[j] == s[a + j]
    ensures Live(t, 0, k) == Live(s, a, a + k)
    ensures CountIn(t, 0, k) == CountIn(s, a, a + k)
  {
    if k > 0 { CountOfSlice(s, a, t, k - 1); }
  }

  lemma TokenCounted(s: string, j: nat, m: nat)
    requires j <= m <= |s| && forall x :: j <= x < m ==> !IsSpace(s[x])
    ensures CountIn(s, j, m) == if HasAlnum(s[j..m]) then 1 else 0
  {
    OneWordInToken(s, j, m);
    assert forall x :: j <= x < m ==> s[x] == s[j..m][x - j];
  }

  lemma {:induction false} TokensCounted(s: string, i: nat)
    requires i <= |s|
    ensures CountTokens(SplitFrom(s, i)) == CountIn(s, i, |s|)
    decreases |s| - i
  {
    var j := SkipSpaces(s, i);
    NoWordsWithoutAlnum(s, i, i, j);
    CountSplits(s, i, j, |s|);
    if j < |s| {
      var m := SkipWord(s, j);
      TokensCounted(s, m);
      CountSplits(s, j, m, |s|);
      TokenCounted(s, j, m);
      CountOneMore(s[j..m], SplitFrom(s, m));
    }
  }

  lemma CountOneMore(token: string, rest: seq<string>)
    ensures CountTokens([token] + rest) == (if HasAlnum(token) then 1 else 0) + CountTokens(rest)
  {
    assert ([token] + rest)[1..] == rest;
  }

  function WordCount(s: string): nat { CountIn(s, 0, |s|) }

  /** The count by tokens is the count by characters. */
  lemma WordsAreCounted(s: string)
    ensures WordsIn(s) == WordCount(s)
  {
    TokensCounted(s, 0);
  }

  lemma WordsOfSlice(s: string, a: nat, t: string)
    requires a + |t| <= |s| && forall j :: 0 <= j < |t| ==> t[j] == s[a + j]
    ensures WordCount(t) == CountIn(s, a, a + |t|)
  {
    CountOfSlice(s, a, t, |t|);
  }

  /** Stripping a text keeps its words. */
  lemma WordsOfStripped(s: string)
    ensures WordCount(Strip(s)) == WordCount(s)
  {
    var i := SkipSpaces(s, 0);
    var j := TrimTo(s, i, |s|);
    WordsOfSlice(s, i, s[i..j]);
    NoWordsWithoutAlnum(s, 0, 0, i);
    CountSplits(s, 0, i, |s|);
    NoWordsWithoutAlnum(s, i, j, |s|);
  }
}
