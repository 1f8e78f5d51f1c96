/**
 What is said of a rule's evidence, in terms of the blocks of a text and their forest alone: no
 definition here names a function of the passes.
 */
module EvidenceTerms {
  import opened Wrappers
  import opened BlockForest
  import opened Evidence

  ghost predicate InOrder(text: seq<Read>) {
    forall a, b :: 0 <= a < b < |text| ==> text[a].block.line < text[b].block.line
  }

  /** The block is read: it is no heading, and no row of dashes under a table's header. */
  predicate Processed(x: Read) { x.block.kind != HeadingKind && !(x.block.kind == RowKind && x.divider) }

  /** What a rule starts with: the evidence of its own sentence, else its block's. */
  function Birth(x: Read, k: nat): seq<Tag>
    requires k < |x.rules|
  {
    if x.rules[k].own == [] then x.evidence else x.rules[k].own
  }

  /** The block makes a lead-in that waits on the list that rule `k` starts with too. */
  predicate Shares(x: Read, k: nat)
    requires k < |x.rules|
  {
    Birth(x, k) == [] && exists j :: 0 <= j < |x.rules| && x.rules[j].leadIn && x.rules[j].own == []
  }

  // ----- The block that serves a rule

  ghost predicate InSection(text: seq<Read>, i: nat, n: nat)
    requires n <= |text|
  {
    forall m :: i < m < n ==> text[m].block.kind != HeadingKind
  }

  /** Block `m` holds a rule and does not sit under block `i`. */
  predicate EndsWait(text: seq<Read>, i: nat, m: nat, parents: map<nat, Option<nat>>)
    requires Upward(parents) && i < |text| && m < |text|
  {
    && Processed(text[m]) && text[m].rules != []
    && !IsWithin(text[m].block.line, text[i].block.line, parents)
  }

  /** Every block with a rule since block `i` sits under it. */
  ghost predicate Unended(text: seq<Read>, i: nat, n: nat, parents: map<nat, Option<nat>>)
    requires Upward(parents) && i < |text| && n <= |text|
  {
    forall m :: i < m < n ==> !EndsWait(text, i, m, parents)
  }

  /** Where a list at the top level starts: a heading, or a paragraph at the top level. */
  predicate StartsTop(x: Read) {
    x.block.kind == HeadingKind || (x.block.kind == ProseKind && x.block.parent == None && !x.block.item)
  }

  ghost predicate NoneStarts(text: seq<Read>, i: nat, n: nat)
    requires n <= |text|
  {
    forall m :: i < m < n ==> !StartsTop(text[m])
  }

  /** Block `m` is a block of evidence without a rule. */
  predicate OnlyCites(text: seq<Read>, m: nat)
    requires m < |text|
  {
    text[m].rules == [] && text[m].evidence != []
  }

  /**
   Block `m` answers a rule of block `i`: it only cites, and is an item right under block `i`, or
   no item, and at the top level or of an item that block `i` sits under.
   */
  predicate AnswersAt(text: seq<Read>, i: nat, m: nat, parents: map<nat, Option<nat>>)
    requires Upward(parents) && i < |text| && m < |text|
  {
    OnlyCites(text, m) &&
    match text[m].block.parent
    case None => !text[m].block.item
    case Some(p) => if text[m].block.item then p == text[i].block.line else IsWithin(text[i].block.line, p, parents)
  }

  /** The block after block `m` is outside the item at line `p`. */
  predicate EndsItem(text: seq<Read>, m: nat, p: nat, parents: map<nat, Option<nat>>)
    requires Upward(parents) && m < |text|
  {
    m + 1 < |text| ==> !IsWithin(text[m + 1].block.line, p, parents)
  }

  /**
   Block `m` closes the list that block `i` is in: a paragraph that only cites, and is the last
   block of an item that block `i` sits under, or is bare at the top level with no list started
   there since block `i`.
   */
  ghost predicate ClosesListOf(text: seq<Read>, i: nat, m: nat, parents: map<nat, Option<nat>>)
    requires Upward(parents) && i < |text| && m < |text|
  {
    && text[m].block.kind == ProseKind && !text[m].block.item && OnlyCites(text, m)
    && match text[m].block.parent
       case Some(p) => EndsItem(text, m, p, parents) && IsWithin(text[i].block.line, p, parents)
       case None => text[m].bare && NoneStarts(text, i, m)
  }

  /**
   Block `m` serves the rules of block `i`: in the same section, it answers them while they wait,
   or it closes the list they are in.
   */
  ghost predicate Serves(text: seq<Read>, i: nat, m: nat, parents: map<nat, Option<nat>>)
    requires Upward(parents) && i < |text| && m < |text|
  {
    && Processed(text[m]) && InSection(text, i, m)
    && ((Unended(text, i, m, parents) && AnswersAt(text, i, m, parents)) ||
       ClosesListOf(text, i, m, parents))
  }

  /** The first block after `i` and before `n` that serves it. */
  ghost function FirstServer(text: seq<Read>, i: nat, n: nat, parents: map<nat, Option<nat>>): (r: Option<nat>)
    requires Upward(parents) && i < n <= |text|
    ensures match r
      case Some(m) => i < m < n && Serves(text, i, m, parents) && forall l :: i < l < m ==> !Serves(text, i, l, parents)
      case None => forall m :: i < m < n ==> !Serves(text, i, m, parents)
    decreases n
  {
    if n == i + 1 then None
    else
      var before := FirstServer(text, i, n - 1, parents);
      if before == None && Serves(text, i, n - 1, parents) then Some(n - 1) else before
  }

  ghost function ServedEvidence(text: seq<Read>, i: nat, n: nat, parents: map<nat, Option<nat>>): (r: seq<Tag>)
    requires Upward(parents) && i < n <= |text|
    ensures r == [] <==> FirstServer(text, i, n, parents) == None
  {
    match FirstServer(text, i, n, parents)
    case Some(m) => text[m].evidence
    case None => []
  }

  // ----- The list that a rule leads

  /** Block `m` is in the list that a rule of block `i` leads. */
  predicate InList(text: seq<Read>, i: nat, m: nat, parents: map<nat, Option<nat>>)
    requires Upward(parents) && i < |text| && m < |text|
  {
    if text[i].block.parent == None && !text[i].block.item then text[m].block.item || text[m].block.parent.Some?
    else IsWithin(text[m].block.line, text[i].block.line, parents)
  }

  predicate GoesOn(text: seq<Read>, i: nat, m: nat, parents: map<nat, Option<nat>>)
    requires Upward(parents) && i < |text| && m < |text|
  {
    text[m].block.kind != HeadingKind && (Processed(text[m]) ==> InList(text, i, m, parents))
  }

  /** The list has not ended before block `n`. */
  ghost predicate Unbroken(text: seq<Read>, i: nat, n: nat, parents: map<nat, Option<nat>>)
    requires Upward(parents) && i < |text| && n <= |text|
  {
    forall m :: i < m < n ==> GoesOn(text, i, m, parents)
  }

  /** Block `m` is of the list, or the paragraph without a rule that ends it. */
  ghost predicate Feeds(text: seq<Read>, i: nat, m: nat, parents: map<nat, Option<nat>>)
    requires Upward(parents) && i < |text| && m < |text|
  {
    && Processed(text[m]) && Unbroken(text, i, m, parents)
    && (InList(text, i, m, parents) || (text[m].rules == [] && !text[m].block.item))
  }

  /** Tag `k` is not in the list, and is cited there for the first time. */
  predicate IsNew(list: seq<Tag>, tags: seq<Tag>, k: nat)
    requires k < |tags|
  {
    (forall a :: 0 <= a < |list| ==> list[a] != tags[k]) && forall b :: 0 <= b < k ==> tags[b] != tags[k]
  }

  function NewTo(list: seq<Tag>, tags: seq<Tag>, n: nat): seq<Tag>
    requires n <= |tags|
  {
    if n == 0 then [] else NewTo(list, tags, n - 1) + (if IsNew(list, tags, n - 1) then [tags[n - 1]] else [])
  }

  /** The new tags, in the order they are cited. */
  function NewTags(list: seq<Tag>, tags: seq<Tag>): seq<Tag> { NewTo(list, tags, |tags|) }

  // ----- The numbers of rules

  /** How many rules the blocks before block `n` hold. */
  function RulesBefore(text: seq<Read>, n: nat): nat
    requires n <= |text|
  {
    if n == 0 then 0 else RulesBefore(text, n - 1) + (if Processed(text[n - 1]) then |text[n - 1].rules| else 0)
  }
}
