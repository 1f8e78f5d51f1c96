/**
 The block reader of scripts/check-spec-prose.py: one pass over a text's lines that skips
 fenced code, groups paragraphs and list items into blocks, and says of each block whether its
 history tags are counted.
 What the regular expressions say of a line is given; lines are numbered from 1 in blocks, and
 by their index, from 0, elsewhere.
 */
module ProseBlocks {
  import opened Wrappers
  import opened Text

  datatype Fence = Fence(mark: char, length: nat)

  /** A heading's level, its title, and whether the title is one that records history. */
  datatype Heading = Heading(level: nat, title: string, history: bool)

  /** A line: what matches it, in the order the reader asks, and its text as a block shows it. */
  datatype Line = Line(fence: Option<Fence>, heading: Option<Heading>, gap: bool, row: bool, item: bool, text: string)

  datatype Kind = Prose | Other

  /** A block's kind, its first line, its lines' texts, and whether its tags are counted. */
  datatype Block = Block(kind: Kind, line: nat, text: seq<string>, counted: bool)

  // ----- What each line is

  predicate Closes(line: Line, fence: Fence) {
    line.fence.Some? && line.fence.value.mark == fence.mark && line.fence.value.length >= fence.length
  }

  /** The fence open after the first `n` lines. */
  function FenceAfter(lines: seq<Line>, n: nat): Option<Fence>
    requires n <= |lines|
  {
    if n == 0 then None
    else
      var open, line := FenceAfter(lines, n - 1), lines[n - 1];
      if open.Some? then (if Closes(line, open.value) then None else open) else line.fence
  }

  datatype Role = Fenced | Title | Gap | Row | Words

  function RoleIn(open: Option<Fence>, line: Line): Role {
    if open.Some? || line.fence.Some? then Fenced
    else if line.heading.Some? then Title
    else if line.gap then Gap
    else if line.row then Row
    else Words
  }

  function RoleOf(lines: seq<Line>, i: nat): Role
    requires i < |lines|
  {
    RoleIn(FenceAfter(lines, i), lines[i])
  }

  // ----- The reader

  datatype State = State(
    open: Option<Fence>, historyLevel: Option<nat>, seenH2: bool, counted: bool,
    para: seq<string>, paraLine: nat, out: seq<Block>)
  {
    function Flush(): State {
      if para == [] then this else this.(out := out + [Block(Prose, paraLine, para, counted)], para := [])
    }

    function Emit(line: nat, text: string): State {
      this.(out := out + [Block(Other, line, [text], counted)])
    }
  }

  function OnHeading(s: State, h: Heading): State {
    var left := if s.historyLevel.Some? && h.level <= s.historyLevel.value then None else s.historyLevel;
    var level := if left == None && h.history then Some(h.level) else left;
    var seen := s.seenH2 || h.level == 2;
    s.(historyLevel := level, seenH2 := seen, counted := seen && level == None)
  }

  function OnWords(s: State, line: Line, n: nat): State {
    var t := if line.item then s.Flush() else s;
    t.(paraLine := if t.para == [] then n else t.paraLine, para := t.para + [line.text])
  }

  /** What the loop does with line number `n`. */
  function Step(s: State, line: Line, n: nat): State {
    if s.open.Some? then (if Closes(line, s.open.value) then s.(open := None) else s)
    else if line.fence.Some? then s.Flush().(open := line.fence)
    else if line.heading.Some? then OnHeading(s.Flush(), line.heading.value).Emit(n, line.heading.value.title)
    else if line.gap then s.Flush()
    else if line.row then s.Flush().Emit(n, line.text)
    else OnWords(s, line, n)
  }

  const START := State(None, None, false, false, [], 0, [])

  function After(lines: seq<Line>, n: nat): State
    requires n <= |lines|
  {
    if n == 0 then START else Step(After(lines, n - 1), lines[n - 1], n)
  }

  /** The blocks of a text. */
  function Blocks(lines: seq<Line>): seq<Block> { After(lines, |lines|).Flush().out }

  method BlocksOf(lines: seq<Line>) returns (yielded: seq<Block>)
    ensures yielded == Blocks(lines)
  {
    var inFence, fence := false, Fence(' ', 0);
    var historyLevel: Option<nat>, seenH2, counted := None, false, false;
    var para: seq<string>, paraLine: nat := [], 0;
    yielded := [];
    for i := 0 to |lines|
      invariant After(lines, i) ==
        State(if inFence then Some(fence) else None, historyLevel, seenH2, counted, para, paraLine, yielded)
    {
      var line, n := lines[i], i + 1;
      if inFence {
        if Closes(line, fence) { inFence := false; }
        continue;
      }
      if line.fence.Some? {
        if para != [] { yielded, para := yielded + [Block(Prose, paraLine, para, counted)], []; }
        inFence, fence := true, line.fence.value;
        continue;
      }
      if line.heading.Some? {
        if para != [] { yielded, para := yielded + [Block(Prose, paraLine, para, counted)], []; }
        var h := line.heading.value;
        if historyLevel.Some? && h.level <= historyLevel.value { historyLevel := None; }
        if historyLevel == None && h.history { historyLevel := Some(h.level); }
        seenH2 := seenH2 || h.level == 2;
        counted := seenH2 && historyLevel == None;
        yielded := yielded + [Block(Other, n, [h.title], counted)];
        continue;
      }
      if line.gap {
        if para != [] { yielded, para := yielded + [Block(Prose, paraLine, para, counted)], []; }
        continue;
      }
      if line.row {
        if para != [] { yielded, para := yielded + [Block(Prose, paraLine, para, counted)], []; }
        yielded := yielded + [Block(Other, n, [line.text], counted)];
        continue;
      }
      if line.item {
        if para != [] { yielded, para := yielded + [Block(Prose, paraLine, para, counted)], []; }
      }
      if para == [] { paraLine := n; }
      para := para + [line.text];
    }
    if para != [] { yielded := yielded + [Block(Prose, paraLine, para, counted)]; }
  }

  lemma {:induction false} OpenIsFence(lines: seq<Line>, n: nat)
    requires n <= |lines|
    ensures After(lines, n).open == FenceAfter(lines, n)
  {
    if n > 0 { OpenIsFence(lines, n - 1); }
  }

  /** Inside a fence is after a line that opens it, when no line since has closed it. */
  lemma {:induction false} FenceIffOpened(lines: seq<Line>, n: nat, f: Fence)
    requires n <= |lines|
    ensures FenceAfter(lines, n) == Some(f) <==> exists m :: OpenedAt(lines, m, n, f)
  {
    if n > 0 {
      FenceIffOpened(lines, n - 1, f);
      var k := n - 1;
      assert ClosesAt(lines, k, f) <==> Closes(lines[k], f);
      if FenceAfter(lines, k) == None && lines[k].fence == Some(f) {
        assert OpenedAt(lines, k, n, f);
      } else if FenceAfter(lines, n) == Some(f) {
        var m :| OpenedAt(lines, m, k, f);
        assert OpenedAt(lines, m, n, f);
      } else {
        assert forall m :: OpenedAt(lines, m, n, f) ==> OpenedAt(lines, m, k, f);
      }
    }
  }

  /** Line `k` is a fence line of the same mark, and at least as long. */
  predicate ClosesAt(lines: seq<Line>, k: nat, f: Fence)
    requires k < |lines|
  {
    match lines[k].fence
    case None => false
    case Some(g) => g.mark == f.mark && f.length <= g.length
  }

  ghost predicate OpenedAt(lines: seq<Line>, m: int, n: nat, f: Fence)
    requires n <= |lines|
  {
    0 <= m < n && FenceAfter(lines, m) == None && lines[m].fence == Some(f) &&
      forall k :: m < k < n ==> !ClosesAt(lines, k, f)
  }

  // ----- Which blocks are counted

  /**
   The history section that line `m` heads still holds when `n` lines have been read: each
   heading since is deeper.
   */
  ghost predicate Encloses(lines: seq<Line>, m: int, n: nat)
    requires n <= |lines|
  {
    0 <= m < n && RoleOf(lines, m) == Title && lines[m].heading.value.history &&
    forall k :: m < k < n && RoleOf(lines, k) == Title ==> Deeper(lines, k, m)
  }

  predicate Deeper(lines: seq<Line>, k: nat, m: nat)
    requires k < |lines| && m < |lines| && RoleOf(lines, k) == Title == RoleOf(lines, m)
  {
    lines[k].heading.value.level > lines[m].heading.value.level
  }

  predicate IsLevel2(lines: seq<Line>, m: nat)
    requires m < |lines|
  {
    RoleOf(lines, m) == Title && lines[m].heading.value.level == 2
  }

  ghost predicate BelowHeader(lines: seq<Line>, n: nat)
    requires n <= |lines|
  {
    exists m :: 0 <= m < n && IsLevel2(lines, m)
  }

  ghost predicate InHistory(lines: seq<Line>, n: nat)
    requires n <= |lines|
  {
    exists m :: Encloses(lines, m, n)
  }

  /** Below the header and outside history: what `counted` means. */
  ghost predicate CountedAt(lines: seq<Line>, n: nat)
    requires n <= |lines|
  {
    BelowHeader(lines, n) && !InHistory(lines, n)
  }

  ghost predicate LevelIsOutermost(lines: seq<Line>, n: nat, level: Option<nat>)
    requires n <= |lines|
  {
    match level
    case None => forall m :: !Encloses(lines, m, n)
    case Some(l) =>
      (exists m :: Encloses(lines, m, n) && lines[m].heading.value.level == l) &&
      forall m :: Encloses(lines, m, n) ==> lines[m].heading.value.level >= l
  }

  lemma EnclosesOneMore(lines: seq<Line>, m: int, n: nat)
    requires 0 < n <= |lines|
    ensures RoleOf(lines, n - 1) != Title ==> (Encloses(lines, m, n) <==> Encloses(lines, m, n - 1))
    ensures RoleOf(lines, n - 1) == Title ==>
      (Encloses(lines, m, n) <==>
       (m == n - 1 && lines[m].heading.value.history) || (Encloses(lines, m, n - 1) && Deeper(lines, n - 1, m)))
  {
  }

  /** A heading above the outermost section ends it, and every section inside it. */
  lemma LevelEnds(lines: seq<Line>, n: nat, level: Option<nat>)
    requires 0 < n <= |lines| && RoleOf(lines, n - 1) == Title && LevelIsOutermost(lines, n - 1, level)
    requires level.Some? ==> lines[n - 1].heading.value.level <= level.value
    ensures var h := lines[n - 1].heading.value; LevelIsOutermost(lines, n, if h.history then Some(h.level) else None)
  {
    var k := n - 1;
    forall m
      ensures Encloses(lines, m, n) <==> m == k && lines[k].heading.value.history
    {
      EnclosesOneMore(lines, m, n);
    }
  }

  /** A heading inside the outermost section leaves it. */
  lemma LevelStays(lines: seq<Line>, n: nat, l: nat)
    requires 0 < n <= |lines| && RoleOf(lines, n - 1) == Title && LevelIsOutermost(lines, n - 1, Some(l))
    requires lines[n - 1].heading.value.level > l
    ensures LevelIsOutermost(lines, n, Some(l))
  {
    var m :| Encloses(lines, m, n - 1) && lines[m].heading.value.level == l;
    EnclosesOneMore(lines, m, n);
    forall j | Encloses(lines, j, n)
      ensures lines[j].heading.value.level >= l
    {
      EnclosesOneMore(lines, j, n);
    }
  }

  lemma LevelOneMore(lines: seq<Line>, n: nat, before: State)
    requires 0 < n <= |lines| && RoleOf(lines, n - 1) == Title
    requires LevelIsOutermost(lines, n - 1, before.historyLevel)
    ensures LevelIsOutermost(lines, n, OnHeading(before, lines[n - 1].heading.value).historyLevel)
  {
    var level := before.historyLevel;
    if level.Some? && lines[n - 1].heading.value.level > level.value {
      LevelStays(lines, n, level.value);
    } else {
      LevelEnds(lines, n, level);
    }
  }

  /** One level is enough: it is that of the outermost history section that still holds. */
  lemma StepLevel(lines: seq<Line>, n: nat)
    requires 0 < n <= |lines|
    ensures var before, k := After(lines, n - 1), n - 1;
      After(lines, n).historyLevel ==
      if RoleOf(lines, k) == Title then OnHeading(before, lines[k].heading.value).historyLevel else before.historyLevel
  {
    OpenIsFence(lines, n - 1);
  }

  lemma {:induction false} HistoryLevelIsOutermost(lines: seq<Line>, n: nat)
    requires n <= |lines|
    ensures LevelIsOutermost(lines, n, After(lines, n).historyLevel)
  {
    if n > 0 {
      HistoryLevelIsOutermost(lines, n - 1);
      StepLevel(lines, n);
      if RoleOf(lines, n - 1) == Title {
        LevelOneMore(lines, n, After(lines, n - 1));
      } else {
        SameLevel(lines, n, After(lines, n - 1).historyLevel);
      }
    }
  }

  lemma SameLevel(lines: seq<Line>, n: nat, level: Option<nat>)
    requires 0 < n <= |lines| && RoleOf(lines, n - 1) != Title && LevelIsOutermost(lines, n - 1, level)
    ensures LevelIsOutermost(lines, n, level)
  {
    forall m { EnclosesOneMore(lines, m, n); }
    if level.Some? {
      var m :| Encloses(lines, m, n - 1) && lines[m].heading.value.level == level.value;
      assert Encloses(lines, m, n);
    }
  }

  lemma {:induction false} SeenIsLevel2(lines: seq<Line>, n: nat)
    requires n <= |lines|
    ensures After(lines, n).seenH2 <==> BelowHeader(lines, n)
    ensures After(lines, n).counted == (After(lines, n).seenH2 && After(lines, n).historyLevel == None)
  {
    if n > 0 {
      SeenIsLevel2(lines, n - 1);
      OpenIsFence(lines, n - 1);
      assert IsLevel2(lines, n - 1) || !IsLevel2(lines, n - 1);
    }
  }

  /** The reader's one level and two flags say exactly whether a block is counted. */
  lemma CountedIsDeclared(lines: seq<Line>, n: nat)
    requires n <= |lines|
    ensures After(lines, n).counted <==> CountedAt(lines, n)
  {
    SeenIsLevel2(lines, n);
    HistoryLevelIsOutermost(lines, n);
  }

  // ----- Every line that is not fenced or a gap is in one block

  predicate Owned(lines: seq<Line>, i: nat)
    requires i < |lines|
  {
    RoleOf(lines, i) == Title || RoleOf(lines, i) == Row || RoleOf(lines, i) == Words
  }

  /** The numbers of those lines, in order, among the first `n`. */
  function OwnedLines(lines: seq<Line>, n: nat): seq<nat>
    requires n <= |lines|
  {
    if n == 0 then [] else OwnedLines(lines, n - 1) + (if Owned(lines, n - 1) then [n] else [])
  }

  /** They are all of those lines, each once, in order. */
  lemma {:induction false} OwnedLinesListed(lines: seq<Line>, n: nat, k: nat)
    requires n <= |lines|
    ensures forall a :: 0 <= a < |OwnedLines(lines, n)| ==> 0 < OwnedLines(lines, n)[a] <= n
    ensures forall a, b :: 0 <= a < b < |OwnedLines(lines, n)| ==> OwnedLines(lines, n)[a] < OwnedLines(lines, n)[b]
    ensures k in OwnedLines(lines, n) <==> 0 < k <= n && Owned(lines, k - 1)
  {
    if n > 0 { OwnedLinesListed(lines, n - 1, k); }
  }

  /** `len` numbers from `a` on. */
  function Run(a: nat, len: nat): seq<nat> {
    if len == 0 then [] else Run(a, len - 1) + [a + len - 1]
  }

  /** The lines that the first `k` blocks cover, each from its first line on. */
  function Covered(out: seq<Block>, k: nat): seq<nat>
    requires k <= |out|
  {
    if k == 0 then [] else Covered(out, k - 1) + Run(out[k - 1].line, |out[k - 1].text|)
  }

  lemma {:induction false} CoveredPrefix(out: seq<Block>, more: seq<Block>, k: nat)
    requires k <= |out|
    ensures Covered(out + more, k) == Covered(out, k)
  {
    if k > 0 { CoveredPrefix(out, more, k - 1); }
  }

  lemma CoveredOneMore(out: seq<Block>, b: Block)
    ensures Covered(out + [b], |out| + 1) == Covered(out, |out|) + Run(b.line, |b.text|)
  {
    CoveredPrefix(out, [b], |out|);
  }

  /** The lines of the blocks emitted, then those of the paragraph being read. */
  function Reached(s: State): seq<nat> { Covered(s.out, |s.out|) + Run(s.paraLine, |s.para|) }

  lemma FlushReaches(s: State)
    ensures Reached(s.Flush()) == Reached(s) && s.Flush().para == []
  {
    if s.para != [] { CoveredOneMore(s.out, Block(Prose, s.paraLine, s.para, s.counted)); }
  }

  lemma EmitReaches(s: State, n: nat, text: string)
    requires s.para == []
    ensures Reached(s.Emit(n, text)) == Reached(s) + [n]
  {
    CoveredOneMore(s.out, Block(Other, n, [text], s.counted));
    assert Run(n, 1) == Run(n, 0) + [n];
  }

  lemma WordsReach(s: State, line: Line, n: nat)
    requires s.para != [] ==> s.paraLine + |s.para| == n
    ensures Reached(OnWords(s, line, n)) == Reached(s) + [n]
  {
    FlushReaches(s);
    var t := if line.item then s.Flush() else s;
    var a := if t.para == [] then n else t.paraLine;
    assert Run(a, |t.para| + 1) == Run(a, |t.para|) + [n];
  }

  /** The paragraph being read ends with the last line read, if that is one of words. */
  lemma {:induction false} ParaIsLast(lines: seq<Line>, n: nat)
    requires n <= |lines|
    ensures var s := After(lines, n);
      if n > 0 && RoleOf(lines, n - 1) == Words then s.para != [] && s.paraLine + |s.para| == n + 1
      else s.para == []
  {
    if n > 0 {
      ParaIsLast(lines, n - 1);
      OpenIsFence(lines, n - 1);
    }
  }

  /** What a step does to the blocks, by the line's role. */
  ghost predicate StepsAs(s: State, t: State, line: Line, n: nat, role: Role) {
    match role
    case Title => line.heading.Some? && t == OnHeading(s.Flush(), line.heading.value).Emit(n, line.heading.value.title)
    case Row => t == s.Flush().Emit(n, line.text)
    case Words => t == OnWords(s, line, n)
    case _ => t.out == s.Flush().out && t.para == [] && t.counted == s.counted
  }

  lemma StepInState(s: State, line: Line, n: nat)
    requires s.open.Some? ==> s.para == []
    ensures StepsAs(s, Step(s, line, n), line, n, RoleIn(s.open, line))
  {
  }

  lemma StepByRole(lines: seq<Line>, n: nat)
    requires 0 < n <= |lines|
    ensures StepsAs(After(lines, n - 1), After(lines, n), lines[n - 1], n, RoleOf(lines, n - 1))
  {
    OpenIsFence(lines, n - 1);
    ParaIsLast(lines, n - 1);
    StepInState(After(lines, n - 1), lines[n - 1], n);
  }

  lemma StepReaches(lines: seq<Line>, n: nat)
    requires 0 < n <= |lines|
    ensures Reached(After(lines, n)) == Reached(After(lines, n - 1)) + (if Owned(lines, n - 1) then [n] else [])
  {
    var s, line, k := After(lines, n - 1), lines[n - 1], n - 1;
    StepByRole(lines, n);
    FlushReaches(s);
    match RoleOf(lines, k) {
      case Title => EmitReaches(OnHeading(s.Flush(), line.heading.value), n, line.heading.value.title);
      case Row => EmitReaches(s.Flush(), n, line.text);
      case Words => ParaIsLast(lines, k); WordsReach(s, line, n);
      case _ => assert Run(After(lines, n).paraLine, 0) == Run(s.Flush().paraLine, 0) == [];
    }
  }

  lemma {:induction false} ReachedIsOwned(lines: seq<Line>, n: nat)
    requires n <= |lines|
    ensures Reached(After(lines, n)) == OwnedLines(lines, n)
  {
    if n > 0 {
      ReachedIsOwned(lines, n - 1);
      StepReaches(lines, n);
    }
  }

  /**
   The blocks partition the lines that are neither fenced nor gaps: read block by block, each
   from its first line on, their lines are those lines, each once and in order.
   */
  lemma BlocksPartitionLines(lines: seq<Line>)
    ensures Covered(Blocks(lines), |Blocks(lines)|) == OwnedLines(lines, |lines|)
  {
    var s := After(lines, |lines|);
    ReachedIsOwned(lines, |lines|);
    FlushReaches(s);
    assert Run(s.Flush().paraLine, 0) == [];
  }

  // ----- What each block is

  lemma CountedPastLine(lines: seq<Line>, n: nat)
    requires 0 < n <= |lines| && RoleOf(lines, n - 1) != Title
    ensures CountedAt(lines, n) <==> CountedAt(lines, n - 1)
  {
    var k := n - 1;
    assert !IsLevel2(lines, k);
    if InHistory(lines, n) {
      var m :| Encloses(lines, m, n);
      EnclosesOneMore(lines, m, n);
    }
    if InHistory(lines, k) {
      var m :| Encloses(lines, m, k);
      EnclosesOneMore(lines, m, n);
    }
  }

  lemma {:induction false} CountedSteady(lines: seq<Line>, a: nat, n: nat)
    requires a <= n <= |lines| && forall k :: a <= k < n ==> RoleOf(lines, k) != Title
    ensures CountedAt(lines, a) <==> CountedAt(lines, n)
  {
    if a < n {
      CountedSteady(lines, a, n - 1);
      CountedPastLine(lines, n);
    }
  }

  /** Line `j` of a prose block: a line of words, which only a block's first line may start as a list item. */
  predicate WordLine(lines: seq<Line>, line: nat, text: seq<string>, j: nat)
    requires 0 < line && j < |text|
  {
    var i := line - 1 + j;
    i < |lines| && RoleOf(lines, i) == Words && text[j] == lines[i].text && (j > 0 ==> !lines[i].item)
  }

  /** A line of words starts a block when it is a list item, or follows no line of words. */
  predicate StartsBlock(lines: seq<Line>, i: nat)
    requires i < |lines|
  {
    lines[i].item || i == 0 || RoleOf(lines, i - 1) != Words
  }

  predicate EndsBlock(lines: seq<Line>, i: nat) {
    i < |lines| ==> RoleOf(lines, i) != Words || lines[i].item
  }

  ghost predicate IsParagraph(lines: seq<Line>, line: nat, text: seq<string>) {
    && 0 < line <= |lines| && text != [] && StartsBlock(lines, line - 1)
    && forall j :: 0 <= j < |text| ==> WordLine(lines, line, text, j)
  }

  ghost predicate IsBlock(lines: seq<Line>, b: Block) {
    && 0 < b.line <= |lines|
    && (b.counted <==> CountedAt(lines, b.line))
    && match b.kind
       case Prose => IsParagraph(lines, b.line, b.text) && EndsBlock(lines, b.line - 1 + |b.text|)
       case Other =>
         || (RoleOf(lines, b.line - 1) == Title && b.text == [lines[b.line - 1].heading.value.title])
         || (RoleOf(lines, b.line - 1) == Row && b.text == [lines[b.line - 1].text])
  }

  ghost predicate AreBlocks(lines: seq<Line>, out: seq<Block>) {
    forall a :: 0 <= a < |out| ==> IsBlock(lines, out[a])
  }

  lemma FlushedAreBlocks(lines: seq<Line>, n: nat, s: State)
    requires n <= |lines| && EndsBlock(lines, n)
    requires AreBlocks(lines, s.out) && (s.counted <==> CountedAt(lines, n))
    requires s.para != [] ==> IsParagraph(lines, s.paraLine, s.para) && s.paraLine + |s.para| == n + 1
    ensures AreBlocks(lines, s.Flush().out)
  {
    if s.para != [] {
      forall k | s.paraLine <= k < n
        ensures RoleOf(lines, k) != Title
      {
        assert WordLine(lines, s.paraLine, s.para, k - s.paraLine + 1);
      }
      CountedSteady(lines, s.paraLine, n);
    }
  }

  lemma ParagraphOneMore(lines: seq<Line>, line: nat, text: seq<string>, i: nat)
    requires i < |lines| && RoleOf(lines, i) == Words
    requires if text == [] then line == i + 1 && StartsBlock(lines, i)
      else IsParagraph(lines, line, text) && line + |text| == i + 1 && !lines[i].item
    ensures IsParagraph(lines, line, text + [lines[i].text])
  {
    var more := text + [lines[i].text];
    forall j | 0 <= j < |more|
      ensures WordLine(lines, line, more, j)
    {
      assert j < |text| ==> WordLine(lines, line, text, j);
    }
  }

  /** What the reader keeps after `n` lines: blocks, and a paragraph that ends at the last line. */
  ghost predicate ReadsRight(lines: seq<Line>, n: nat, s: State) {
    AreBlocks(lines, s.out) && (s.para != [] ==> IsParagraph(lines, s.paraLine, s.para))
  }

  /** What is flushed before line `n` is a block. */
  lemma FlushReadsRight(lines: seq<Line>, n: nat)
    requires 0 < n <= |lines| && ReadsRight(lines, n - 1, After(lines, n - 1)) && EndsBlock(lines, n - 1)
    ensures AreBlocks(lines, After(lines, n - 1).Flush().out)
  {
    ParaIsLast(lines, n - 1);
    CountedIsDeclared(lines, n - 1);
    FlushedAreBlocks(lines, n - 1, After(lines, n - 1));
  }

  lemma WordsReadRight(lines: seq<Line>, n: nat)
    requires 0 < n <= |lines| && ReadsRight(lines, n - 1, After(lines, n - 1)) && RoleOf(lines, n - 1) == Words
    ensures ReadsRight(lines, n, OnWords(After(lines, n - 1), lines[n - 1], n))
  {
    var s, line := After(lines, n - 1), lines[n - 1];
    var t := if line.item then s.Flush() else s;
    ParaIsLast(lines, n - 1);
    if line.item { FlushReadsRight(lines, n); }
    ParagraphOneMore(lines, if t.para == [] then n else t.paraLine, t.para, n - 1);
  }

  lemma EmittedIsBlock(lines: seq<Line>, n: nat, s: State, text: string)
    requires 0 < n <= |lines| && AreBlocks(lines, s.out) && s.para == []
    requires IsBlock(lines, Block(Other, n, [text], s.counted))
    ensures ReadsRight(lines, n, s.Emit(n, text))
  {
  }

  lemma StepReadsRight(lines: seq<Line>, n: nat)
    requires 0 < n <= |lines| && ReadsRight(lines, n - 1, After(lines, n - 1))
    ensures ReadsRight(lines, n, After(lines, n))
  {
    var s, line, k := After(lines, n - 1), lines[n - 1], n - 1;
    StepByRole(lines, n);
    CountedIsDeclared(lines, n);
    if EndsBlock(lines, k) { FlushReadsRight(lines, n); }
    match RoleOf(lines, k) {
      case Title => EmittedIsBlock(lines, n, OnHeading(s.Flush(), line.heading.value), line.heading.value.title);
      case Row => EmittedIsBlock(lines, n, s.Flush(), line.text);
      case Words => WordsReadRight(lines, n);
      case _ =>
    }
  }

  lemma {:induction false} ReaderReadsRight(lines: seq<Line>, n: nat)
    requires n <= |lines|
    ensures ReadsRight(lines, n, After(lines, n))
  {
    if n > 0 {
      ReaderReadsRight(lines, n - 1);
      StepReadsRight(lines, n);
    }
  }

  /**
   Each block is what it should be: a heading, a table row, or a paragraph of consecutive lines
   from its first line on, as long as it can be; and it is counted exactly when its first line
   is below the header and outside every history section.
   */
  lemma BlocksAreRight(lines: seq<Line>)
    ensures AreBlocks(lines, Blocks(lines))
  {
    ReaderReadsRight(lines, |lines|);
    ParaIsLast(lines, |lines|);
    CountedIsDeclared(lines, |lines|);
    FlushedAreBlocks(lines, |lines|, After(lines, |lines|));
  }

  /** A block's first line is among the lines covered, after those of the blocks before it. */
  lemma {:induction false} FirstLineCovered(out: seq<Block>, a: nat, k: nat)
    requires a < k <= |out| && forall j :: 0 <= j < |out| ==> out[j].text != []
    ensures var n := |Covered(out, a)|; n < |Covered(out, k)| && Covered(out, k)[n] == out[a].line
    decreases k
  {
    if a < k - 1 {
      FirstLineCovered(out, a, k - 1);
    } else {
      RunStarts(out[a].line, |out[a].text|);
    }
  }

  lemma {:induction false} RunStarts(a: nat, len: nat)
    requires len > 0
    ensures |Run(a, len)| == len && Run(a, len)[0] == a
  {
    if len > 1 { RunStarts(a, len - 1); }
  }

  /** Each block starts after the one before it. */
  lemma LinesIncrease(lines: seq<Line>, a: nat, b: nat)
    requires a < b < |Blocks(lines)|
    ensures Blocks(lines)[a].line < Blocks(lines)[b].line
  {
    var out := Blocks(lines);
    BlocksAreRight(lines);
    assert forall j :: 0 <= j < |out| ==> IsBlock(lines, out[j]);
    FirstLineCovered(out, a, |out|);
    FirstLineCovered(out, b, |out|);
    FirstLineCovered(out, a, b);
    BlocksPartitionLines(lines);
    OwnedLinesListed(lines, |lines|, 0);
  }

  // ----- The source line of an offset

  /** `text[:k].count("\n")` */
  function Breaks(s: string, k: nat): nat
    requires k <= |s|
  {
    if k == 0 then 0 else Breaks(s, k - 1) + (if s[k - 1] == '\n' then 1 else 0)
  }

  ghost predicate Unbroken(s: string) { forall k :: 0 <= k < |s| ==> s[k] != '\n' }

  lemma {:induction false} BreaksInPrefix(a: string, b: string, k: nat)
    requires k <= |a| && a <= b
    ensures Breaks(b, k) == Breaks(a, k)
  {
    if k > 0 { BreaksInPrefix(a, b, k - 1); }
  }

  lemma {:induction false} NoBreaks(s: string, i: nat, k: nat)
    requires i <= k <= |s| && forall j :: i <= j < k ==> s[j] != '\n'
    ensures Breaks(s, k) == Breaks(s, i)
  {
    if i < k { NoBreaks(s, i, k - 1); }
  }

  lemma {:induction false} LengthOfJoin(text: seq<string>, n: nat)
    requires 0 < n <= |text|
    ensures |Joined(text, 0, n, '\n')| + 1 == StartOf(text, n)
  {
    if n > 1 { LengthOfJoin(text, n - 1); }
  }

  /** The line breaks before an offset say which line of the block it is in. */
  lemma {:induction false} OffsetIsInLine(text: seq<string>, n: nat, off: nat)
    requires 0 < n <= |text| && off <= |Joined(text, 0, n, '\n')| && forall j :: 0 <= j < n ==> Unbroken(text[j])
    ensures var j := Breaks(Joined(text, 0, n, '\n'), off);
      j < n && StartOf(text, j) <= off <= StartOf(text, j) + |text[j]|
    ensures off == |Joined(text, 0, n, '\n')| ==> Breaks(Joined(text, 0, n, '\n'), off) == n - 1
  {
    var s := Joined(text, 0, n, '\n');
    if n == 1 {
      NoBreaks(s, 0, off);
    } else {
      var before := Joined(text, 0, n - 1, '\n');
      var e := |before|;
      LengthOfJoin(text, n - 1);
      BreaksInPrefix(before, s, if off <= e then off else e);
      OffsetIsInLine(text, n - 1, if off <= e then off else e);
      if off > e {
        assert forall j :: e < j < |s| ==> s[j] == text[n - 1][j - e - 1];
        NoBreaks(s, e + 1, off);
      }
    }
  }

  /**
   For a block of a text whose lines hold no line break, its line plus the line breaks before an
   offset is the number of the source line that the offset is in.
   */
  lemma SourceLineOfOffset(lines: seq<Line>, b: Block, off: nat)
    requires IsBlock(lines, b) && b.kind == Prose && off <= |Joined(b.text, 0, |b.text|, '\n')|
    requires forall i :: 0 <= i < |lines| ==> Unbroken(lines[i].text)
    ensures var j := Breaks(Joined(b.text, 0, |b.text|, '\n'), off); var i := b.line + j - 1;
      j < |b.text| && i < |lines| && RoleOf(lines, i) == Words && b.text[j] == lines[i].text &&
      StartOf(b.text, j) <= off <= StartOf(b.text, j) + |lines[i].text|
  {
    forall j | 0 <= j < |b.text|
      ensures WordLine(lines, b.line, b.text, j) && Unbroken(b.text[j])
    {
      assert WordLine(lines, b.line, b.text, j);
    }
    OffsetIsInLine(b.text, |b.text|, off);
  }
}
