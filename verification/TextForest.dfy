/**
 From lines to forest: the events that scripts/gen-rules-index.py places are the blocks of the
 prose reader, each with what its own source line says.
 */
module TextForest {
  import P = ProseBlocks
  import F = BlockForest

  /** A block that is no prose is a row when its text starts with a pipe, whatever it was read as. */
  predicate StartsWithPipe(b: P.Block) { b.text != [] && b.text[0] != "" && b.text[0][0] == '|' }

  /** `indents` holds each line's indent. */
  function EventOf(lines: seq<P.Line>, indents: seq<nat>, b: P.Block): F.Event
    requires |indents| == |lines| && 0 < b.line <= |lines|
  {
    match b.kind
    case Prose => F.Para(b.line, indents[b.line - 1], lines[b.line - 1].item)
    case Other => if StartsWithPipe(b) then F.Row(b.line) else F.Heading(b.line)
  }

  lemma BlocksInText(lines: seq<P.Line>)
    ensures forall a :: 0 <= a < |P.Blocks(lines)| ==> 0 < P.Blocks(lines)[a].line <= |lines|
  {
    P.BlocksAreRight(lines);
    forall a | 0 <= a < |P.Blocks(lines)|
      ensures 0 < P.Blocks(lines)[a].line <= |lines|
    {
      assert P.IsBlock(lines, P.Blocks(lines)[a]);
    }
  }

  function EventsOf(lines: seq<P.Line>, indents: seq<nat>): (r: seq<F.Event>)
    requires |indents| == |lines|
    ensures |r| == |P.Blocks(lines)|
  {
    BlocksInText(lines);
    seq(|P.Blocks(lines)|, a requires 0 <= a < |P.Blocks(lines)| => EventOf(lines, indents, P.Blocks(lines)[a]))
  }

  lemma EventsAreOrdered(lines: seq<P.Line>, indents: seq<nat>)
    requires |indents| == |lines|
    ensures F.Ordered(EventsOf(lines, indents))
  {
    var evs := EventsOf(lines, indents);
    BlocksInText(lines);
    forall a, b | 0 <= a < b < |evs|
      ensures evs[a].line < evs[b].line
    {
      P.LinesIncrease(lines, a, b);
    }
  }

  /** The blocks of every text form a forest, with the parents that `read_rules` looks up. */
  lemma EveryTextIsForest(lines: seq<P.Line>, indents: seq<nat>)
    requires |indents| == |lines|
    ensures var evs := EventsOf(lines, indents); F.Ordered(evs) && F.IsForest(F.Forest(evs), F.Parents(evs))
  {
    EventsAreOrdered(lines, indents);
    F.ForestIsForest(EventsOf(lines, indents));
  }

  /** Event `a` is a block's: where it starts, and what its line says. */
  lemma EventOfBlock(lines: seq<P.Line>, indents: seq<nat>, a: nat)
    requires |indents| == |lines| && a < |P.Blocks(lines)|
    ensures var b := P.Blocks(lines)[a];
      && 0 < b.line <= |lines| && P.IsBlock(lines, b)
      && EventsOf(lines, indents)[a] == EventOf(lines, indents, b)
  {
    P.BlocksAreRight(lines);
    assert P.IsBlock(lines, P.Blocks(lines)[a]);
  }

  /** A heading's title or a row, as the reader shows it, starts with a pipe. */
  predicate ShowsPipe(line: P.Line) {
    var shown := if line.heading.Some? then line.heading.value.title else line.text;
    shown != "" && shown[0] == '|'
  }

  /** What a block's event is, by the role of its first line. */
  ghost predicate EventIs(line: P.Line, role: P.Role, indent: nat, n: nat, e: F.Event) {
    && e.line == n && (role == P.Title || role == P.Row || role == P.Words)
    && (e.Para? <==> role == P.Words) && (e.Row? <==> role != P.Words && ShowsPipe(line))
    && (e.Para? ==> e.item == line.item && e.indent == indent)
  }

  lemma BlockEvent(lines: seq<P.Line>, indents: seq<nat>, b: P.Block)
    requires |indents| == |lines| && P.IsBlock(lines, b)
    ensures var i := b.line - 1; EventIs(lines[i], P.RoleOf(lines, i), indents[i], b.line, EventOf(lines, indents, b))
  {
    hide P.FenceAfter;
    if b.kind == P.Prose {
      assert P.WordLine(lines, b.line, b.text, 0);
    } else {
      assert b.text[0] == if P.RoleOf(lines, b.line - 1) == P.Title then lines[b.line - 1].heading.value.title
        else lines[b.line - 1].text;
    }
  }

  /**
   Each block of a text in full, by its first line: prose where that is a line of words, with
   the item and the indent found there; else a row where what is shown starts with a pipe, as a
   heading's title may too; else a heading.
   */
  lemma BlocksAreAsLines(lines: seq<P.Line>, indents: seq<nat>, a: nat)
    requires |indents| == |lines| && a < |P.Blocks(lines)|
    ensures var n, evs := P.Blocks(lines)[a].line, EventsOf(lines, indents);
      && 0 < n <= |lines|
      && EventIs(lines[n - 1], P.RoleOf(lines, n - 1), indents[n - 1], n, evs[a])
      && var b := F.Forest(evs)[a];
      && b.line == n
      && (b.kind == F.ProseKind <==> P.RoleOf(lines, n - 1) == P.Words)
      && (b.kind == F.RowKind <==> P.RoleOf(lines, n - 1) != P.Words && ShowsPipe(lines[n - 1]))
      && (b.kind == F.HeadingKind <==> P.RoleOf(lines, n - 1) != P.Words && !ShowsPipe(lines[n - 1]))
      && (b.item <==> P.RoleOf(lines, n - 1) == P.Words && lines[n - 1].item)
  {
    hide F.Forest, P.Blocks, P.IsBlock, P.RoleOf, EventsOf, EventOf, ShowsPipe;
    EventOfBlock(lines, indents, a);
    BlockEvent(lines, indents, P.Blocks(lines)[a]);
    F.ForestIs(EventsOf(lines, indents), a);
  }
}
