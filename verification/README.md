# Text engines, proved

A Dafny model of the stateful text engines and the one ordered index of the repository, with proofs of
what they promise. Each module follows one component:

| file | component |
|---|---|
| `TextForest.dfy` | from the prose reader's blocks to the forest |
| `BlockForest.dfy` | the list-item forest of `scripts/gen-rules-index.py`: `blocks_of`, `within`, `list_items` |
| `Evidence.dfy` | its evidence engine: `owe_evidence` and the passes of `read_rules`, as methods of a class that updates the lists in place, each proved equal to a step function |
| `EvidenceTerms.dfy` | the terms in which a rule's evidence is described, on blocks and forest alone |
| `EvidenceRuns.dfy` | the passes and the steps, followed for one rule at a time |
| `EvidenceFate.dfy` | where a rule's evidence comes from, over whole texts |
| `EvidenceSharing.dfy` | what follows from the rules of a block sharing one list object |
| `EvidenceLeadIns.dfy` | what a rule that leads a list collects |
| `EvidenceExposed.dfy` | what a rule has that shares its list with one that leads a list |
| `Wrapping.dfy`, `Anchors.dfy` | its line wrapper and heading anchors |
| `TableRows.dfy`, `RowText.dfy` | table cells and rows: those it writes, and any it reads |
| `BoldRuns.dfy`, `Shortening.dfy` | bold runs, and its truncator, which cuts none |
| `ProseBlocks.dfy` | the line-driven block reader of `scripts/check-spec-prose.py` |
| `Tags.dfy` | its parenthesis stack and history tags |
| `Words.dfy`, `Sentences.dfy`, `SentenceCuts.dfy` | its word count and sentence splitter, the slices `sentences_of` makes with it, and where both cut |
| `Ratchet.dfy` | its baseline, over any number of runs |
| `Text.dfy`, `Leftmost.dfy`, `CodeSpans.dfy`, `Wrappers.dfy` | characters and blanks; the leftmost matches of a pattern; inline code spans; the type of optional values |
| `ByteOrder.dfy`, `SortedSet.dfy`, `Expansion.dfy` | the open nodes of a tree, `zengui/src/expansion.rs`, on the sorted set of paths they are kept in |
| `Literals.dfy` | the string-literal scanner of `scripts/check-prose.py` |
| `SourceLocations.dfy` | the location trimmer of `zenctl/src/errors.rs` |

Code that updates variables in a loop is a method with loop invariants, or a class with fields; its contract equates
the result with a function of the input, and the lemmas are about that function, against a definition that does not
mention the loop or the function: open brackets by depth, nearest smaller indents, the outermost history section, the
shortest wrapping, leftmost matches, the first place that can end a sentence, the first block that serves a rule. The evidence a rule has is so defined for every rule, at every point of
every text: by what it starts with (`EvidenceFate.EvidenceAtBirthStays`), by the list it leads
(`EvidenceLeadIns.LeadInHasItsList`), by the block that serves it (`EvidenceSharing.EvidenceIsServed`), or by the
lead-in it shares a list with (`EvidenceExposed.EvidenceIsBorrowed`).

## What the code does that its documentation does not say

- **A settled rule's evidence can change.** `ev = … or block_evidence` (`scripts/gen-rules-index.py:609`) gives every
  rule of a block that cites nothing the *same* list object, and `owe_evidence` appends to a lead-in's list in place
  (lines 813 and 818). So where a block makes a lead-in and another rule and neither cites anything, what the lead-in
  collects shows up in the other rule, which may still be waiting and is then given something else.
  `EvidenceSharing.SettledIff` says for exactly which blocks: those with such a lead-in, unless the block is a paragraph
  that goes on a list item. For every other rule, evidence is assigned once. What the exposed rules have at each point
  is `EvidenceExposed.EvidenceIsBorrowed`.
- **A lead-in in a paragraph that goes on a list item has length 0.** `list_items` describes, for a block that is no
  list item, the top-level items after it or the rows of a table, but it treats a continuing paragraph as an item, and
  nothing sits under a paragraph. `BlockForest.ContinuingLeadsNothing` is an input, and
  `BlockForest.ListLengthAsDescribedIff` the exact condition.
- **Anchors can clash.** Titles "a", "a" and "a-1" get "a", "a-1" and "a-1" (`Anchors.ThirdHeadingClashes`);
  `Anchors.AnchorsDistinctIff` is the exact condition.
- **Table rows do not always round-trip.** Backticks in two cells can form a code span over the pipe between them, as
  in `TableRows.TicksRunTogether`; and a NUL or SOH in a cell reads as a pipe. `TableRows.RowsRoundTripIff` is the exact
  condition.
- **`shorten` can keep more than `limit` words, and marks a sentence it has not cut.** Stopping at the limit may fall
  inside a code span or a bold run: `Shortening.OverLimitIff` says exactly when the limit is exceeded,
  `Shortening.KeptWholeIff` exactly when no word is left out and the mark is added all the same, and
  `Shortening.CodeSpanIsKeptWhole` is such a sentence.

## Model

| member | source | states |
|---|---|---|
| `BlockForest.PopItems` | `scripts/gen-rules-index.py:455-456` | the loop leaves exactly the open items left of the indent |
| `BlockForest.PlaceBlock` | `scripts/gen-rules-index.py:443-467` | one block: its parent is the last item left on the stack, and the stack after it |
| `BlockForest.BlocksOf` | `scripts/gen-rules-index.py:438-467` | the blocks yielded are those of the forest, parents and items included |
| `BlockForest.StackHoldsOpen` | `scripts/gen-rules-index.py:442-465` | the stack holds exactly the items that nothing since has closed, in order, with strictly increasing indents |
| `BlockForest.ParentIsNearest` | `scripts/gen-rules-index.py:454-465` | nearest smaller values: a block's parent is the latest earlier item left of it that no prose block, top-level paragraph or heading since has closed, and there is none only when there is no such item |
| `BlockForest.Within` | `scripts/gen-rules-index.py:837-843` | the loop ends, and answers whether a chain of parents leads from one block to the other |
| `BlockForest.ParentsGoUp` | `scripts/gen-rules-index.py:495` | a parent's line is before its child's, which is why `within` ends |
| `BlockForest.UnderIffOpen` | `scripts/gen-rules-index.py:837-843` | `within` an item exactly when the item is still open at the block: the parent chain and the stack agree |
| `BlockForest.WithinIs` | `scripts/gen-rules-index.py:837-843` | `within` in full: a block is within itself, and within the items that are open at it when it is prose, and within nothing else |
| `BlockForest.SubtreeIsInterval` | `scripts/gen-rules-index.py:438-467` | among the prose after an item, once a block is outside its subtree no later one is inside |
| `BlockForest.ForestIsForest` | `scripts/gen-rules-index.py:438-467` | blocks built from lines in order are a forest: parents are earlier items, rows and headings have none, subtrees are intervals |
| `BlockForest.ForestIs` | `scripts/gen-rules-index.py:438-467` | each block in full: it is a heading, a row or prose exactly when its line is, on that line, an item if it starts one, and its parent is the nearest open item left of it if there is one |
| `BlockForest.ListItems` | `scripts/gen-rules-index.py:759-790` | the two loops compute the list length that the lemmas below are about |
| `BlockForest.CountsListed` | `scripts/gen-rules-index.py:775-785` | for an item, the count is of its direct child items before its own next paragraph, a row, a heading or its subtree's end |
| `BlockForest.CountsTopListed` | `scripts/gen-rules-index.py:785-790` | for a top-level lead-in, the count is of the top-level items of the run that follows |
| `BlockForest.ListLengthIs` | `scripts/gen-rules-index.py:759-790` | the length in every case, a table's rows as a negative and a continuing paragraph's 0 |
| `BlockForest.ListLengthAsDescribedIff` | `scripts/gen-rules-index.py:759-790` | for a block that is no list item, the length is the one described (a table's rows as a negative, else the top-level items right after it) exactly when the block is at the top level or has nothing there to count |
| `BlockForest.ContinuingLeadsNothing` | `scripts/gen-rules-index.py:759-790` | an item, a paragraph that goes on it and another item: the paragraph gets 0 where 1 is described |
| `TextForest.EventsAreOrdered` | `scripts/gen-rules-index.py:443-467` | the blocks the prose reader yields reach the forest in the order of their lines |
| `TextForest.BlocksAreAsLines` | `scripts/gen-rules-index.py:443-467` | what each block of a text is, by its first line: prose with that line's item flag and indent, else a row where what is shown starts with a pipe, else a heading |
| `TextForest.EveryTextIsForest` | `scripts/gen-rules-index.py:438-495` | so the blocks of every text form a forest, with the parents `read_rules` looks up |
| `Evidence.Added` | `scripts/gen-rules-index.py:811-813` | appending tags keeps what the list had at the front |
| `Evidence.Reader.Append` | `scripts/gen-rules-index.py:811-813` | each tag not yet there is appended, in place, to the list the rule may share |
| `Evidence.Reader.MakeRules` | `scripts/gen-rules-index.py:604-649` | each rule has its own evidence, or shares its block's list object |
| `Evidence.Reader.OweEvidence` | `scripts/gen-rules-index.py:793-827` | the loop over the waiting rules: the lists after it, and who goes on waiting |
| `Evidence.Reader.StartWaiting` | `scripts/gen-rules-index.py:653-659` | the block's rules without evidence wait, and all of them join the section |
| `Evidence.Reader.ClosePass` | `scripts/gen-rules-index.py:664-672` | the loop over the section's rules: who is cited by a paragraph that closes a list |
| `Evidence.Reader.TakeRules` | `scripts/gen-rules-index.py:604-659` | the three passes in the order they run |
| `Evidence.Reader.ReadBlock` | `scripts/gen-rules-index.py:502-674` | one block: the whole new state is the step function of the old one |
| `Evidence.ReadRules` | `scripts/gen-rules-index.py:492-674` | the whole loop gives each rule the evidence of the specification's last state |
| `EvidenceRuns.OweRule` | `scripts/gen-rules-index.py:805-827` | giving a block's evidence moves the rules it answers to a list of their own, and no other rule |
| `EvidenceRuns.OweSpares` | `scripts/gen-rules-index.py:805-827` | a list that no waiting lead-in has stays as it is |
| `EvidenceRuns.OweFeeds` | `scripts/gen-rules-index.py:808-814` | a lead-in ends with every tag of a block of its list |
| `EvidenceRuns.KeptAre` | `scripts/gen-rules-index.py:814-827` | exactly the kept rules go on waiting |
| `EvidenceRuns.CloseRule` | `scripts/gen-rules-index.py:668-672` | the closing pass gives the block's evidence to the cited rules that have none, and changes no other rule |
| `EvidenceRuns.StepKnows` | `scripts/gen-rules-index.py:650-659` | over a block a rule keeps waiting exactly when the block keeps it, and stays in its section |
| `EvidenceRuns.StepQuiet` | `scripts/gen-rules-index.py:650-672` | what a block makes of the evidence of a rule that shares its list with no waiting lead-in |
| `EvidenceRuns.StepMakes` | `scripts/gen-rules-index.py:609-659` | a rule starts with what its sentence or its block cites, and waits when that is nothing |
| `EvidenceRuns.SharersAreSiblings` | `scripts/gen-rules-index.py:609` | only rules of one block that cite nothing share a list |
| `EvidenceFate.EvidenceAtBirthStays` | `scripts/gen-rules-index.py:609-672` | a rule that starts with evidence has just that at every later point of the text |
| `EvidenceFate.NoEvidenceCrossesHeading` | `scripts/gen-rules-index.py:504-509` | what a rule has at a heading it has for the rest of the text |
| `EvidenceFate.LeadInOnlyGrows` | `scripts/gen-rules-index.py:808-819` | at any two points of a text, a lead-in's earlier evidence is the front of its later evidence |
| `EvidenceFate.CitesAnswers` | `scripts/gen-rules-index.py:666-671` | both closing conditions imply the answering condition of `owe_evidence` at line 821 |
| `EvidenceFate.ClosingSparesWaiting` | `scripts/gen-rules-index.py:650-672` | the closing pass never writes to a rule that still waits after the block, lead-in or not |
| `EvidenceFate.AnswersAsSaid` | `scripts/gen-rules-index.py:820-825` | when a block answers a rule, and when it ends its wait, in terms of the two blocks and the forest |
| `EvidenceFate.RulesAreNumbered` | `scripts/gen-rules-index.py:502-649` | the rules come in the order of their blocks, none from a heading or a divider |
| `EvidenceFate.EvidenceOfRule` | `scripts/gen-rules-index.py:502-674` | what the whole loop leaves for a rule of any block is the evidence the results are about |
| `EvidenceFate.TopStartIs` | `scripts/gen-rules-index.py:498-508` | `top_start` is past a block exactly when a heading or a top-level paragraph has followed it |
| `EvidenceFate.EvidenceIsFirstServed` | `scripts/gen-rules-index.py:650-672` | a rule that leads no list, starts with nothing and shares its list with no lead-in has at every point the evidence of the first block that answers it while it waits or closes its list, in its section, and none before |
| `EvidenceSharing.BuiltTextIsText` | `scripts/gen-rules-index.py:492-495` | the texts the results below are about include every text `blocks_of` yields |
| `EvidenceSharing.BuiltBlocksCanOccur` | `scripts/gen-rules-index.py:438-467` | every block `blocks_of` yields is one that `SettledIff` speaks of |
| `EvidenceSharing.NextBlock` | `scripts/gen-rules-index.py:438-467` | the block after a continuing paragraph is not under it, and answers its rules if it is a paragraph of evidence |
| `EvidenceSharing.EvidenceIsServed` | `scripts/gen-rules-index.py:650-672` | a rule that leads no list, starts with nothing and is not exposed has at every point the evidence of the first block that serves it; a continuing paragraph's rules do even beside a lead-in |
| `EvidenceSharing.WaitIsOver` | `scripts/gen-rules-index.py:824-825` | once a block that holds a rule and does not sit under the rule's own has been read, no later block changes the rule's evidence, unless it closes the list |
| `EvidenceSharing.NoEvidenceCrossesHeadingOf` | `scripts/gen-rules-index.py:504-509` | in every text `blocks_of` yields, what a rule has when a heading line comes it has for the rest of the text |
| `EvidenceSharing.SettlesUnlessExposed` | `scripts/gen-rules-index.py:650-672` | assigned once: over every block sequence, the evidence of a rule that leads no list and is not exposed never changes once there is some |
| `EvidenceSharing.Unsettles` | `scripts/gen-rules-index.py:609-822` | a block that feeds a lead-in and leaves the other rule waiting, then one that answers that rule, change its evidence |
| `EvidenceSharing.TopIsBuilt` | `scripts/gen-rules-index.py:438-467` | the failing text for a block at the top level is one `blocks_of` yields |
| `EvidenceSharing.ItemIsBuilt` | `scripts/gen-rules-index.py:438-467` | so is the one for a list item |
| `EvidenceSharing.SubItemIsBuilt` | `scripts/gen-rules-index.py:438-467` | and the one for an item under another |
| `EvidenceSharing.SettledIff` | `scripts/gen-rules-index.py:609-672` | a rule that leads no list is assigned evidence once in every text `blocks_of` yields that holds its block if and only if it is not exposed |
| `EvidenceLeadIns.OweAdds` | `scripts/gen-rules-index.py:808-819` | however many lead-ins share a list, a block's tags are added to it once |
| `EvidenceLeadIns.AddedIsNew` | `scripts/gen-rules-index.py:811-813` | what is appended is each tag that is not there yet, once, in the order cited |
| `EvidenceLeadIns.InsideAsSaid` | `scripts/gen-rules-index.py:808-819` | which blocks are in a rule's list and which feed it, in terms of the blocks and the forest |
| `EvidenceLeadIns.LeadInHasItsList` | `scripts/gen-rules-index.py:796-819` | a lead-in that starts with nothing has at every point the tags of the blocks of its list and of the paragraph that ends it, in order; failing those, what closes its list |
| `EvidenceLeadIns.ListTags` | `scripts/gen-rules-index.py:796-819` | a tag is a lead-in's exactly when some block supplied it: no tag is lost, and none comes from elsewhere |
| `EvidenceExposed.StepParts` | `scripts/gen-rules-index.py:820-823` | a block that answers a waiting rule gives it a list of its own, which nothing changes any more |
| `EvidenceExposed.StepTogether` | `scripts/gen-rules-index.py:806-827` | a rule and a lead-in on one list have the same evidence after any block that does not answer the rule, the closing pass included |
| `EvidenceExposed.EvidenceIsBorrowed` | `scripts/gen-rules-index.py:609-672` | a rule that shares its list with a lead-in has at every point what the lead-in has, until a block answers it while it waits, and that block's evidence from then on |
| `EvidenceExposed.SettledInTextIff` | `scripts/gen-rules-index.py:609-672` | one text settles such a rule exactly when, before the block that answers it, only the first tags to reach the lead-in are new, and that block cites just what the lead-in has by then, if anything |
| `Wrapping.Para` | `scripts/gen-rules-index.py:978-990` | the lines written are those of the greedy choice, each word whole, and a blank line |
| `Wrapping.LengthOfJoined` | `scripts/gen-rules-index.py:983` | the length compared with the width is that of the words joined by blanks |
| `Wrapping.GreedyWraps` | `scripts/gen-rules-index.py:983-987` | no line of more than one word exceeds the width |
| `Wrapping.GreedyStaysAhead` | `scripts/gen-rules-index.py:983-987` | of all wrappings with as few lines, none starts its last line later |
| `Wrapping.GreedyIsOptimal` | `scripts/gen-rules-index.py:978-990` | no order-preserving split into such lines has fewer lines |
| `Wrapping.LinesHoldEveryWordOnce` | `scripts/gen-rules-index.py:978-990` | every word is on exactly one line, in order |
| `Wrapping.LinesAreRight` | `scripts/gen-rules-index.py:978-990` | the lines themselves: joined by blanks they are the text, and each is at most as long as the width or a single word |
| `TableRows.FlatOfFlat` | `scripts/gen-rules-index.py:434-435` | flattening gives words with one space between, and changes nothing that is so already |
| `TableRows.CellIsFlat` | `scripts/gen-rules-index.py:956-958` | a cell is flat, and every pipe in it is escaped |
| `TableRows.CellIsIdempotent` | `scripts/gen-rules-index.py:956-958` | making a cell of a cell changes nothing |
| `TableRows.CellKeepsText` | `scripts/gen-rules-index.py:956-958` | a cell keeps the words of its text, and its characters once pipes are no longer escaped |
| `TableRows.ShownIsParted` | `scripts/gen-rules-index.py:470-475` | the placeholders part a row at exactly the pipes that are neither escaped nor in inline code, and keep every other character but a NUL or SOH, which reads as the pipe it stands for |
| `RowText.RowCellsAreBetween` | `scripts/gen-rules-index.py:470-475` | what is read in any row: the stripped texts between the pipes that no backslash is before and no code span holds, all of them and in order, inside the blanks and then pipes at both ends |
| `TableRows.RowsRoundTripIff` | `scripts/gen-rules-index.py:470-475` | a row of cells in cell form is read back as those cells if and only if they hold no NUL or SOH and no code span runs over a pipe between two of them |
| `TableRows.TicksRunTogether` | `scripts/gen-rules-index.py:470-475` | two cells of one backtick each are in cell form and are not read back |
| `TableRows.PlainRowsRoundTrip` | `scripts/gen-rules-index.py:470-475` | so rows of cells without backticks are, escaped pipes included, exactly when they hold no NUL or SOH |
| `Shortening.Shorten` | `scripts/gen-rules-index.py:928-953` | the loops: `pos` is always the next word's start, and the result is the specification's |
| `Shortening.JoinIsPrefix` | `scripts/gen-rules-index.py:931-953` | the words joined again are the sentence up to the next word's start |
| `BoldRuns.BoldsAreLeftmost` | `scripts/gen-rules-index.py:937` | the bold runs found are exactly the leftmost matches: two stars, characters that are no stars, two stars |
| `Shortening.UncutIsCodeOrBold` | `scripts/gen-rules-index.py:936-938` | the spans that are not cut are the leftmost code spans and the leftmost bold runs, all of them and no other |
| `Shortening.WordLoopCuts` | `scripts/gen-rules-index.py:945-953` | the word loop stops at the first word start from the limit on that is outside every span, and its cut is inside no span even with the trailing marks dropped |
| `Shortening.WordsOfCut` | `scripts/gen-rules-index.py:945-953` | cut after its first `n` words, the trailing marks dropped, a sentence still has exactly `n` words |
| `Shortening.OverLimitIff` | `scripts/gen-rules-index.py:929-953` | the promise of at most `limit` words before the mark fails exactly when stopping at the limit would fall inside a span and no clause end will do (or the limit is below 1) |
| `Shortening.KeptWholeIff` | `scripts/gen-rules-index.py:945-953` | a sentence over the limit loses nothing but its trailing `,;:` exactly when every word start from the limit on is inside a span and no clause end will do |
| `Shortening.CodeSpanIsKeptWhole` | `scripts/gen-rules-index.py:945-953` | a code span of two words, with a limit of one, is kept whole and marked |
| `Shortening.ShortenedIsCut` | `scripts/gen-rules-index.py:928-953` | the sentence itself if short enough, else a prefix and the mark: never reworded, never cut inside a span, after the first clause end that will do, else at the word loop's stop; with the two exact conditions above on the result itself |
| `Anchors.Allocator.Slug` | `scripts/gen-rules-index.py:332-341` | the anchor is the bare slug numbered by the headings before it with that slug, and earlier anchors stand |
| `Anchors.DecimalReadsBack` | `scripts/gen-rules-index.py:341` | decimal rendering is injective: it reads back |
| `Anchors.NoLeadingZero` | `scripts/gen-rules-index.py:341` | only 0 starts with a zero |
| `Anchors.AnchorIs` | `scripts/gen-rules-index.py:332-341` | an anchor is the bare slug if no heading before has it, else the slug, a dash and the number of those that do, in decimal |
| `Anchors.NumberedIsInjective` | `scripts/gen-rules-index.py:341` | the last dash parts a numbered anchor into its slug and its number, in one way |
| `Anchors.AnchorsDistinctIff` | `scripts/gen-rules-index.py:332-341` | anchors are pairwise different if and only if no bare slug is another's with the number of one of its repeats |
| `Anchors.ThirdHeadingClashes` | `scripts/gen-rules-index.py:332-341` | "a", "a" and "a-1" give two equal anchors |
| `ProseBlocks.BlocksOf` | `scripts/check-spec-prose.py:208-259` | the loop over the lines, with its flushes, yields the specification's blocks |
| `ProseBlocks.FenceIffOpened` | `scripts/check-spec-prose.py:222-231` | a line is in a fence exactly when a line before it opened one of that mark and length and none since closed it |
| `ProseBlocks.HistoryLevelIsOutermost` | `scripts/check-spec-prose.py:236-239` | the one level kept is that of the outermost history section still enclosing, and there is none exactly when it is unset |
| `ProseBlocks.CountedIsDeclared` | `scripts/check-spec-prose.py:232-243` | counted exactly when a level-2 heading has been seen and no history heading so far still encloses |
| `ProseBlocks.BlocksPartitionLines` | `scripts/check-spec-prose.py:208-259` | the lines that are neither fenced nor gaps are covered by the blocks, each once and in order |
| `ProseBlocks.OwnedLinesListed` | `scripts/check-spec-prose.py:222-258` | those lines, in order, each once, and no other |
| `ProseBlocks.BlocksAreRight` | `scripts/check-spec-prose.py:208-259` | each block is a heading, a row, or a maximal paragraph of consecutive lines from its reported line, and is counted as its first line is |
| `ProseBlocks.LinesIncrease` | `scripts/check-spec-prose.py:208-259` | each block starts after the one before it |
| `ProseBlocks.OffsetIsInLine` | `scripts/gen-rules-index.py:610` | the line breaks before an offset say which line of the joined text it is in |
| `ProseBlocks.SourceLineOfOffset` | `scripts/gen-rules-index.py:610` | a block's line plus the line breaks before an offset in its raw text is the offset's source line |
| `Tags.ReadBrackets` | `scripts/check-spec-prose.py:181-187` | the loop's stack gives the owners and pairs of the specification |
| `Tags.StackHoldsOpen` | `scripts/check-spec-prose.py:181-187` | the stack holds exactly the parentheses still open, by depth, innermost last |
| `Tags.PairsAreMatches` | `scripts/check-spec-prose.py:185-186` | the pairs are exactly the matching brackets, balanced between |
| `Tags.OwnerIsInnermost` | `scripts/check-spec-prose.py:187` | a position's owner is the innermost bracket open there, and none when none is |
| `Tags.SpansAreLaminar` | `scripts/check-spec-prose.py:181-195` | matched spans are nested or disjoint, and unclosed ones run to the end |
| `Tags.OpenIffSpansMark` | `scripts/check-spec-prose.py:187-195` | a bracket is open at a marker exactly when its span holds the marker |
| `Tags.FileMark` | `scripts/check-spec-prose.py:189-195` | filing a marker under its key leaves the first tag filed there |
| `Tags.TagsOf` | `scripts/check-spec-prose.py:175-196` | the two loops and the sort give the tag list of the specification |
| `Tags.TagIsInnermost` | `scripts/check-spec-prose.py:176-195` | each marker has one tag: the innermost parenthesis whose span holds it, or an excerpt |
| `Tags.TagListIsExact` | `scripts/check-spec-prose.py:175-196` | tag offsets strictly increase, and the tags are exactly those of the markers |
| `Tags.SharedTagIffSharedBracket` | `scripts/check-spec-prose.py:195` | two markers share a tag if and only if they share an innermost bracket |
| `CodeSpans.SpansAreApart` | `scripts/check-spec-prose.py:105` | code spans are in order, apart, and each is between backticks |
| `CodeSpans.SpansAreLeftmost` | `scripts/check-spec-prose.py:105` | the spans are exactly the leftmost matches: as many backticks as are closed, at least one character, and the first later run of as many; every match begins a span or begins inside one |
| `Leftmost.LeftmostIsUnique` | `scripts/check-spec-prose.py:105` | no other list of spans is that of the leftmost matches |
| `Words.WordsAreCounted` | `scripts/check-spec-prose.py:142-143` | the count by tokens is a count of first letters or digits, which can be cut at any blank |
| `Words.WordsOfStripped` | `scripts/check-spec-prose.py:153-157` | stripping a sentence keeps its words |
| `Sentences.SentencesOf` | `scripts/check-spec-prose.py:146-157` | the loop over the boundaries, abbreviations skipped, yields the specification's sentences |
| `Sentences.SplittingConservesWords` | `scripts/check-spec-prose.py:278-283` | the words of a block's sentences sum to the words of the block, wherever it is split |
| `Sentences.SentencesStart` | `scripts/check-spec-prose.py:146-157` | sentence offsets strictly increase from the start, each later one right after a blank |
| `SentenceCuts.BoundaryIsFound` | `scripts/check-spec-prose.py:113` | a boundary is an end mark, closers, at least one blank, and then an opener |
| `SentenceCuts.AbbreviationIsFound` | `scripts/check-spec-prose.py:112-152` | which end marks are an abbreviation's, by the characters before them |
| `SentenceCuts.SentencesAreCut` | `scripts/check-spec-prose.py:146-157` | each later sentence starts at the first boundary after the one before it that no abbreviation ends at, each text is what lies up to its end mark, stripped, and no such boundary follows the last start |
| `Sentences.SlicesOf` | `scripts/gen-rules-index.py:422-431` | the slices are cut at the starts found in the masked text |
| `Sentences.SlicesAreLossless` | `scripts/gen-rules-index.py:422-431` | the slices of a text that is not blank start at 0, join to the text exactly, and never start strictly inside a code span |
| `SentenceCuts.SlicesAreCut` | `scripts/gen-rules-index.py:422-431` | the slices run from each of those starts to the next, found in the text with its code spans written as `X`s |
| `Ratchet.Compare` | `scripts/check-spec-prose.py:366-377` | the loop's new table is the componentwise minimum, and its failures are exactly the missing and the worse |
| `Ratchet.RisesIff` | `scripts/check-spec-prose.py:374` | figures rise exactly when one of the three is above its entry, which is when the minimum is not the figures themselves |
| `Ratchet.TableHolds` | `scripts/check-spec-prose.py:351-354` | a table has an entry for each text measured, with its figures, and no other |
| `Ratchet.Run` | `scripts/check-spec-prose.py:345-402` | what a run exits with, which failures it names and which table it writes, for both modes and a missing baseline |
| `Ratchet.CheckPassesIff` | `scripts/check-spec-prose.py:366-402` | a check passes exactly when the same files are there and none of the three figures of any is above its entry |
| `Ratchet.UpdatePassesIff` | `scripts/check-spec-prose.py:366-402` | an update passes exactly when no file that has an entry has a figure above it |
| `Ratchet.UpdateIsIdempotent` | `scripts/check-spec-prose.py:366-383` | updating again on the same texts changes neither the table nor the outcome |
| `Ratchet.UpdateFailsAsCheck` | `scripts/check-spec-prose.py:366-402` | `--update` fails exactly when a plain check on the same texts right after it fails, though it writes the table in any case |
| `Ratchet.RunAll` | `scripts/check-spec-prose.py:339-402` | any number of runs, each reading the table the one before left, end with the table of the specification |
| `Ratchet.EntryIsRunningMinimum` | `scripts/check-spec-prose.py:366-383` | after any runs, from any table or none, an entry is the componentwise minimum of the file's figures over the updates since it last entered, and it is there exactly when the file was there at the last update; the table there at first counts as an update |
| `ByteOrder.LessIsTotal` | `zengui/src/expansion.rs:35` | byte order is strict and total, so a sorted set has one listing |
| `ByteOrder.LessIsLexicographic` | `zengui/src/expansion.rs:35` | the first byte that differs decides, and a path is before those that go on from it |
| `ByteOrder.RangeIsDescendants` | `zengui/src/expansion.rs:62-79` | the range from `path/` to `path0` is never inverted, and holds exactly the strings that begin with `path/` |
| `SortedSet.InsertedElements` | `zengui/src/expansion.rs:45` | insertion keeps the listing sorted and adds just the key |
| `SortedSet.RemovedElements` | `zengui/src/expansion.rs:50` | removal keeps the listing sorted and takes just the key |
| `SortedSet.RangeElements` | `zengui/src/expansion.rs:75-79` | the contiguous slice holds exactly the elements between the bounds |
| `ExpansionSet.Expansion.Open` | `zengui/src/expansion.rs:44-46` | opens just that node |
| `ExpansionSet.Expansion.Toggle` | `zengui/src/expansion.rs:49-55` | opens a closed node, or closes an open one with everything under it and nothing else |
| `ExpansionSet.Expansion.Clear` | `zengui/src/expansion.rs:58-60` | closes every node |
| `ExpansionSet.Expansion.CloseDescendants` | `zengui/src/expansion.rs:74-83` | deleting the slice equals filtering by subtree: siblings such as `a/b-x` survive |
| `ExpansionSet.RunAll` | `zengui/src/expansion.rs:37-84` | a run of the class's operations ends with the open set that the next lemma is about |
| `ExpansionSet.OpenIffOpenedSince` | `zengui/src/expansion.rs:44-83` | after any run of operations, a node is open exactly when one opened it and none since closed it or an open node above it |
| `ExpansionSet.ReopeningRestoresNothing` | `zengui/src/expansion.rs:49-55` | closing and reopening a node forgets what was open under it and leaves the rest |
| `Literals.ScanBody` | `scripts/check-prose.py:45-54` | the inner loop stops at the first quote that is not escaped, with the text before it |
| `Literals.LiteralsOf` | `scripts/check-prose.py:32-59` | the two loops give the literals of the specification |
| `Literals.NeverCloses` | `scripts/check-prose.py:46-56` | the inner loop runs off the line exactly when the literal is not closed on it |
| `Literals.ScansPrinted` | `scripts/check-prose.py:32-59` | scanning inverts printing: for quote-free separators and well-escaped bodies, exactly those bodies, whatever unterminated tail follows |
| `Literals.ParsedPrints` | `scripts/check-prose.py:32-59` | any line is such a printed line, and its bodies are the literals found |
| `Literals.ScannedIsTheOnlyReading` | `scripts/check-prose.py:32-59` | for any line, a list of bodies is what is found if and only if the line can be printed from it |
| `SourceLocations.TrimLine` | `zenctl/src/errors.rs:32-42` | the loop ends, and computes the specification's trimmed line |
| `SourceLocations.LocationShape` | `zenctl/src/errors.rs:44-53` | the right-to-left splits accept exactly a path with a slash that ends in `.rs`, a colon, digits and at most one full stop |
| `SourceLocations.RustPathIs` | `zenctl/src/errors.rs:44-53` | a path counts exactly when it has a slash and ends in `.rs` |
| `SourceLocations.TrimReachesFixedPoint` | `zenctl/src/errors.rs:32-42` | the result is a prefix, trimming it again changes nothing, and what follows its last " at " is no location |
| `SourceLocations.OnlyTailsRemoved` | `zenctl/src/errors.rs:32-42` | what is removed is a run of location tails and the blanks before them, and nothing else |
| `SourceLocations.AppendedLocationsComeOff` | `zenctl/src/errors.rs:32-42` | appending any number of locations without spaces to any message gives what the right-trimmed message gives |

## Left out

- Regular expressions for markers, keywords, headings, fences, list items, rules and tokens: what they find is an input. Code spans, bold runs, sentence boundaries and words are modelled as scanners.
- Unicode case mapping and word classes: a heading's bare slug is an input of `Anchors`.
- Reading a rule's role, reader, ids, antecedents and `failures` in `read_rules`: tables and a fixed ladder, easy branch by branch. A rule is whether it leads a list and what its own sentence cites.
- That the tags a block cites are distinct is neither assumed nor claimed.
- Python's sharing of list objects is modelled by places in a store of lists; object identity elsewhere (the rule dicts, the yielded blocks) is not.
- `strip_inline` and its line accounting: a line break inside a link's target is dropped, so exact lines are claimed of raw block text only.
- `without_source_locations`, which splits a message into lines and joins them: only the function on a line has a fixed point, since joining drops a final line break.
- The rendering of an error chain in `zenctl/src/errors.rs`, which applies the trimmer to each message.
- `is_gutter` and the search loop of `scripts/check-prose.py`.
- `measure`'s mean and its rounding to two decimals: a file's figures are inputs of `Ratchet`, and are compared as real numbers, not as binary floating point.
- Reading and writing files, JSON, printing, argument handling and exit codes other than the meter's.
- The rest of `render`, the diff and the self-test of `scripts/gen-rules-index.py`.
- `zengui/src/admin.rs`, the command line of `zenctl`, fixtures, benches, build scripts and fonts: thin decisions, constants or input and output.
