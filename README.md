# Taleweaver layout engine and commands, modelled in Dafny

This project models the incremental layout engine of the Taleweaver editor, and a few small parts of the editor around it:

- The layout engine keeps a six-level box tree in step with the versioned render tree. The levels are:
  - the Doc box;
  - page flow boxes;
  - block boxes;
  - line flow boxes;
  - inline boxes;
  - atomic boxes.
- `BranchNode` is the ordered child list of the document model.
- `breakLine`, `moveRight` and `moveBackward` are editor commands.
- `KeySignature.getCode` encodes a key signature as a string.

The box tree is a value (`Boxes.Doc` and its nested datatypes).

- Each box carries a `uid` that stands for the object identity the source compares with `===` and `indexOf`.
- Each box carries the `id` of the render node it mirrors, and a `version`.
- Atomic boxes carry measured glyphs, each a character with an integer width, plus a height.

From the glyphs:

- a width is the sum of the glyph widths;
- the width without trailing whitespace drops trailing spaces;
- a line's height is that of its tallest atomic box;
- a block's height is the sum of its lines' heights.

The text of a box tree (`DocText`) is the sequence of its glyphs, each tagged with the render node ids of its block, inline and atomic box. This is what the reflows and joins must not change.

The model has the following parts.

- **`Syncer.RenderToLayoutTreeSyncer`** is a class with the syncer's fields:
  - the last synced version;
  - the element registry;
  - the lists of page flow and line flow boxes touched so far, by uid, in touch order and with repeats;
  - a counter that hands out uids where the source calls `new`.

  Its methods are `insertNode`, `deleteNode` and `updateNode` for every kind pairing, including the type-mismatch and child-not-found errors. The join loops of `updateNode` are proved against the functional specifications `JoinBlockRuns`, `JoinInlineRuns` and `JoinAtomicRuns`. These join every box into the one before it when both mirror the same render node. The logical-children projection (`getDstNodeChildren`) and the lookup (`findSrcNodeInDstNodes`) are functions.
- **`Engine.LayoutEngine`** is a class holding the Doc box, the engine's version and the uid counter.
  - `ReflowLineFlowBox` and `ReflowPageFlowBox` run the two `while (true)` reflow loops. These are `LineReflow.ReflowLines` and `PageReflow.ReflowPages`, each a method whose loop invariant says what is kept. The invariant is `Reflowing` for lines and `PageReflowing` for pages. It covers:
    - the text;
    - the boxes before the start;
    - an untouched suffix;
    - the new version on every line flow (page flow) box visited;
    - for every other box, the new version or the uid and version of a box of the tree before (`StampsKept`);
    - every finished line fitting the width, and every finished page fitting the inner height.
  - `Sync` reflows the touched boxes in order, skipping a consecutive repeat (`Dedupe`), and adopts the new version.
- **`Versions`** reads a box tree as its list of stamps, each a box's uid and version. A pass at version `v` keeps the stamps when every box after it carries `v` or has the stamp of a box from before. The reflows, the join passes and `Sync` all keep the stamps. `VersionsNeverDrop` turns this into a guarantee that no box's version goes down when `v` is at least every earlier version and the uids are distinct.
- **`BranchNodes.BranchNode`** is a class whose `children` sequence `insertChild` and `deleteChild` update with JavaScript `splice` semantics.
- **The three commands** are total functions from cursor offsets to operation lists. `Transformations.ApplyState` and `ApplyCursor` give those lists their meaning.
- **`KeySignatures`** sorts the modifier codes by insertion sort under lexicographic order, then joins them.

Two behaviours of the source are kept as written.

- **An over-estimated running width.** In `reflowLineFlowBox`, `cumulatedWidth` can over-count the width already placed on a line. After an oversize atomic box is sliced, the `for` loop may finish without a `break`; it has then added the atomic widths (line 440), the re-check at line 366 adds the whole inline width on top, and line 443 adds it again once the inline box is placed. The model's invariant only requires `cumulatedWidth` to be at least the width placed (`Placed`), so a line may break earlier than needed. Worse, the re-check can cut a line before the first atomic box of its only inline box, which leaves that line flow box with no inline box at all: a block can end up with an empty line flow box, and a later reflow from an earlier line stops at it with `Undefined` (the TypeError at line 452). `LineReflow.OverCountEmptiesLine` follows one such input through the model's own steps.
- **A line taller than the page.** In `reflowPageFlowBox`, a line flow box taller than the page's inner height, met at the top of a page, is cut off at line 0 again and again. The loop never ends; in the model the reflow ends `OutOfFuel` (`PageReflow.Cleave` reports it as `Stuck`).

An empty line flow or page flow box read as `getChildren()[0]` in the source throws a TypeError. In the model that ends the reflow with `Undefined` and leaves the boxes as they are at that point.

## Model

| member | source | states |
|---|---|---|
| Boxes.BumpBlock | packages/core/src/layout/LayoutEngine.ts:17-28 | the block and every line, inline and atomic box under it get version v; uids, ids, widths, shape and atomic contents are unchanged |
| Boxes.BumpBlockText | packages/core/src/layout/LayoutEngine.ts:17-28 | bumping versions keeps the block's text |
| Boxes.PagesBlocksAt | packages/core/src/layout/LayoutEngine.ts:65-72 | block j of page p is logical child number (blocks on earlier pages) + j |
| Boxes.PagesBlocksFrom | packages/core/src/layout/LayoutEngine.ts:65-72 | every logical child of a Doc box is a block of one of its page flows |
| Boxes.LinesInlinesAt | packages/core/src/layout/LayoutEngine.ts:73-79 | inline j of line l is logical child number (inlines on earlier lines) + j |
| Boxes.LinesInlinesFrom | packages/core/src/layout/LayoutEngine.ts:73-79 | every logical child of a Block box is an inline of one of its line flows |
| Boxes.FindSrcNodeInDstNodes | packages/core/src/layout/LayoutEngine.ts:86-90 | the index of the first box mirroring the render node, or -1 exactly when no box does |
| Reconcile.InsertIntoPagesBlocks | packages/core/src/layout/LayoutEngine.ts:101-119 | inserting a block at logical offset k (k at most the logical length) splices it into the logical children at k; past the end it is appended |
| Reconcile.InsertIntoPagesShape | packages/core/src/layout/LayoutEngine.ts:104-119 | a new page flow holding just the block is appended exactly when no page flow reaches the offset; no page flow is left empty |
| Reconcile.InsertPageUidSpec | packages/core/src/layout/LayoutEngine.ts:106-118 | the page flow recorded as touched is the one that received the block |
| Reconcile.InsertIntoLinesInlines | packages/core/src/layout/LayoutEngine.ts:129-147 | the same splice for an inline among a Block box's logical children |
| Reconcile.InsertIntoLinesShape | packages/core/src/layout/LayoutEngine.ts:132-147 | a new line flow of the block's width is appended exactly when no line flow reaches the offset; no line flow is left empty |
| Reconcile.DeleteFromPagesBlocks | packages/core/src/layout/LayoutEngine.ts:164-178 | deleting a block removes exactly that logical child; a block not found changes nothing and records nothing |
| Reconcile.DeleteFromPagesFlatIndex | packages/core/src/layout/LayoutEngine.ts:166-168 | the page flow the scan stops at holds the block's first occurrence in logical order |
| Reconcile.DeleteFromPagesShape | packages/core/src/layout/LayoutEngine.ts:169-174 | a page flow left empty is removed, so no page flow is left empty |
| Reconcile.DeleteFromPagesTouched | packages/core/src/layout/LayoutEngine.ts:172-174 | the page flow recorded as touched is still in the document |
| Reconcile.DeleteFromLinesInlines | packages/core/src/layout/LayoutEngine.ts:180-194 | deleting an inline removes exactly that logical child of the Block box |
| Reconcile.DeleteFromLinesShape | packages/core/src/layout/LayoutEngine.ts:185-190 | a line flow left empty is removed, so no line flow is left empty |
| Reconcile.DeleteFromLinesTouched | packages/core/src/layout/LayoutEngine.ts:188-190 | the line flow recorded as touched is still in the block |
| Joins.JoinBlocksText | packages/core/src/layout/LayoutEngine.ts:214-215 | joining a block into the one before it concatenates their text and keeps the first one's uid and id |
| Joins.JoinBlockRuns | packages/core/src/layout/LayoutEngine.ts:209-229 | the Doc-level join pass never adds a block and leaves at least one when there was one |
| Joins.JoinInlineRuns | packages/core/src/layout/LayoutEngine.ts:239-258 | the Block-level join pass never adds an inline box and leaves at least one when there was one |
| Joins.JoinAtomicRuns | packages/core/src/layout/LayoutEngine.ts:273-283 | the Inline-level join pass never adds an atomic box and leaves at least one when there was one |
| Joins.JoinBlockRunsText | packages/core/src/layout/LayoutEngine.ts:209-229 | the Doc-level join pass keeps the text |
| Joins.JoinBlockRunsNoAdjacent | packages/core/src/layout/LayoutEngine.ts:209-229 | after the Doc-level join pass no two neighbouring blocks mirror the same render node |
| Joins.JoinBlockRunsVersions | packages/core/src/layout/LayoutEngine.ts:214-216 | every block after the pass is either an original one or a joined one whose boxes all carry the new version |
| Joins.JoinInlineRunsText | packages/core/src/layout/LayoutEngine.ts:239-258 | the Block-level join pass keeps the text |
| Joins.JoinInlineRunsNoAdjacent | packages/core/src/layout/LayoutEngine.ts:239-258 | after the Block-level join pass no two neighbouring inlines mirror the same render node |
| Joins.JoinAtomicRunsText | packages/core/src/layout/LayoutEngine.ts:273-283 | the Inline-level join pass keeps the text |
| Joins.JoinAtomicRunsNoAdjacent | packages/core/src/layout/LayoutEngine.ts:273-283 | after the Inline-level join pass no two neighbouring atomics mirror the same render node |
| JoinPasses.DocJoinStateDone | packages/core/src/layout/LayoutEngine.ts:209-229 | when the nested loops end, the logical children are the joined runs of the original ones and no page flow is empty |
| JoinPasses.BlockJoinStateDone | packages/core/src/layout/LayoutEngine.ts:239-258 | the same for the inlines of a Block box |
| Syncer.FindInsertPage | packages/core/src/layout/LayoutEngine.ts:102-113 | the scan stops at the first page flow whose blocks, counted with those before it, reach the offset (or after the last one) |
| Syncer.FindInsertLine | packages/core/src/layout/LayoutEngine.ts:130-141 | the same scan over a Block box's line flows |
| Syncer.JoinPageVisit | packages/core/src/layout/LayoutEngine.ts:212-222 | one visit of a page flow's blocks, with the m-- rewind, keeps the join-pass invariant, the uids of the earlier page flows, and the uid and version of every page flow; a join at m == 0 changes the blocks of the page flow before |
| Syncer.JoinLineVisit | packages/core/src/layout/LayoutEngine.ts:242-251 | one visit of a line flow's inlines keeps the join-pass invariant, the uids of the earlier line flows, and the uid, version and width of every line flow |
| Syncer.JoinAtomicStep | packages/core/src/layout/LayoutEngine.ts:275-282 | one turn of the atomic join loop keeps its invariant and makes progress |
| Syncer.RenderToLayoutTreeSyncer.constructor | packages/core/src/layout/LayoutEngine.ts:36-42 | a new syncer has the given last version and has touched nothing |
| Syncer.RenderToLayoutTreeSyncer.InsertBlock | packages/core/src/layout/LayoutEngine.ts:94-121 | the new block carries the render node's id and version and is spliced in by InsertIntoPages; the receiving page flow is recorded |
| Syncer.RenderToLayoutTreeSyncer.InsertInline | packages/core/src/layout/LayoutEngine.ts:122-149 | the new inline is spliced in by InsertIntoLines; a new line flow gets the block's width; the receiving line flow is recorded |
| Syncer.RenderToLayoutTreeSyncer.InsertAtomic | packages/core/src/layout/LayoutEngine.ts:150-159 | the new atomic box lands at the offset (clamped as splice does) |
| Syncer.RenderToLayoutTreeSyncer.InsertNode | packages/core/src/layout/LayoutEngine.ts:92-161 | each kind pairing inserts exactly as InsertBlock, InsertInline or InsertAtomic, with the same touched-list frames and uid counter step (2 for a block or inline, 1 for an atomic); a registry class of the wrong kind, or any other pairing, is an error that changes nothing |
| Syncer.RenderToLayoutTreeSyncer.DeleteBlock | packages/core/src/layout/LayoutEngine.ts:164-179 | the block is deleted by DeleteFromPages and a surviving page flow is recorded |
| Syncer.RenderToLayoutTreeSyncer.DeleteInline | packages/core/src/layout/LayoutEngine.ts:180-195 | the inline is deleted by DeleteFromLines and a surviving line flow is recorded |
| Syncer.RenderToLayoutTreeSyncer.DeleteNode | packages/core/src/layout/LayoutEngine.ts:163-201 | each kind pairing deletes as above; an atomic box not in its inline is an error; any other pairing is a type mismatch |
| Syncer.RenderToLayoutTreeSyncer.PrunePage | packages/core/src/layout/LayoutEngine.ts:211-228 | one turn of the outer Doc-level loop: after the visit, an emptied page flow is dropped (the index stays) and any other is pushed onto the updated page flows and passed; the join-pass invariant holds, the flows behind the index stay an in-order selection of the original ones with their uids and versions, and the updated list is the earlier one plus the uids of the flows behind the index |
| Syncer.RenderToLayoutTreeSyncer.PruneLine | packages/core/src/layout/LayoutEngine.ts:241-257 | the same for one line flow of a Block box, keeping uids, versions and widths |
| Syncer.RenderToLayoutTreeSyncer.JoinPageFlows | packages/core/src/layout/LayoutEngine.ts:209-229 | the logical children become JoinBlockRuns of the old ones, no page flow is empty, the page flows left are old page flows in their order with their uids and versions (PagesSurvive), and exactly they are recorded, in order |
| Syncer.RenderToLayoutTreeSyncer.JoinLineFlows | packages/core/src/layout/LayoutEngine.ts:239-258 | the inlines become JoinInlineRuns of the old ones, no line flow is empty, the line flows left are old line flows in their order with their uids, versions and widths (LinesSurvive), and exactly they are recorded, in order |
| Syncer.RenderToLayoutTreeSyncer.UpdateDoc | packages/core/src/layout/LayoutEngine.ts:204-233 | a stale render node changes nothing; otherwise the logical children become JoinBlockRuns of the old ones, no page flow is empty, the page flows left are old ones in order with their uids and versions, every one of them is recorded, and the Doc takes the new version |
| Syncer.RenderToLayoutTreeSyncer.UpdateBlock | packages/core/src/layout/LayoutEngine.ts:234-267 | a stale render node changes nothing; otherwise the inlines become JoinInlineRuns of the old ones, no line flow is empty, the line flows left are old ones in order with their uids, versions and widths, every one of them is recorded, the block takes the version, and its page flow's version is raised to it and recorded |
| Syncer.RenderToLayoutTreeSyncer.UpdateInline | packages/core/src/layout/LayoutEngine.ts:268-292 | a stale render node changes nothing; otherwise the atomics become JoinAtomicRuns of the old ones, the inline takes the version, and its line flow's version is raised to it and recorded |
| Syncer.RenderToLayoutTreeSyncer.UpdateAtomic | packages/core/src/layout/LayoutEngine.ts:293-300 | a stale render node changes nothing; otherwise the atomic box takes the node's content and version |
| Syncer.RenderToLayoutTreeSyncer.UpdateNode | packages/core/src/layout/LayoutEngine.ts:203-302 | a matching kind pairing updates exactly as UpdateDoc, UpdateBlock, UpdateInline or UpdateAtomic: the same box, the same surviving flows, the same parent flow version, the same touched lists; it reports true exactly when the node is newer than the last version; any other pairing is a type mismatch |
| LineReflow.FitCount | packages/core/src/layout/LayoutEngine.ts:410 | splitAtWidth keeps the longest glyph prefix within the line width |
| LineReflow.FitCountLeavesRemainder | packages/core/src/layout/LayoutEngine.ts:371-410 | an atomic box wider than the line always leaves a nonempty remainder |
| LineReflow.CutText | packages/core/src/layout/LayoutEngine.ts:421-437 | cleaving a line after an inline and that inline before an atomic keeps the text |
| LineReflow.CutShape | packages/core/src/layout/LayoutEngine.ts:421-437 | the cleave inserts one new line after the current one, both with the new version, the new one starting with the cleaved-off atomics |
| LineReflow.MergeText | packages/core/src/layout/LayoutEngine.ts:457-461 | merging the next line into the current one keeps the text and removes that line |
| LineReflow.CutBefore | packages/core/src/layout/LayoutEngine.ts:417-438 | cleaving before an atomic box that does not fit keeps the reflow invariant and moves to the new line |
| LineReflow.SliceAtomic | packages/core/src/layout/LayoutEngine.ts:394-415 | slicing an oversize atomic box puts its widest fitting prefix on the line and the rest on a new line, keeping the reflow invariant |
| LineReflow.SliceOversize | packages/core/src/layout/LayoutEngine.ts:371-416 | the slicing loop keeps the reflow invariant and, unless out of fuel, leaves an atomic box that fits the width |
| LineReflow.ScanAtomics | packages/core/src/layout/LayoutEngine.ts:369-441 | the atomic loop of an inline that does not fit keeps the reflow invariant |
| LineReflow.FitInline | packages/core/src/layout/LayoutEngine.ts:366-442 | after the cleaving loop the current inline fits the rest of the line |
| LineReflow.MergeNext | packages/core/src/layout/LayoutEngine.ts:451-461 | merging the next line when its first atomic fits keeps the reflow invariant |
| LineReflow.PlaceInline | packages/core/src/layout/LayoutEngine.ts:365-465 | one turn of the reflow loop keeps the invariant; when it finishes, the last line fits |
| LineReflow.PlaceInlines | packages/core/src/layout/LayoutEngine.ts:364-466 | the reflow loop keeps the invariant; when it finishes, the last line fits |
| LineReflow.ReflowLines | packages/core/src/layout/LayoutEngine.ts:361-466 | text and the lines before the start are kept, the lines after the last one visited are the old last lines, every visited line has the new version, every other inline and atomic box carries it or keeps the uid and version of a box from before, and every finished line fits the width |
| LineReflow.OverCountEmptiesLine | packages/core/src/layout/LayoutEngine.ts:366-440 | on a line of width 10 holding one 16-glyph word, the slice leaves 6 glyphs on a new line, the over-counted width (6 + 6 > 10) cuts that line before its only atomic box, and the line flow box is left with no inline box |
| PageReflow.BumpBlocks | packages/core/src/layout/LayoutEngine.ts:535-538 | every block moved up from the next page flow is bumped to the new version |
| PageReflow.FindCleave | packages/core/src/layout/LayoutEngine.ts:493-519 | the line loop stops at the first line that overflows the page, all earlier ones fitting |
| PageReflow.CutPageText | packages/core/src/layout/LayoutEngine.ts:499-515 | cleaving a page after a block and that block before a line keeps the text |
| PageReflow.CutPageShape | packages/core/src/layout/LayoutEngine.ts:499-515 | the cleave inserts one new page flow after the current one, both with the new version |
| PageReflow.MergePageText | packages/core/src/layout/LayoutEngine.ts:535-539 | merging the next page flow into the current one keeps the text |
| PageReflow.Cleave | packages/core/src/layout/LayoutEngine.ts:490-520 | cleaving an overflowing block keeps the page reflow invariant; a first line taller than the page is reported stuck |
| PageReflow.PlaceBlock | packages/core/src/layout/LayoutEngine.ts:489-522 | placing one block keeps the page reflow invariant and the running height |
| PageReflow.MergeNextPage | packages/core/src/layout/LayoutEngine.ts:529-539 | merging the next page flow when its first line fits keeps the invariant |
| PageReflow.NextBlock | packages/core/src/layout/LayoutEngine.ts:489-543 | one turn of the reflow loop keeps the invariant; when it finishes, the last page fits and no page visited is empty |
| PageReflow.PlaceBlocks | packages/core/src/layout/LayoutEngine.ts:488-544 | the reflow loop keeps the invariant; when it finishes, the last page fits and none visited is empty |
| PageReflow.ReflowPages | packages/core/src/layout/LayoutEngine.ts:485-544 | text and the pages before the start are kept, the pages after the last one visited are the old last pages, visited pages have the new version, every block, line, inline and atomic box carries it or keeps the uid and version of a box from before, and finished pages fit the inner height |
| Versions.VersionsNeverDrop | packages/core/src/layout/LayoutEngine.ts:345-544 | after a pass that keeps the stamps at a version no lower than any before it, with distinct uids, no box present before and after has a lower version |
| Versions.LineVersionStamps | packages/core/src/layout/LayoutEngine.ts:352 | setting the start line's version to v keeps every other box's stamp |
| Versions.PageVersionStamps | packages/core/src/layout/LayoutEngine.ts:476 | setting the start page's version to v keeps every other box's stamp |
| LineReflow.SliceStamps | packages/core/src/layout/LayoutEngine.ts:403-413 | slicing an atomic box gives both pieces version v and keeps every other atomic box's stamp |
| LineReflow.CutStamps | packages/core/src/layout/LayoutEngine.ts:419-437 | cleaving a line keeps every box's stamp except those of the line flow boxes and inline boxes it sets to v, given that the cleaved atomics keep theirs |
| LineReflow.MergeStamps | packages/core/src/layout/LayoutEngine.ts:455-460 | merging the next line moves its inline boxes at version v and keeps every other box's stamp |
| PageReflow.CutPageStamps | packages/core/src/layout/LayoutEngine.ts:497-513 | cleaving a page sets the two page flow boxes and the cleft block to v, bumps the moved part to v, and keeps every other box's stamp |
| PageReflow.MergePageStamps | packages/core/src/layout/LayoutEngine.ts:533-538 | merging the next page flow bumps its blocks to v and keeps every other box's stamp |
| Joins.JoinBlockRunsStamps | packages/core/src/layout/LayoutEngine.ts:213-216 | every box of the joined blocks carries v (the joined blocks are bumped) or the uid and version of an input box |
| Joins.JoinInlineRunsStamps | packages/core/src/layout/LayoutEngine.ts:243-246 | the Block-level join changes no version: every inline and atomic box after it has the uid and version of an input box |
| Joins.JoinAtomicRunsStamps | packages/core/src/layout/LayoutEngine.ts:276-278 | the Inline-level join changes no version: every atomic box after it has the uid and version of an input atomic box |
| Engine.DedupeNoRepeats | packages/core/src/layout/LayoutEngine.ts:324-340 | no box is reflowed twice in a row |
| Engine.DedupeElements | packages/core/src/layout/LayoutEngine.ts:324-340 | every touched box is reflowed and only touched boxes are |
| Engine.DedupeIdempotent | packages/core/src/layout/LayoutEngine.ts:324-340 | skipping repeats of a list already without repeats changes nothing |
| Engine.DedupeSnoc | packages/core/src/layout/LayoutEngine.ts:325-331 | a touched box is visited unless it repeats the one before |
| Engine.LocateLine | packages/core/src/layout/LayoutEngine.ts:346-360 | finds where the line flow box sits, or reports that it is no longer in the document |
| Engine.WithLinesText | packages/core/src/layout/LayoutEngine.ts:345-467 | replacing a block's lines by lines with the same text keeps the document's text |
| Engine.StampedLinesReflowed | packages/core/src/layout/LayoutEngine.ts:352 | setting the start line's version does not change what the line reflow guarantees |
| Engine.StampedPagesReflowed | packages/core/src/layout/LayoutEngine.ts:476 | setting the start page's version does not change what the page reflow guarantees |
| Engine.ReflowLineAt | packages/core/src/layout/LayoutEngine.ts:351-466 | the line reflow from a found line satisfies LinesReflowed and keeps the document text |
| Engine.ReflowPageAt | packages/core/src/layout/LayoutEngine.ts:475-544 | the page reflow from a found page satisfies PagesReflowed |
| Engine.ReflowLineIn | packages/core/src/layout/LayoutEngine.ts:345-467 | a line flow box no longer present changes nothing; otherwise only its block's lines change, as LinesReflowed says; the text is kept and every box of the document carries the new version or keeps its uid and version |
| Engine.ReflowPageIn | packages/core/src/layout/LayoutEngine.ts:469-545 | a page flow box no longer present changes nothing; otherwise the pages change as PagesReflowed says; the text is kept and every box of the document carries the new version or keeps its uid and version |
| Engine.LayoutEngine.constructor | packages/core/src/layout/LayoutEngine.ts:310-313 | a new engine holds the Doc box at version -1 |
| Engine.LayoutEngine.ReflowLineFlowBox | packages/core/src/layout/LayoutEngine.ts:345-467 | the document changes as LineFlowReflowed says: only the found block's lines are replaced, the text is kept, the visited lines carry the new version and every other box carries it or keeps its uid and version; the engine's version is unchanged |
| Engine.LayoutEngine.ReflowPageFlowBox | packages/core/src/layout/LayoutEngine.ts:469-545 | the document changes as PageFlowReflowed says: the pages before the found one are kept, the text is kept, the visited pages carry the new version and every other box carries it or keeps its uid and version; the engine's version is unchanged |
| Engine.LayoutEngine.ReflowTracedLine | packages/core/src/layout/LayoutEngine.ts:325-330 | one reflow of a touched line flow box extends the trace by the step LineFlowReflowed states for that uid, from the current document to the new one; the text and every box's stamp at the version are kept |
| Engine.LayoutEngine.ReflowTracedPage | packages/core/src/layout/LayoutEngine.ts:334-339 | one reflow of a touched page flow box extends the trace by the step PageFlowReflowed states for that uid; the text and every box's stamp at the version are kept |
| Engine.LayoutEngine.ReflowTouchedLines | packages/core/src/layout/LayoutEngine.ts:323-331 | the touched line flow boxes are reflowed in the order Dedupe gives; the ghost trace `docs` ties each step to a ReflowLineFlowBox of that uid (LineTrace: docs[i] becomes docs[i+1] as LineFlowReflowed states), from the old document to the new one; the text and every box's stamp at the version are kept |
| Engine.LayoutEngine.ReflowTouchedPages | packages/core/src/layout/LayoutEngine.ts:332-340 | the touched page flow boxes are reflowed in the order Dedupe gives; the ghost trace ties each step to a ReflowPageFlowBox of that uid (PageTrace, as PageFlowReflowed states), from the old document to the new one; the text and every box's stamp at the version are kept |
| Engine.LayoutEngine.Sync | packages/core/src/layout/LayoutEngine.ts:318-343 | line then page flow boxes are reflowed in Dedupe order, each step as ReflowLineFlowBox or ReflowPageFlowBox states (the two traces LineTrace and PageTrace chain the synced document to the final one through the document after the line reflows), the synced text is kept, every box carries the new version or the uid and version it had in the synced document, and the engine adopts the new version |
| BranchNodes.SpliceStart | packages/core/src/model/BranchNode.ts:27 | the offset at which splice inserts: negative offsets count from the end, too-large ones are clamped |
| BranchNodes.BranchNode.constructor | packages/core/src/model/BranchNode.ts:12-16 | a new node has the given parent and no children |
| BranchNodes.BranchNode.InsertChild | packages/core/src/model/BranchNode.ts:26-28 | the child is spliced in at the offset and nothing else changes |
| BranchNodes.BranchNode.DeleteChild | packages/core/src/model/BranchNode.ts:30-36 | the first occurrence is removed; an absent child is an error that leaves the children unchanged |
| BranchNodes.DeleteRemovesOne | packages/core/src/model/BranchNode.ts:30-36 | deletion drops the length by one, removes exactly one copy of the child and keeps the others in order |
| BranchNodes.DeleteUndoesInsert | packages/core/src/model/BranchNode.ts:26-36 | inserting a child that was not there and deleting it restores the list |
| BranchNodes.InsertThenDelete | packages/core/src/model/BranchNode.ts:26-36 | the same round trip on a node succeeds and restores its children |
| BreakLineCommand.BreakLine | packages/extension-edit/src/commands/breakLine.ts:22-33 | a selection is deleted from its minimum to one before its maximum; the five break tokens are inserted at the minimum; the cursor moves to one past the selection's start |
| BreakLineCommand.BreakLineSymmetric | packages/extension-edit/src/commands/breakLine.ts:22-33 | swapping anchor and head gives the same operations |
| BreakLineCommand.BreakLineEffect | packages/extension-edit/src/commands/breakLine.ts:22-32 | applied to a document, the operations replace the selection by the break tokens |
| MoveRightCommand.MoveRight | packages/extension-cursor/src/commands/moveRight.ts:14-33 | no cursor: nothing; collapsed: a move one right unless at the last selectable offset; a selection: a move to its maximum; never a state operation, at most one cursor operation |
| MoveRightCommand.MoveRightEffect | packages/extension-cursor/src/commands/moveRight.ts:21-31 | the cursor ends collapsed, one to the right, within the last offset, or at a selection's right end |
| MoveBackwardCommand.MoveBackward | src/editor/cursor/commands/moveBackward.ts:9-27 | no cursor or a collapsed one at 0: nothing; collapsed: Translate(-1); head right of anchor: a negative Translate(anchor - head); head left of anchor: Translate(0) |
| MoveBackwardCommand.MoveBackwardEffect | src/editor/cursor/commands/moveBackward.ts:15-26 | a selection collapses at its left end; a collapsed cursor moves one left and never below 0 |
| KeySignatures.Sort | packages/taleweaver-core/src/input/KeySignature.ts:14 | the result is sorted and a permutation of the input |
| KeySignatures.Plain | packages/taleweaver-core/src/input/KeySignature.ts:8-11 | the default signature has no modifiers |
| KeySignatures.CodeShape | packages/taleweaver-core/src/input/KeySignature.ts:13-17 | the code is the sorted modifier codes joined by "-", then "-" and the key code; with no modifiers it is the key code |
| KeySignatures.KeyCodeIsLast | packages/taleweaver-core/src/input/KeySignature.ts:16 | the key code is the last segment, preceded by "-" when there are modifiers |
| KeySignatures.CodeIgnoresModifierOrder | packages/taleweaver-core/src/input/KeySignature.ts:14 | any permutation of the modifiers gives the same code |
| KeySignatures.PlainCode | packages/taleweaver-core/src/input/KeySignature.ts:8-16 | with no modifiers the code is the key code |

## Left out

- Event wiring is not modelled. This covers the dispatcher subscription in the engine's constructor and the `LayoutStateUpdatedEvent` dispatched at the end of `sync`.
- Engine.LayoutEngine.constructor: the source's constructor calls `sync()` at once. The model leaves the engine unsynced (version -1), and the caller calls `Sync`.
- The generic `TreeSyncer.syncNodes` walk and `getSrcNodeChildren` are not part of this model. `Sync` takes the document as the syncer left it, together with the syncer object whose touched lists and uid counter it reads.
- The element configuration registry is a map from element type to box kind. Box construction with `new` becomes a fresh uid from a counter.
- Object identity (`===`, `indexOf`, `isDeleted`) is modelled by uids, and the tree by values. A box's `getParent()` is passed in explicitly. A reflow of a box no longer found in the document does nothing, as the source's `isDeleted` and `indexOf` checks do.
- `onRenderUpdated` is modelled only for atomic boxes, which take the render node's measured content. On other boxes it refreshes cached measurements, which the model computes on demand.
- Measurement is concrete and uses integers:
  - glyph widths;
  - the width without trailing spaces;
  - line height as the tallest atomic box;
  - block height as the sum of its lines.

  `splitAtWidth` keeps the longest prefix within the width. JavaScript floating-point widths are not modelled.
- LineReflow.SliceOversize: when the first glyph of an atomic box is already wider than the line (or the line width is 0), `FitCount` is 0, so each slice leaves the whole text in the remainder and makes no progress. The loop then runs until the fuel ends and the reflow ends `OutOfFuel`. What the source's `splitAtWidth` does in that case is not part of this model.
- The `while (true)` reflow loops run on a fuel bound. When the fuel runs out, the reflow ends with `OutOfFuel`, so a source loop that never ends is not distinguished from one that runs longer than the fuel.
- LineReflow.ReflowLines: states what the line reflow keeps and guarantees (text, prefix, untouched suffix, the new version on visited line flow boxes, every other box at the new version or with its old uid and version, widths of finished lines), not the exact line breaks it chooses. It does not promise that no line flow box is left empty, because the source does not keep that: the over-counted running width can empty one (`LineReflow.OverCountEmptiesLine`).
- PageReflow.ReflowPages: states what the page reflow keeps and guarantees (text, prefix, untouched suffix, the new version on visited page flow boxes, every other box at the new version or with its old uid and version, heights of finished pages, no empty page when finished), not the exact page breaks it chooses.
- Engine.LayoutEngine.Sync: ties every reflow of the sequence to the contract of ReflowLineFlowBox or ReflowPageFlowBox through its ghost traces, but states nothing about the document as a whole after the sequence beyond the text and the stamps it keeps.
- Versions.VersionsNeverDrop: takes as hypotheses that the pass's version is at least every version in the tree before it, and that no two boxes share a uid. The model proves neither: the version comes from the render tree, and distinct uids stand for distinct objects.
- Joins.JoinBlockRunsStamps: states the stamps on the flat list of a Doc box's logical children. The page flow boxes around them are covered separately, by `PagesSurvive` (each surviving page flow keeps its uid and version).
- Joins.JoinInlineRunsStamps: the same on the flat list of a Block box's logical children; the surviving line flow boxes are covered by `LinesSurvive`.
- The stamps do not include the Doc box itself. Neither reflow changes it (`LineFlowReflowed` and `PageFlowReflowed` keep the Doc box's own fields).
- PageReflow.ReflowPages: every page uses the one inner height of the Doc box (`Doc.innerHeight`), where the source reads `getInnerHeight()` from the current page flow box (LayoutEngine.ts:485 and 531). The model assumes every page flow box has the same inner height; `PageFlowBox` is not part of this model.
- A new page flow box or line flow box starts at version 0 (`Reconcile.InitialVersion`). That version comes from the box constructors, which are not part of this model.
- A TypeError thrown by reading the first child of an empty line flow or page flow box ends the reflow with `Undefined`. The model does not unwind the partial changes made before it, and neither does the source.
- `convertSelectableOffsetToModelOffset` and `generateID` in `breakLine`, and `getSelectableSize` in `moveRight`, are foreign calls. They are inputs to the command functions.
- The operation classes (`Delete`, `Insert`, `MoveTo`, `Translate`) are datatypes. What applying them means is given by `ApplyState` and `ApplyCursor`, not taken from their source.
- `KeySignature`'s modifier and key objects are represented by their code strings. JavaScript's default sort compares UTF-16 code units; the model compares `char`s.
- `packages/core/src/view/CursorView.ts` (DOM caret drawing and blinking) is not part of this model.
- `BranchNode.getParent` and `getChildren` are plain field reads (`GetParent`, `GetChildren`) with no contract of their own.
