/**
 * `RenderToLayoutTreeSyncer`: the adapter through which the generic tree
 * reconciler keeps the box tree in step with the render tree. The
 * reconciler's walk itself is not part of this model; it calls
 * `insertNode`, `deleteNode` and `updateNode` below with boxes and render
 * nodes whose ids it has matched.
 *
 * Boxes are values: an operation takes the parent box and returns it as it
 * is after the change. A child's `getParent()` flow container is passed in
 * as a `Flow` (its uid and version) and returned updated. The syncer itself
 * is an object whose fields the operations update in place: the lists of
 * page flows and line flows touched so far (by uid, with repeats, in the
 * order they were touched) and the counter that hands out uids where the
 * source calls `new`.
 */
module Syncer {

  import opened Results
  import opened Seqs
  import opened Boxes
  import opened RenderNodes
  import opened Reconcile
  import opened Joins
  import opened JoinPasses

  /** A flow container seen from one of its children: its uid and version. */
  datatype Flow = Flow(uid: Uid, version: int)

  /** What `insertNode` yields: the parent after the insertion, and the new box. */
  datatype Inserted = Inserted(parent: Box, child: Box)

  /** What `updateNode` yields: the box, its parent flow, and whether it was updated. */
  datatype Updated = Updated(node: Box, parent: Flow, changed: bool)

  /**
   * One turn of the inner loop of `updateNode` on the Doc box, at block `m`
   * of page flow `n`: a block mirroring the same render node as the last
   * kept one is joined into it (which is bumped to version `v`) and the
   * index steps back over the removed block; any other block is kept.
   */
  method JoinBlockStep(ps0: seq<Page>, n: nat, m0: int, last: Option<Block>, v: int, ghost fs0: seq<Block>, ghost g0: nat)
    returns (ps: seq<Page>, lastChild: Option<Block>, m: int, ghost g: nat)
    requires n < |ps0| && 0 <= m0 < |ps0[n].blocks| && DocJoinState(fs0, ps0, n, m0, g0, last, v)
    ensures |ps| == |ps0| && 0 <= m && DocJoinState(fs0, ps, n, m, g, lastChild, v)
    ensures |ps[n].blocks| - m < |ps0[n].blocks| - m0
    ensures PageUids(ps[..n]) == PageUids(ps0[..n])
    ensures PageShells(ps) == PageShells(ps0)
  {
    var blockBox := ps0[n].blocks[m0];
    g := g0 + 1;
    if last.Some? && blockBox.id == last.value.id {
      DocJoinStateMerge(fs0, ps0, n, m0, g0, last, v);
      ps, lastChild := JoinBlockIntoPrev(ps0, n, m0, v), Some(BumpBlock(JoinBlocks(last.value, blockBox), v));
      PageShellsSame(ps, ps0);
      m := m0; // the index steps back over the removed block, then on
    } else {
      DocJoinStateKeep(fs0, ps0, n, m0, g0, last, v);
      ps, lastChild, m := ps0, Some(blockBox), m0 + 1;
    }
  }

  /**
   * One turn of the inner loop of `updateNode` on a Block box, at inline
   * `m` of line flow `n`: an inline mirroring the same render node as the
   * last kept one is joined into it; any other inline is kept.
   */
  method JoinInlineStep(ls0: seq<Line>, n: nat, m0: int, last: Option<Inline>, ghost fs0: seq<Inline>, ghost g0: nat)
    returns (ls: seq<Line>, lastChild: Option<Inline>, m: int, ghost g: nat)
    requires n < |ls0| && 0 <= m0 < |ls0[n].inlines| && BlockJoinState(fs0, ls0, n, m0, g0, last)
    ensures |ls| == |ls0| && 0 <= m && BlockJoinState(fs0, ls, n, m, g, lastChild)
    ensures |ls[n].inlines| - m < |ls0[n].inlines| - m0
    ensures LineUids(ls[..n]) == LineUids(ls0[..n])
    ensures LineShells(ls) == LineShells(ls0)
  {
    var inlineBox := ls0[n].inlines[m0];
    g := g0 + 1;
    if last.Some? && inlineBox.id == last.value.id {
      BlockJoinStateMerge(fs0, ls0, n, m0, g0, last);
      ls, lastChild := JoinInlineIntoPrev(ls0, n, m0), Some(JoinInlines(last.value, inlineBox));
      LineShellsSame(ls, ls0);
      m := m0; // the index steps back over the removed inline, then on
    } else {
      BlockJoinStateKeep(fs0, ls0, n, m0, g0, last);
      ls, lastChild, m := ls0, Some(inlineBox), m0 + 1;
    }
  }

  /**
   * The inner loop of `updateNode` on the Doc box: one visit of page flow
   * `n`, joining each of its blocks into the block kept just before it when
   * both mirror the same render node. It ends with the page flow's blocks
   * all visited and keeps the join-pass state.
   */
  method JoinPageVisit(pages: seq<Page>, n: nat, last: Option<Block>, v: int, ghost fs0: seq<Block>, ghost g0: nat)
    returns (ps: seq<Page>, lastChild: Option<Block>, m: int, ghost g: nat)
    requires n < |pages| && DocJoinState(fs0, pages, n, 0, g0, last, v)
    ensures |ps| == |pages| && m == |ps[n].blocks| && DocJoinState(fs0, ps, n, m, g, lastChild, v)
    ensures PageUids(ps[..n]) == PageUids(pages[..n])
    ensures PageShells(ps) == PageShells(pages)
  {
    ps, lastChild, g := pages, last, g0;
    m := 0;
    while m < |ps[n].blocks|
      invariant 0 <= m && |ps| == |pages| && DocJoinState(fs0, ps, n, m, g, lastChild, v)
      invariant PageUids(ps[..n]) == PageUids(pages[..n])
      invariant PageShells(ps) == PageShells(pages)
      decreases |ps[n].blocks| - m
    {
      ps, lastChild, m, g := JoinBlockStep(ps, n, m, lastChild, v, fs0, g);
    }
  }

  /**
   * The inner loop of `updateNode` on a Block box: one visit of line flow
   * `n`, joining each of its inlines into the inline kept just before it
   * when both mirror the same render node.
   */
  method JoinLineVisit(lines: seq<Line>, n: nat, last: Option<Inline>, ghost fs0: seq<Inline>, ghost g0: nat)
    returns (ls: seq<Line>, lastChild: Option<Inline>, m: int, ghost g: nat)
    requires n < |lines| && BlockJoinState(fs0, lines, n, 0, g0, last)
    ensures |ls| == |lines| && m == |ls[n].inlines| && BlockJoinState(fs0, ls, n, m, g, lastChild)
    ensures LineUids(ls[..n]) == LineUids(lines[..n])
    ensures LineShells(ls) == LineShells(lines)
  {
    ls, lastChild, g := lines, last, g0;
    m := 0;
    while m < |ls[n].inlines|
      invariant 0 <= m && |ls| == |lines| && BlockJoinState(fs0, ls, n, m, g, lastChild)
      invariant LineUids(ls[..n]) == LineUids(lines[..n])
      invariant LineShells(ls) == LineShells(lines)
      decreases |ls[n].inlines| - m
    {
      ls, lastChild, m, g := JoinInlineStep(ls, n, m, lastChild, fs0, g);
    }
  }

  /**
   * The scan of `insertNode` over the page flows of the Doc box: it stops
   * at the first page flow whose blocks, counted with those before it,
   * reach the offset, or after the last one; `cum` counts the blocks of
   * the page flows passed over.
   */
  method FindInsertPage(ps: seq<Page>, offset: nat, ghost b: Block, ghost pageUid: Uid) returns (n: nat, cum: nat)
    ensures n <= |ps| && cum <= offset
    ensures n < |ps| ==> cum + |ps[n].blocks| >= offset
    ensures InsertIntoPages(ps, offset, b, pageUid) == ps[..n] + InsertIntoPages(ps[n..], offset - cum, b, pageUid)
    ensures InsertPageUid(ps, offset, pageUid) == InsertPageUid(ps[n..], offset - cum, pageUid)
  {
    n, cum := 0, 0;
    assert ps[..0] + InsertIntoPages(ps[0..], offset, b, pageUid) == InsertIntoPages(ps, offset, b, pageUid) by {
      assert ps[..0] == [] && ps[0..] == ps;
    }
    while n < |ps| && cum + |ps[n].blocks| < offset
      invariant n <= |ps| && cum <= offset
      invariant InsertIntoPages(ps, offset, b, pageUid) == ps[..n] + InsertIntoPages(ps[n..], offset - cum, b, pageUid)
      invariant InsertPageUid(ps, offset, pageUid) == InsertPageUid(ps[n..], offset - cum, pageUid)
      decreases |ps| - n
    {
      InsertIntoPagesSkip(ps, n, cum, offset, b, pageUid);
      cum := cum + |ps[n].blocks|;
      n := n + 1;
    }
  }

  /** FindInsertPage one level down: the scan over the line flows of a Block box. */
  method FindInsertLine(ls: seq<Line>, offset: nat, ghost i: Inline, ghost lineUid: Uid, ghost width: nat) returns (n: nat, cum: nat)
    ensures n <= |ls| && cum <= offset
    ensures n < |ls| ==> cum + |ls[n].inlines| >= offset
    ensures InsertIntoLines(ls, offset, i, lineUid, width) == ls[..n] + InsertIntoLines(ls[n..], offset - cum, i, lineUid, width)
    ensures InsertLineUid(ls, offset, lineUid) == InsertLineUid(ls[n..], offset - cum, lineUid)
  {
    n, cum := 0, 0;
    assert ls[..0] + InsertIntoLines(ls[0..], offset, i, lineUid, width) == InsertIntoLines(ls, offset, i, lineUid, width) by {
      assert ls[..0] == [] && ls[0..] == ls;
    }
    while n < |ls| && cum + |ls[n].inlines| < offset
      invariant n <= |ls| && cum <= offset
      invariant InsertIntoLines(ls, offset, i, lineUid, width) == ls[..n] + InsertIntoLines(ls[n..], offset - cum, i, lineUid, width)
      invariant InsertLineUid(ls, offset, lineUid) == InsertLineUid(ls[n..], offset - cum, lineUid)
      decreases |ls| - n
    {
      InsertIntoLinesSkip(ls, n, cum, offset, i, lineUid, width);
      cum := cum + |ls[n].inlines|;
      n := n + 1;
    }
  }

  /**
   * One turn of the loop of `updateNode` on an Inline box, at atomic box
   * `n`: one mirroring the same render node as the last kept one is joined
   * into it and the index steps back over the removed box; any other is kept.
   */
  method JoinAtomicStep(ats0: seq<Atomic>, n0: nat, last: Option<Atomic>, ghost fs0: seq<Atomic>, ghost g0: nat)
    returns (ats: seq<Atomic>, lastChild: Option<Atomic>, n: nat, ghost g: nat)
    requires n0 < |ats0| && InlineJoinState(fs0, ats0, n0, g0, last)
    ensures InlineJoinState(fs0, ats, n, g, lastChild)
    ensures |ats| - n < |ats0| - n0
  {
    ats, lastChild, n, g := ats0, last, n0, g0;
    var atomicBox := ats[n];
    if lastChild.Some? && atomicBox.id == lastChild.value.id {
      InlineJoinStateMerge(fs0, ats, n, g, lastChild);
      ats := ats[n - 1 := JoinAtomics(ats[n - 1], atomicBox)];
      lastChild := Some(ats[n - 1]);
      // the removed box's index is stepped back over, then forward again
      ats := RemoveAt(ats, n);
    } else {
      InlineJoinStateKeep(fs0, ats, n, g, lastChild);
      lastChild := Some(atomicBox);
      n := n + 1;
    }
    g := g + 1;
  }

  class RenderToLayoutTreeSyncer {

    /** The engine's version when this sync started. */
    const lastVersion: int
    /** The element registry: the box kind each element type builds. */
    const registry: map<string, BoxKind>
    /** The width a new block box gets. */
    const blockWidth: nat

    var updatedPageFlowBoxes: seq<Uid>
    var updatedLineFlowBoxes: seq<Uid>
    /** The next uid to hand out to a new box. */
    var nextUid: Uid

    constructor(lastVersion: int, registry: map<string, BoxKind>, blockWidth: nat, nextUid: Uid)
      ensures this.lastVersion == lastVersion && this.registry == registry && this.blockWidth == blockWidth
      ensures updatedPageFlowBoxes == [] && updatedLineFlowBoxes == []
      ensures this.nextUid == nextUid
    {
      this.lastVersion := lastVersion;
      this.registry := registry;
      this.blockWidth := blockWidth;
      updatedPageFlowBoxes := [];
      updatedLineFlowBoxes := [];
      this.nextUid := nextUid;
    }

    /** The box kind the registry builds for an element type; an unregistered one is an error. */
    function BoxKindOf(elementType: string): Result<BoxKind>
      reads this
    {
      if elementType in registry then Ok(registry[elementType]) else Err(UnregisteredElement)
    }

    // ------------------------------------------------------------ insertNode

    /**
     * Inserts a new block box for `src` at logical offset `offset` of the
     * Doc box: into the first page flow whose blocks, counted with those
     * before it, reach the offset, or else into a new page flow appended at
     * the end. The page flow that receives it is recorded as updated.
     */
    method InsertBlock(doc: Doc, src: RenderNode, offset: nat) returns (d: Doc, b: Block)
      modifies this
      ensures b == Block(old(nextUid), src.id, src.version, blockWidth, [])
      ensures d == doc.(pages := InsertIntoPages(doc.pages, offset, b, old(nextUid) + 1))
      ensures updatedPageFlowBoxes == old(updatedPageFlowBoxes) + [InsertPageUid(doc.pages, offset, old(nextUid) + 1)]
      ensures updatedLineFlowBoxes == old(updatedLineFlowBoxes) && nextUid == old(nextUid) + 2
    {
      b := Block(nextUid, src.id, src.version, blockWidth, []);
      var pageUid := nextUid + 1;
      nextUid := nextUid + 2;
      var ps := doc.pages;
      var n, cumulatedOffset := FindInsertPage(ps, offset, b, pageUid);
      if n < |ps| {
        InsertIntoPagesHit(ps, n, cumulatedOffset, offset, b, pageUid);
        updatedPageFlowBoxes := updatedPageFlowBoxes + [ps[n].uid];
        ps := ps[n := ps[n].(blocks := InsertAt(ps[n].blocks, offset - cumulatedOffset, b))];
      } else {
        InsertIntoPagesEnd(ps, offset - cumulatedOffset, b, pageUid);
        ps := ps + [Page(pageUid, InitialVersion, [])];
        ps := ps[|ps| - 1 := ps[|ps| - 1].(blocks := InsertAt(ps[|ps| - 1].blocks, 0, b))];
        updatedPageFlowBoxes := updatedPageFlowBoxes + [pageUid];
      }
      d := doc.(pages := ps);
    }

    /**
     * Inserts a new inline box for `src` at logical offset `offset` of a
     * Block box, as InsertBlock does one level down; a new line flow gets
     * the block's width. The line flow that receives it is recorded as updated.
     */
    method InsertInline(block: Block, src: RenderNode, offset: nat) returns (nb: Block, i: Inline)
      modifies this
      ensures i == Inline(old(nextUid), src.id, src.version, [])
      ensures nb == block.(lines := InsertIntoLines(block.lines, offset, i, old(nextUid) + 1, block.width))
      ensures updatedLineFlowBoxes == old(updatedLineFlowBoxes) + [InsertLineUid(block.lines, offset, old(nextUid) + 1)]
      ensures updatedPageFlowBoxes == old(updatedPageFlowBoxes) && nextUid == old(nextUid) + 2
    {
      i := Inline(nextUid, src.id, src.version, []);
      var lineUid := nextUid + 1;
      nextUid := nextUid + 2;
      var ls := block.lines;
      var n, cumulatedOffset := FindInsertLine(ls, offset, i, lineUid, block.width);
      if n < |ls| {
        InsertIntoLinesHit(ls, n, cumulatedOffset, offset, i, lineUid, block.width);
        updatedLineFlowBoxes := updatedLineFlowBoxes + [ls[n].uid];
        ls := ls[n := ls[n].(inlines := InsertAt(ls[n].inlines, offset - cumulatedOffset, i))];
      } else {
        InsertIntoLinesEnd(ls, offset - cumulatedOffset, i, lineUid, block.width);
        ls := ls + [Line(lineUid, InitialVersion, block.width, [])];
        ls := ls[|ls| - 1 := ls[|ls| - 1].(inlines := InsertAt(ls[|ls| - 1].inlines, 0, i))];
        updatedLineFlowBoxes := updatedLineFlowBoxes + [lineUid];
      }
      nb := block.(lines := ls);
    }

    /**
     * Inserts a new atomic box for `src` into an inline box at `offset`
     * (past the end it lands last, as an array splice does).
     */
    method InsertAtomic(inl: Inline, src: RenderNode, offset: nat) returns (ni: Inline, a: Atomic)
      modifies this
      ensures a == Atomic(old(nextUid), src.id, src.version, [], 0)
      ensures ni == inl.(atomics := InsertAt(inl.atomics, if offset <= |inl.atomics| then offset else |inl.atomics|, a))
      ensures updatedPageFlowBoxes == old(updatedPageFlowBoxes) && updatedLineFlowBoxes == old(updatedLineFlowBoxes)
      ensures nextUid == old(nextUid) + 1
    {
      a := Atomic(nextUid, src.id, src.version, [], 0);
      nextUid := nextUid + 1;
      var at := if offset <= |inl.atomics| then offset else |inl.atomics|;
      ni := inl.(atomics := InsertAt(inl.atomics, at, a));
    }

    /**
     * `insertNode`: a block render node under the Doc box, an inline one
     * under a Block box or an atomic one under an Inline box gets a new box
     * of the kind its element type is registered with; any other pairing is
     * a type mismatch. Nothing changes when an error is thrown.
     */
    method InsertNode(parent: Box, src: RenderNode, offset: nat) returns (r: Result<Inserted>)
      modifies this
      ensures parent.DocBox? && src.kind == BlockNode && BoxKindOf(src.elementType) == Ok(BlockKind) ==>
        var b := Block(old(nextUid), src.id, src.version, blockWidth, []);
        r == Ok(Inserted(DocBox(parent.doc.(pages := InsertIntoPages(parent.doc.pages, offset, b, old(nextUid) + 1))), BlockBox(b)))
        && updatedPageFlowBoxes == old(updatedPageFlowBoxes) + [InsertPageUid(parent.doc.pages, offset, old(nextUid) + 1)]
        && updatedLineFlowBoxes == old(updatedLineFlowBoxes) && nextUid == old(nextUid) + 2
      ensures parent.BlockBox? && src.kind == InlineNode && BoxKindOf(src.elementType) == Ok(InlineKind) ==>
        var i := Inline(old(nextUid), src.id, src.version, []);
        var bl := parent.block;
        r == Ok(Inserted(BlockBox(bl.(lines := InsertIntoLines(bl.lines, offset, i, old(nextUid) + 1, bl.width))), InlineBox(i)))
        && updatedLineFlowBoxes == old(updatedLineFlowBoxes) + [InsertLineUid(bl.lines, offset, old(nextUid) + 1)]
        && updatedPageFlowBoxes == old(updatedPageFlowBoxes) && nextUid == old(nextUid) + 2
      ensures parent.InlineBox? && src.kind == AtomicNode && BoxKindOf(src.elementType) == Ok(AtomicKind) ==>
        var a := Atomic(old(nextUid), src.id, src.version, [], 0);
        var ats := parent.inline.atomics;
        r == Ok(Inserted(InlineBox(parent.inline.(atomics := InsertAt(ats, if offset <= |ats| then offset else |ats|, a))), AtomicBox(a)))
        && updatedPageFlowBoxes == old(updatedPageFlowBoxes) && updatedLineFlowBoxes == old(updatedLineFlowBoxes)
        && nextUid == old(nextUid) + 1
      ensures parent.DocBox? && src.kind == BlockNode && BoxKindOf(src.elementType).Ok? && BoxKindOf(src.elementType) != Ok(BlockKind) ==>
        r == Err(ExpectingBlockBox)
      ensures parent.BlockBox? && src.kind == InlineNode && BoxKindOf(src.elementType).Ok? && BoxKindOf(src.elementType) != Ok(InlineKind) ==>
        r == Err(ExpectingInlineBox)
      ensures parent.InlineBox? && src.kind == AtomicNode && BoxKindOf(src.elementType).Ok? && BoxKindOf(src.elementType) != Ok(AtomicKind) ==>
        r == Err(ExpectingAtomicBox)
      ensures (parent.DocBox? && src.kind == BlockNode) || (parent.BlockBox? && src.kind == InlineNode) || (parent.InlineBox? && src.kind == AtomicNode) ==>
        (BoxKindOf(src.elementType).Err? ==> r == Err(UnregisteredElement))
      ensures !((parent.DocBox? && src.kind == BlockNode) || (parent.BlockBox? && src.kind == InlineNode) || (parent.InlineBox? && src.kind == AtomicNode)) ==>
        r == Err(TypeMismatch)
      ensures r.Err? ==> updatedPageFlowBoxes == old(updatedPageFlowBoxes) && updatedLineFlowBoxes == old(updatedLineFlowBoxes) && nextUid == old(nextUid)
    {
      var kind := BoxKindOf(src.elementType);
      if parent.DocBox? && src.kind == BlockNode {
        if kind.Err? { return Err(UnregisteredElement); }
        if kind.value != BlockKind { return Err(ExpectingBlockBox); }
        var d, b := InsertBlock(parent.doc, src, offset);
        return Ok(Inserted(DocBox(d), BlockBox(b)));
      }
      if parent.BlockBox? && src.kind == InlineNode {
        if kind.Err? { return Err(UnregisteredElement); }
        if kind.value != InlineKind { return Err(ExpectingInlineBox); }
        var nb, i := InsertInline(parent.block, src, offset);
        return Ok(Inserted(BlockBox(nb), InlineBox(i)));
      }
      if parent.InlineBox? && src.kind == AtomicNode {
        if kind.Err? { return Err(UnregisteredElement); }
        if kind.value != AtomicKind { return Err(ExpectingAtomicBox); }
        var ni, a := InsertAtomic(parent.inline, src, offset);
        return Ok(Inserted(InlineBox(ni), AtomicBox(a)));
      }
      return Err(TypeMismatch);
    }

    // ------------------------------------------------------------ deleteNode

    /**
     * Deletes block box `uid` from the first page flow holding it; that page
     * flow is deleted when it is left empty and recorded as updated
     * otherwise. A block found nowhere changes nothing.
     */
    method DeleteBlock(doc: Doc, uid: Uid) returns (d: Doc)
      modifies this
      ensures d == doc.(pages := DeleteFromPages(doc.pages, uid).0)
      ensures updatedPageFlowBoxes == old(updatedPageFlowBoxes) +
        (if DeleteFromPages(doc.pages, uid).1.Some? then [DeleteFromPages(doc.pages, uid).1.value] else [])
      ensures updatedLineFlowBoxes == old(updatedLineFlowBoxes) && nextUid == old(nextUid)
    {
      var ps := doc.pages;
      var n := 0;
      while n < |ps| && IndexOf(BlockUids(ps[n].blocks), uid) < 0
        invariant 0 <= n <= |ps| && NotInPages(ps, n, uid)
        modifies {}
      {
        n := n + 1;
      }
      FirstPageWithAt(ps, n, uid);
      if n < |ps| {
        var bs := RemoveAt(ps[n].blocks, IndexOf(BlockUids(ps[n].blocks), uid));
        if |bs| == 0 {
          d := doc.(pages := ps[..n] + ps[n + 1..]);
        } else {
          updatedPageFlowBoxes := updatedPageFlowBoxes + [ps[n].uid];
          d := doc.(pages := ps[n := ps[n].(blocks := bs)]);
        }
      } else {
        d := doc.(pages := ps);
      }
    }

    /** DeleteBlock one level down: inline box `uid` out of a Block box's line flows. */
    method DeleteInline(block: Block, uid: Uid) returns (nb: Block)
      modifies this
      ensures nb == block.(lines := DeleteFromLines(block.lines, uid).0)
      ensures updatedLineFlowBoxes == old(updatedLineFlowBoxes) +
        (if DeleteFromLines(block.lines, uid).1.Some? then [DeleteFromLines(block.lines, uid).1.value] else [])
      ensures updatedPageFlowBoxes == old(updatedPageFlowBoxes) && nextUid == old(nextUid)
    {
      var ls := block.lines;
      var n := 0;
      while n < |ls| && IndexOf(InlineUids(ls[n].inlines), uid) < 0
        invariant 0 <= n <= |ls| && NotInLines(ls, n, uid)
        modifies {}
      {
        n := n + 1;
      }
      FirstLineWithAt(ls, n, uid);
      if n < |ls| {
        var ins := RemoveAt(ls[n].inlines, IndexOf(InlineUids(ls[n].inlines), uid));
        if |ins| == 0 {
          nb := block.(lines := ls[..n] + ls[n + 1..]);
        } else {
          updatedLineFlowBoxes := updatedLineFlowBoxes + [ls[n].uid];
          nb := block.(lines := ls[n := ls[n].(inlines := ins)]);
        }
      } else {
        nb := block.(lines := ls);
      }
    }

    /**
     * `deleteNode`: a block box out of the Doc box, an inline box out of a
     * Block box, or an atomic box out of an Inline box (which throws when
     * the atomic box is not its child); any other pairing is a type mismatch.
     */
    method DeleteNode(parent: Box, node: Box) returns (r: Result<Box>)
      modifies this
      ensures parent.DocBox? && node.BlockBox? ==>
        var res := DeleteFromPages(parent.doc.pages, node.block.uid);
        r == Ok(DocBox(parent.doc.(pages := res.0)))
        && updatedPageFlowBoxes == old(updatedPageFlowBoxes) + (if res.1.Some? then [res.1.value] else [])
      ensures parent.BlockBox? && node.InlineBox? ==>
        var res := DeleteFromLines(parent.block.lines, node.inline.uid);
        r == Ok(BlockBox(parent.block.(lines := res.0)))
        && updatedLineFlowBoxes == old(updatedLineFlowBoxes) + (if res.1.Some? then [res.1.value] else [])
      ensures parent.InlineBox? && node.AtomicBox? ==>
        var k := IndexOf(AtomicUids(parent.inline.atomics), node.atomic.uid);
        r == if k < 0 then Err(ChildNotFound) else Ok(InlineBox(parent.inline.(atomics := RemoveAt(parent.inline.atomics, k))))
      ensures !((parent.DocBox? && node.BlockBox?) || (parent.BlockBox? && node.InlineBox?) || (parent.InlineBox? && node.AtomicBox?)) ==>
        r == Err(TypeMismatch)
      ensures !(parent.DocBox? && node.BlockBox?) ==> updatedPageFlowBoxes == old(updatedPageFlowBoxes)
      ensures !(parent.BlockBox? && node.InlineBox?) ==> updatedLineFlowBoxes == old(updatedLineFlowBoxes)
      ensures nextUid == old(nextUid)
    {
      if parent.DocBox? && node.BlockBox? {
        var d := DeleteBlock(parent.doc, node.block.uid);
        return Ok(DocBox(d));
      }
      if parent.BlockBox? && node.InlineBox? {
        var nb := DeleteInline(parent.block, node.inline.uid);
        return Ok(BlockBox(nb));
      }
      if parent.InlineBox? && node.AtomicBox? {
        var k := IndexOf(AtomicUids(parent.inline.atomics), node.atomic.uid);
        if k < 0 { return Err(ChildNotFound); }
        return Ok(InlineBox(parent.inline.(atomics := RemoveAt(parent.inline.atomics, k))));
      }
      return Err(TypeMismatch);
    }

    // ------------------------------------------------------------ updateNode

    /**
     * `updateNode` on the Doc box. A render node no newer than the last
     * synced version changes nothing. Otherwise the join loop runs over the
     * page flows: a block mirroring the same render node as the block kept
     * just before it (in flattened order, across page flows) is joined into
     * that one, which is bumped to the new version with all its
     * descendants; a page flow left empty is deleted and any other is
     * recorded as updated. The Doc box then takes the new version.
     */
    method UpdateDoc(doc: Doc, src: RenderNode) returns (d: Doc, changed: bool)
      modifies this
      ensures src.version <= lastVersion ==> !changed && d == doc && updatedPageFlowBoxes == old(updatedPageFlowBoxes)
      ensures src.version > lastVersion ==>
        && changed
        && d == doc.(version := src.version, pages := d.pages)
        && PagesBlocks(d.pages) == JoinBlockRuns(PagesBlocks(doc.pages), src.version)
        && PagesNonEmpty(d.pages)
        && updatedPageFlowBoxes == old(updatedPageFlowBoxes) + PageUids(d.pages)
        && PagesSurvive(d.pages, doc.pages)
      ensures updatedLineFlowBoxes == old(updatedLineFlowBoxes) && nextUid == old(nextUid)
    {
      if src.version <= lastVersion {
        return doc, false;
      }
      var v := src.version;
      var ps := JoinPageFlows(doc.pages, v);
      d := doc.(pages := ps, version := v);
      changed := true;
    }

    /**
     * `updateNode` on a Block box, whose page flow is `parent`: the join loop
     * over its line flows (inlines, no version bump); the block takes the
     * new version; the page flow's version is raised to it when lower, and
     * the page flow is recorded as updated.
     */
    method UpdateBlock(block: Block, parent: Flow, src: RenderNode) returns (nb: Block, np: Flow, changed: bool)
      modifies this
      ensures src.version <= lastVersion ==>
        !changed && nb == block && np == parent
        && updatedPageFlowBoxes == old(updatedPageFlowBoxes) && updatedLineFlowBoxes == old(updatedLineFlowBoxes)
      ensures src.version > lastVersion ==>
        && changed
        && nb == block.(version := src.version, lines := nb.lines)
        && LinesInlines(nb.lines) == JoinInlineRuns(LinesInlines(block.lines))
        && LinesNonEmpty(nb.lines)
        && updatedLineFlowBoxes == old(updatedLineFlowBoxes) + LineUids(nb.lines)
        && LinesSurvive(nb.lines, block.lines)
        && np == Flow(parent.uid, if parent.version < src.version then src.version else parent.version)
        && updatedPageFlowBoxes == old(updatedPageFlowBoxes) + [parent.uid]
      ensures nextUid == old(nextUid)
    {
      if src.version <= lastVersion {
        return block, parent, false;
      }
      var v := src.version;
      var ls := JoinLineFlows(block.lines);
      nb := block.(lines := ls, version := v);
      np := parent;
      if np.version < v {
        np := np.(version := v);
      }
      updatedPageFlowBoxes := updatedPageFlowBoxes + [np.uid];
      changed := true;
    }

    /**
     * One turn of the outer loop of `updateNode` on the Doc box: page flow
     * `n0` is visited, then dropped when the joins have emptied it (the
     * index stays) or recorded as updated and passed. Seen from `pages0`,
     * the flows before the index keep their uids and versions and their
     * order; `acc0` is the list of updated page flows before the loop.
     */
    method PrunePage(ps0: seq<Page>, n0: nat, last: Option<Block>, v: int, ghost fs0: seq<Block>, ghost g0: nat,
                     ghost pages0: seq<Page>, ghost d0: nat, ghost idx0: seq<nat>, ghost acc0: seq<Uid>)
      returns (ps: seq<Page>, lastChild: Option<Block>, n: nat, ghost g: nat, ghost d: nat, ghost idx: seq<nat>)
      modifies this
      requires n0 < |ps0| && DocJoinState(fs0, ps0, n0, 0, g0, last, v)
      requires Surviving(PageShells(pages0), PageShells(ps0), n0, d0, idx0)
      requires updatedPageFlowBoxes == acc0 + PageUids(ps0[..n0])
      ensures n <= |ps| && DocJoinState(fs0, ps, n, 0, g, lastChild, v)
      ensures Surviving(PageShells(pages0), PageShells(ps), n, d, idx)
      ensures updatedPageFlowBoxes == acc0 + PageUids(ps[..n])
      ensures updatedLineFlowBoxes == old(updatedLineFlowBoxes) && nextUid == old(nextUid)
      ensures |ps| - n < |ps0| - n0
    {
      var m;
      ps, lastChild, m, g := JoinPageVisit(ps0, n0, last, v, fs0, g0);
      if |ps[n0].blocks| == 0 {
        DocJoinStateDrop(fs0, ps, n0, m, g, lastChild, v);
        ghost var ps1 := ps;
        ps, n, d, idx := ps[..n0] + ps[n0 + 1..], n0, d0 + 1, idx0;
        PageShellsDrop(ps1, n0);
        SurvivingDrop(PageShells(pages0), PageShells(ps1), PageShells(ps), n, d0, d, idx);
      } else {
        DocJoinStatePass(fs0, ps, n0, m, g, lastChild, v);
        Assoc(acc0, PageUids(ps[..n0]), [ps[n0].uid]);
        updatedPageFlowBoxes := updatedPageFlowBoxes + [ps[n0].uid];
        ghost var j: nat := n0 + d0;
        n, d, idx := n0 + 1, d0, idx0 + [j];
        SurvivingPass(PageShells(pages0), PageShells(ps), n0, n, d, idx0, idx);
      }
    }

    /**
     * One turn of the outer loop of `updateNode` on a Block box: line flow
     * `n0` is visited, then dropped when emptied or recorded and passed.
     */
    method PruneLine(ls0: seq<Line>, n0: nat, last: Option<Inline>, ghost fs0: seq<Inline>, ghost g0: nat,
                     ghost lines0: seq<Line>, ghost d0: nat, ghost idx0: seq<nat>, ghost acc0: seq<Uid>)
      returns (ls: seq<Line>, lastChild: Option<Inline>, n: nat, ghost g: nat, ghost d: nat, ghost idx: seq<nat>)
      modifies this
      requires n0 < |ls0| && BlockJoinState(fs0, ls0, n0, 0, g0, last)
      requires Surviving(LineShells(lines0), LineShells(ls0), n0, d0, idx0)
      requires updatedLineFlowBoxes == acc0 + LineUids(ls0[..n0])
      ensures n <= |ls| && BlockJoinState(fs0, ls, n, 0, g, lastChild)
      ensures Surviving(LineShells(lines0), LineShells(ls), n, d, idx)
      ensures updatedLineFlowBoxes == acc0 + LineUids(ls[..n])
      ensures updatedPageFlowBoxes == old(updatedPageFlowBoxes) && nextUid == old(nextUid)
      ensures |ls| - n < |ls0| - n0
    {
      var m;
      ls, lastChild, m, g := JoinLineVisit(ls0, n0, last, fs0, g0);
      if |ls[n0].inlines| == 0 {
        BlockJoinStateDrop(fs0, ls, n0, m, g, lastChild);
        ghost var ls1 := ls;
        ls, n, d, idx := ls[..n0] + ls[n0 + 1..], n0, d0 + 1, idx0;
        LineShellsDrop(ls1, n0);
        SurvivingDrop(LineShells(lines0), LineShells(ls1), LineShells(ls), n, d0, d, idx);
      } else {
        BlockJoinStatePass(fs0, ls, n0, m, g, lastChild);
        Assoc(acc0, LineUids(ls[..n0]), [ls[n0].uid]);
        updatedLineFlowBoxes := updatedLineFlowBoxes + [ls[n0].uid];
        ghost var j: nat := n0 + d0;
        n, d, idx := n0 + 1, d0, idx0 + [j];
        SurvivingPass(LineShells(lines0), LineShells(ls), n0, n, d, idx0, idx);
      }
    }

    /**
     * The loops of `updateNode` on the Doc box over its page flows: each
     * page flow is visited, joining blocks mirroring the same render node
     * (the merged blocks are bumped to version `v`), then dropped when
     * emptied or recorded as updated.
     */
    method JoinPageFlows(pages: seq<Page>, v: int) returns (ps: seq<Page>)
      modifies this
      ensures PagesBlocks(ps) == JoinBlockRuns(PagesBlocks(pages), v)
      ensures PagesNonEmpty(ps)
      ensures PagesSurvive(ps, pages)
      ensures updatedPageFlowBoxes == old(updatedPageFlowBoxes) + PageUids(ps)
      ensures updatedLineFlowBoxes == old(updatedLineFlowBoxes) && nextUid == old(nextUid)
    {
      ps := pages;
      ghost var fs0 := PagesBlocks(ps);
      ghost var g := 0;
      var lastChild: Option<Block> := None;
      ghost var dropped: nat, idx: seq<nat> := 0, [];
      DocJoinStateStart(ps, v);
      SurvivingStart(PageShells(ps));
      var n: nat := 0;
      while n < |ps|
        invariant n <= |ps| && DocJoinState(fs0, ps, n, 0, g, lastChild, v)
        invariant Surviving(PageShells(pages), PageShells(ps), n, dropped, idx)
        invariant updatedPageFlowBoxes == old(updatedPageFlowBoxes) + PageUids(ps[..n])
        invariant updatedLineFlowBoxes == old(updatedLineFlowBoxes) && nextUid == old(nextUid)
        decreases |ps| - n
      {
        ps, lastChild, n, g, dropped, idx := PrunePage(ps, n, lastChild, v, fs0, g, pages, dropped, idx, old(updatedPageFlowBoxes));
      }
      DocJoinStateDone(fs0, ps, n, 0, g, lastChild, v);
      SurvivingDone(PageShells(pages), PageShells(ps), n, dropped, idx);
      assert ps[..n] == ps;
    }

    /**
     * The loops of `updateNode` on a Block box over its line flows: each
     * line flow is visited, joining inlines mirroring the same render node,
     * then dropped when emptied or recorded as updated.
     */
    method JoinLineFlows(lines: seq<Line>) returns (ls: seq<Line>)
      modifies this
      ensures LinesInlines(ls) == JoinInlineRuns(LinesInlines(lines))
      ensures LinesNonEmpty(ls)
      ensures LinesSurvive(ls, lines)
      ensures updatedLineFlowBoxes == old(updatedLineFlowBoxes) + LineUids(ls)
      ensures updatedPageFlowBoxes == old(updatedPageFlowBoxes) && nextUid == old(nextUid)
    {
      ls := lines;
      ghost var fs0 := LinesInlines(ls);
      ghost var g := 0;
      var lastChild: Option<Inline> := None;
      ghost var dropped: nat, idx: seq<nat> := 0, [];
      BlockJoinStateStart(ls);
      SurvivingStart(LineShells(ls));
      var n: nat := 0;
      while n < |ls|
        invariant n <= |ls| && BlockJoinState(fs0, ls, n, 0, g, lastChild)
        invariant Surviving(LineShells(lines), LineShells(ls), n, dropped, idx)
        invariant updatedLineFlowBoxes == old(updatedLineFlowBoxes) + LineUids(ls[..n])
        invariant updatedPageFlowBoxes == old(updatedPageFlowBoxes) && nextUid == old(nextUid)
        decreases |ls| - n
      {
        ls, lastChild, n, g, dropped, idx := PruneLine(ls, n, lastChild, fs0, g, lines, dropped, idx, old(updatedLineFlowBoxes));
      }
      BlockJoinStateDone(fs0, ls, n, 0, g, lastChild);
      SurvivingDone(LineShells(lines), LineShells(ls), n, dropped, idx);
      assert ls[..n] == ls;
    }

    /**
     * `updateNode` on an Inline box, whose line flow is `parent`: adjacent
     * atomic boxes mirroring the same render node are joined; the inline
     * takes the new version; the line flow's version is raised to it when
     * lower, and the line flow is recorded as updated.
     */
    method UpdateInline(inl: Inline, parent: Flow, src: RenderNode) returns (ni: Inline, np: Flow, changed: bool)
      modifies this
      ensures src.version <= lastVersion ==>
        !changed && ni == inl && np == parent && updatedLineFlowBoxes == old(updatedLineFlowBoxes)
      ensures src.version > lastVersion ==>
        && changed
        && ni == inl.(version := src.version, atomics := JoinAtomicRuns(inl.atomics))
        && np == Flow(parent.uid, if parent.version < src.version then src.version else parent.version)
        && updatedLineFlowBoxes == old(updatedLineFlowBoxes) + [parent.uid]
      ensures updatedPageFlowBoxes == old(updatedPageFlowBoxes) && nextUid == old(nextUid)
    {
      if src.version <= lastVersion {
        return inl, parent, false;
      }
      var v := src.version;
      var ats := inl.atomics;
      ghost var g: nat := 0;
      var lastChild: Option<Atomic> := None;
      var n: nat := 0;
      while n < |ats|
        invariant InlineJoinState(inl.atomics, ats, n, g, lastChild)
        modifies {}
        decreases |ats| - n
      {
        ats, lastChild, n, g := JoinAtomicStep(ats, n, lastChild, inl.atomics, g);
      }
      assert ats[..n] == ats && inl.atomics[..g] == inl.atomics;
      ni := inl.(atomics := ats, version := v);
      np := parent;
      if np.version < v {
        np := np.(version := v);
      }
      updatedLineFlowBoxes := updatedLineFlowBoxes + [np.uid];
      changed := true;
    }

    /**
     * `updateNode` on an Atomic box: it takes the render node's measured
     * content and the new version.
     */
    method UpdateAtomic(a: Atomic, src: RenderNode) returns (na: Atomic, changed: bool)
      ensures src.version <= lastVersion ==> !changed && na == a
      ensures src.version > lastVersion ==> changed && na == a.(glyphs := src.glyphs, height := src.height, version := src.version)
    {
      if src.version <= lastVersion {
        return a, false;
      }
      na := a.(glyphs := src.glyphs, height := src.height);
      na := na.(version := src.version);
      changed := true;
    }

    /**
     * `updateNode`: the update of the box's kind when the render node is of
     * the matching kind, and a type mismatch otherwise (including for the
     * flow containers, which no render node mirrors).
     */
    method UpdateNode(node: Box, parent: Flow, src: RenderNode) returns (r: Result<Updated>)
      modifies this
      ensures !((node.DocBox? && src.kind == DocNode) || (node.BlockBox? && src.kind == BlockNode) ||
                (node.InlineBox? && src.kind == InlineNode) || (node.AtomicBox? && src.kind == AtomicNode)) ==>
        r == Err(TypeMismatch) && updatedPageFlowBoxes == old(updatedPageFlowBoxes) && updatedLineFlowBoxes == old(updatedLineFlowBoxes)
      ensures src.version <= lastVersion && r.Ok? ==>
        r.value == Updated(node, parent, false)
        && updatedPageFlowBoxes == old(updatedPageFlowBoxes) && updatedLineFlowBoxes == old(updatedLineFlowBoxes)
      ensures r.Ok? ==> r.value.changed == (src.version > lastVersion)
      ensures node.DocBox? && src.kind == DocNode && src.version > lastVersion ==>
        r.Ok? && r.value.node.DocBox? && r.value.parent == parent
        && r.value.node.doc == node.doc.(version := src.version, pages := r.value.node.doc.pages)
        && PagesBlocks(r.value.node.doc.pages) == JoinBlockRuns(PagesBlocks(node.doc.pages), src.version)
        && PagesNonEmpty(r.value.node.doc.pages)
        && updatedPageFlowBoxes == old(updatedPageFlowBoxes) + PageUids(r.value.node.doc.pages)
        && PagesSurvive(r.value.node.doc.pages, node.doc.pages)
        && updatedLineFlowBoxes == old(updatedLineFlowBoxes)
      ensures node.BlockBox? && src.kind == BlockNode && src.version > lastVersion ==>
        r.Ok? && r.value.node.BlockBox?
        && r.value.node.block == node.block.(version := src.version, lines := r.value.node.block.lines)
        && LinesInlines(r.value.node.block.lines) == JoinInlineRuns(LinesInlines(node.block.lines))
        && LinesNonEmpty(r.value.node.block.lines)
        && updatedLineFlowBoxes == old(updatedLineFlowBoxes) + LineUids(r.value.node.block.lines)
        && LinesSurvive(r.value.node.block.lines, node.block.lines)
        && r.value.parent == Flow(parent.uid, if parent.version < src.version then src.version else parent.version)
        && updatedPageFlowBoxes == old(updatedPageFlowBoxes) + [parent.uid]
      ensures node.InlineBox? && src.kind == InlineNode && src.version > lastVersion ==>
        r.Ok? && r.value.node == InlineBox(node.inline.(version := src.version, atomics := JoinAtomicRuns(node.inline.atomics)))
        && r.value.parent == Flow(parent.uid, if parent.version < src.version then src.version else parent.version)
        && updatedLineFlowBoxes == old(updatedLineFlowBoxes) + [parent.uid]
        && updatedPageFlowBoxes == old(updatedPageFlowBoxes)
      ensures node.AtomicBox? && src.kind == AtomicNode && src.version > lastVersion ==>
        r == Ok(Updated(AtomicBox(node.atomic.(glyphs := src.glyphs, height := src.height, version := src.version)), parent, true))
        && updatedPageFlowBoxes == old(updatedPageFlowBoxes) && updatedLineFlowBoxes == old(updatedLineFlowBoxes)
      ensures nextUid == old(nextUid)
    {
      if node.DocBox? && src.kind == DocNode {
        var d, changed := UpdateDoc(node.doc, src);
        return Ok(Updated(DocBox(d), parent, changed));
      }
      if node.BlockBox? && src.kind == BlockNode {
        var nb, np, changed := UpdateBlock(node.block, parent, src);
        return Ok(Updated(BlockBox(nb), np, changed));
      }
      if node.InlineBox? && src.kind == InlineNode {
        var ni, np, changed := UpdateInline(node.inline, parent, src);
        return Ok(Updated(InlineBox(ni), np, changed));
      }
      if node.AtomicBox? && src.kind == AtomicNode {
        var na, changed := UpdateAtomic(node.atomic, src);
        return Ok(Updated(AtomicBox(na), parent, changed));
      }
      return Err(TypeMismatch);
    }
  }
}
