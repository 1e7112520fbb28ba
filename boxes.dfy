/**
 * The layout box tree: Doc > PageFlow > Block > LineFlow > Inline > Atomic.
 *
 * Boxes are values here. Every box carries a `uid` that stands for the
 * identity of the JavaScript object (two fragments of one split render node
 * share their render-node `id` but not their `uid`); the engine hands out
 * fresh uids where the source calls `new`. PageFlow and LineFlow boxes are
 * the engine's own flow containers and have no render-node id.
 *
 * Measurement is made concrete: an atomic box holds glyphs, each with an
 * integer width, and a height. A box's width is the sum of its glyphs'
 * widths; its width without trailing whitespace leaves out the widths of the
 * trailing ' ' glyphs. A line's height is the largest height of its atomic
 * boxes and a block's height is the sum of its lines' heights.
 */
module Boxes {

  import opened Results

  type Uid = nat
  type Id = string

  datatype Glyph = Glyph(c: char, width: nat)

  datatype Atomic = Atomic(uid: Uid, id: Id, version: int, glyphs: seq<Glyph>, height: nat)
  datatype Inline = Inline(uid: Uid, id: Id, version: int, atomics: seq<Atomic>)
  datatype Line = Line(uid: Uid, version: int, width: nat, inlines: seq<Inline>)
  datatype Block = Block(uid: Uid, id: Id, version: int, width: nat, lines: seq<Line>)
  datatype Page = Page(uid: Uid, version: int, blocks: seq<Block>)
  datatype Doc = Doc(uid: Uid, id: Id, version: int, innerHeight: nat, pages: seq<Page>)

  /** A box of any of the six kinds, as the reconciler sees it. */
  datatype Box =
    | DocBox(doc: Doc)
    | PageBox(page: Page)
    | BlockBox(block: Block)
    | LineBox(line: Line)
    | InlineBox(inline: Inline)
    | AtomicBox(atomic: Atomic)

  // ---------------------------------------------------------------- measurement

  function GlyphsWidth(gs: seq<Glyph>): nat
  {
    if gs == [] then 0 else gs[0].width + GlyphsWidth(gs[1..])
  }

  /** The width of the run of ' ' glyphs at the end. */
  function TrailingSpaceWidth(gs: seq<Glyph>): nat
  {
    if gs == [] || gs[|gs| - 1].c != ' ' then 0
    else gs[|gs| - 1].width + TrailingSpaceWidth(gs[..|gs| - 1])
  }

  lemma {:induction false} GlyphsWidthAppend(a: seq<Glyph>, b: seq<Glyph>)
    ensures GlyphsWidth(a + b) == GlyphsWidth(a) + GlyphsWidth(b)
  {
    if a != [] {
      assert (a + b)[1..] == a[1..] + b;
      GlyphsWidthAppend(a[1..], b);
    } else {
      assert a + b == b;
    }
  }

  lemma {:induction false} TrailingSpaceAtMostWidth(gs: seq<Glyph>)
    ensures TrailingSpaceWidth(gs) <= GlyphsWidth(gs)
  {
    if gs != [] && gs[|gs| - 1].c == ' ' {
      var init := gs[..|gs| - 1];
      TrailingSpaceAtMostWidth(init);
      assert gs == init + [gs[|gs| - 1]];
      GlyphsWidthAppend(init, [gs[|gs| - 1]]);
    }
  }

  /** `getWidthWithoutTrailingWhitespace` of a glyph run. */
  function GlyphsWidthWithoutTrailing(gs: seq<Glyph>): (r: nat)
    ensures r <= GlyphsWidth(gs)
  {
    TrailingSpaceAtMostWidth(gs);
    GlyphsWidth(gs) - TrailingSpaceWidth(gs)
  }

  function AtomicWidth(a: Atomic): nat { GlyphsWidth(a.glyphs) }

  function AtomicWidthWithoutTrailing(a: Atomic): nat { GlyphsWidthWithoutTrailing(a.glyphs) }

  function AtomsGlyphs(ats: seq<Atomic>): seq<Glyph>
  {
    if ats == [] then [] else ats[0].glyphs + AtomsGlyphs(ats[1..])
  }

  function InlineWidth(i: Inline): nat { GlyphsWidth(AtomsGlyphs(i.atomics)) }

  function InlineWidthWithoutTrailing(i: Inline): nat { GlyphsWidthWithoutTrailing(AtomsGlyphs(i.atomics)) }

  function AtomsHeight(ats: seq<Atomic>): nat
  {
    if ats == [] then 0
    else var h := AtomsHeight(ats[1..]); if ats[0].height > h then ats[0].height else h
  }

  function InlinesHeight(ins: seq<Inline>): nat
  {
    if ins == [] then 0
    else var h := InlinesHeight(ins[1..]); var a := AtomsHeight(ins[0].atomics); if a > h then a else h
  }

  /** A line is as tall as its tallest atomic box. */
  function LineHeight(l: Line): nat { InlinesHeight(l.inlines) }

  function LinesHeight(ls: seq<Line>): nat
  {
    if ls == [] then 0 else LineHeight(ls[0]) + LinesHeight(ls[1..])
  }

  /** A block is as tall as its lines together. */
  function BlockHeight(b: Block): nat { LinesHeight(b.lines) }

  // ---------------------------------------------------------------- content

  /**
   * One glyph of the document in reading order, tagged with the render-node
   * ids of the block, inline and atomic box it sits in.
   */
  datatype Piece = Piece(block: Id, inline: Id, atomic: Id, glyph: Glyph)

  function AtomicText(bid: Id, iid: Id, a: Atomic): (r: seq<Piece>)
    ensures |r| == |a.glyphs|
  {
    seq(|a.glyphs|, k requires 0 <= k < |a.glyphs| => Piece(bid, iid, a.id, a.glyphs[k]))
  }

  function AtomsText(bid: Id, iid: Id, ats: seq<Atomic>): seq<Piece>
  {
    if ats == [] then [] else AtomicText(bid, iid, ats[0]) + AtomsText(bid, iid, ats[1..])
  }

  function InlinesText(bid: Id, ins: seq<Inline>): seq<Piece>
  {
    if ins == [] then [] else AtomsText(bid, ins[0].id, ins[0].atomics) + InlinesText(bid, ins[1..])
  }

  function LinesText(bid: Id, ls: seq<Line>): seq<Piece>
  {
    if ls == [] then [] else InlinesText(bid, ls[0].inlines) + LinesText(bid, ls[1..])
  }

  function BlockText(b: Block): seq<Piece> { LinesText(b.id, b.lines) }

  function BlocksText(bs: seq<Block>): seq<Piece>
  {
    if bs == [] then [] else BlockText(bs[0]) + BlocksText(bs[1..])
  }

  function PagesText(ps: seq<Page>): seq<Piece>
  {
    if ps == [] then [] else BlocksText(ps[0].blocks) + PagesText(ps[1..])
  }

  /** The document's content in reading order. */
  function DocText(d: Doc): seq<Piece> { PagesText(d.pages) }

  lemma {:induction false} AtomsTextAppend(bid: Id, iid: Id, a: seq<Atomic>, b: seq<Atomic>)
    ensures AtomsText(bid, iid, a + b) == AtomsText(bid, iid, a) + AtomsText(bid, iid, b)
  {
    if a != [] {
      assert (a + b)[1..] == a[1..] + b;
      AtomsTextAppend(bid, iid, a[1..], b);
    } else {
      assert a + b == b;
    }
  }

  lemma {:induction false} InlinesTextAppend(bid: Id, a: seq<Inline>, b: seq<Inline>)
    ensures InlinesText(bid, a + b) == InlinesText(bid, a) + InlinesText(bid, b)
  {
    if a != [] {
      assert (a + b)[1..] == a[1..] + b;
      InlinesTextAppend(bid, a[1..], b);
    } else {
      assert a + b == b;
    }
  }

  lemma {:induction false} LinesTextAppend(bid: Id, a: seq<Line>, b: seq<Line>)
    ensures LinesText(bid, a + b) == LinesText(bid, a) + LinesText(bid, b)
  {
    if a != [] {
      assert (a + b)[1..] == a[1..] + b;
      LinesTextAppend(bid, a[1..], b);
    } else {
      assert a + b == b;
    }
  }

  lemma {:induction false} BlocksTextAppend(a: seq<Block>, b: seq<Block>)
    ensures BlocksText(a + b) == BlocksText(a) + BlocksText(b)
  {
    if a != [] {
      assert (a + b)[1..] == a[1..] + b;
      BlocksTextAppend(a[1..], b);
    } else {
      assert a + b == b;
    }
  }

  lemma {:induction false} PagesTextAppend(a: seq<Page>, b: seq<Page>)
    ensures PagesText(a + b) == PagesText(a) + PagesText(b)
  {
    if a != [] {
      assert (a + b)[1..] == a[1..] + b;
      PagesTextAppend(a[1..], b);
    } else {
      assert a + b == b;
    }
  }

  /** Cutting an atomic box's glyphs in two cuts its text in two. */
  lemma AtomicTextSplit(bid: Id, iid: Id, a: Atomic, k: nat, uid1: Uid, v1: int, uid2: Uid, v2: int)
    requires k <= |a.glyphs|
    ensures AtomicText(bid, iid, a.(uid := uid1, version := v1, glyphs := a.glyphs[..k]))
          + AtomicText(bid, iid, a.(uid := uid2, version := v2, glyphs := a.glyphs[k..]))
         == AtomicText(bid, iid, a)
  {
  }

  /** Joining two atomic fragments of one render node joins their text. */
  lemma AtomicTextJoin(bid: Id, iid: Id, a: Atomic, b: Atomic)
    requires a.id == b.id
    ensures AtomicText(bid, iid, a.(glyphs := a.glyphs + b.glyphs))
         == AtomicText(bid, iid, a) + AtomicText(bid, iid, b)
  {
  }

  // ---------------------------------------------------------------- logical children

  /** A Doc box's logical children: the blocks of every page flow, in order. */
  function PagesBlocks(ps: seq<Page>): seq<Block>
  {
    if ps == [] then [] else ps[0].blocks + PagesBlocks(ps[1..])
  }

  /** A Block box's logical children: the inlines of every line flow, in order. */
  function LinesInlines(ls: seq<Line>): seq<Inline>
  {
    if ls == [] then [] else ls[0].inlines + LinesInlines(ls[1..])
  }

  lemma {:induction false} PagesBlocksAppend(a: seq<Page>, b: seq<Page>)
    ensures PagesBlocks(a + b) == PagesBlocks(a) + PagesBlocks(b)
  {
    if a != [] {
      assert (a + b)[1..] == a[1..] + b;
      PagesBlocksAppend(a[1..], b);
    } else {
      assert a + b == b;
    }
  }

  lemma {:induction false} LinesInlinesAppend(a: seq<Line>, b: seq<Line>)
    ensures LinesInlines(a + b) == LinesInlines(a) + LinesInlines(b)
  {
    if a != [] {
      assert (a + b)[1..] == a[1..] + b;
      LinesInlinesAppend(a[1..], b);
    } else {
      assert a + b == b;
    }
  }

  /**
   * Where a page's blocks sit among the Doc's logical children: block j of
   * page p is logical child number |PagesBlocks(ps[..p])| + j.
   */
  lemma PagesBlocksAt(ps: seq<Page>, p: nat, j: nat)
    requires p < |ps| && j < |ps[p].blocks|
    ensures |PagesBlocks(ps[..p])| + j < |PagesBlocks(ps)|
    ensures PagesBlocks(ps)[|PagesBlocks(ps[..p])| + j] == ps[p].blocks[j]
  {
    assert ps == ps[..p] + [ps[p]] + ps[p + 1..];
    PagesBlocksAppend(ps[..p] + [ps[p]], ps[p + 1..]);
    PagesBlocksAppend(ps[..p], [ps[p]]);
    assert PagesBlocks([ps[p]]) == ps[p].blocks;
  }

  /** Every logical child of a Doc box is the block of some page. */
  lemma {:induction false} PagesBlocksFrom(ps: seq<Page>, k: nat)
    requires k < |PagesBlocks(ps)|
    ensures exists p, j :: 0 <= p < |ps| && 0 <= j < |ps[p].blocks| && PagesBlocks(ps)[k] == ps[p].blocks[j]
  {
    if k >= |ps[0].blocks| {
      PagesBlocksFrom(ps[1..], k - |ps[0].blocks|);
      var p, j :| 0 <= p < |ps[1..]| && 0 <= j < |ps[1..][p].blocks| && PagesBlocks(ps[1..])[k - |ps[0].blocks|] == ps[1..][p].blocks[j];
      assert ps[p + 1] == ps[1..][p];
    } else {
      assert PagesBlocks(ps)[k] == ps[0].blocks[k];
    }
  }

  /** Block-level analogue of PagesBlocksAt. */
  lemma LinesInlinesAt(ls: seq<Line>, l: nat, j: nat)
    requires l < |ls| && j < |ls[l].inlines|
    ensures |LinesInlines(ls[..l])| + j < |LinesInlines(ls)|
    ensures LinesInlines(ls)[|LinesInlines(ls[..l])| + j] == ls[l].inlines[j]
  {
    assert ls == ls[..l] + [ls[l]] + ls[l + 1..];
    LinesInlinesAppend(ls[..l] + [ls[l]], ls[l + 1..]);
    LinesInlinesAppend(ls[..l], [ls[l]]);
    assert LinesInlines([ls[l]]) == ls[l].inlines;
  }

  /** Block-level analogue of PagesBlocksFrom. */
  lemma {:induction false} LinesInlinesFrom(ls: seq<Line>, k: nat)
    requires k < |LinesInlines(ls)|
    ensures exists l, j :: 0 <= l < |ls| && 0 <= j < |ls[l].inlines| && LinesInlines(ls)[k] == ls[l].inlines[j]
  {
    if k >= |ls[0].inlines| {
      LinesInlinesFrom(ls[1..], k - |ls[0].inlines|);
      var l, j :| 0 <= l < |ls[1..]| && 0 <= j < |ls[1..][l].inlines| && LinesInlines(ls[1..])[k - |ls[0].inlines|] == ls[1..][l].inlines[j];
      assert ls[l + 1] == ls[1..][l];
    } else {
      assert LinesInlines(ls)[k] == ls[0].inlines[k];
    }
  }

  function BlockBoxes(bs: seq<Block>): (r: seq<Box>)
    ensures |r| == |bs| && forall k :: 0 <= k < |bs| ==> r[k] == BlockBox(bs[k])
  {
    seq(|bs|, k requires 0 <= k < |bs| => BlockBox(bs[k]))
  }

  function InlineBoxes(ins: seq<Inline>): (r: seq<Box>)
    ensures |r| == |ins| && forall k :: 0 <= k < |ins| ==> r[k] == InlineBox(ins[k])
  {
    seq(|ins|, k requires 0 <= k < |ins| => InlineBox(ins[k]))
  }

  function AtomicBoxes(ats: seq<Atomic>): (r: seq<Box>)
    ensures |r| == |ats| && forall k :: 0 <= k < |ats| ==> r[k] == AtomicBox(ats[k])
  {
    seq(|ats|, k requires 0 <= k < |ats| => AtomicBox(ats[k]))
  }

  /**
   * `getDstNodeChildren`: the logical children of a box, with the page and
   * line flows flattened away; flow boxes and atomic boxes have none. Where
   * each child sits, and that every child comes from some flow, is stated by
   * PagesBlocksAt and PagesBlocksFrom (Doc boxes) and by LinesInlinesAt and
   * LinesInlinesFrom (Block boxes).
   */
  function GetDstNodeChildren(b: Box): seq<Box>
  {
    match b
    case DocBox(d) => BlockBoxes(PagesBlocks(d.pages))
    case BlockBox(bl) => InlineBoxes(LinesInlines(bl.lines))
    case InlineBox(i) => AtomicBoxes(i.atomics)
    case _ => []
  }

  /** The render-node id of a box; flow containers have none. */
  function RenderNodeId(b: Box): Option<Id>
  {
    match b
    case DocBox(d) => Some(d.id)
    case BlockBox(bl) => Some(bl.id)
    case InlineBox(i) => Some(i.id)
    case AtomicBox(a) => Some(a.id)
    case _ => None
  }

  /** `findSrcNodeInDstNodes`: index of the first box mirroring render node `id`, or -1. */
  function FindSrcNodeInDstNodes(id: Id, dst: seq<Box>): (r: int)
    ensures -1 <= r < |dst|
    ensures r == -1 <==> forall k :: 0 <= k < |dst| ==> RenderNodeId(dst[k]) != Some(id)
    ensures 0 <= r ==> RenderNodeId(dst[r]) == Some(id)
    ensures 0 <= r ==> forall k :: 0 <= k < r ==> RenderNodeId(dst[k]) != Some(id)
  {
    if dst == [] then -1
    else if RenderNodeId(dst[0]) == Some(id) then 0
    else
      var k := FindSrcNodeInDstNodes(id, dst[1..]);
      if k < 0 then -1 else k + 1
  }

  // ---------------------------------------------------------------- version stamping

  function StampAtoms(ats: seq<Atomic>, v: int): (r: seq<Atomic>)
    ensures |r| == |ats|
    ensures forall k :: 0 <= k < |ats| ==> r[k] == ats[k].(version := v)
  {
    seq(|ats|, k requires 0 <= k < |ats| => ats[k].(version := v))
  }

  function StampInlines(ins: seq<Inline>, v: int): (r: seq<Inline>)
    ensures |r| == |ins|
    ensures forall k :: 0 <= k < |ins| ==> r[k] == ins[k].(version := v, atomics := StampAtoms(ins[k].atomics, v))
  {
    seq(|ins|, k requires 0 <= k < |ins| => ins[k].(version := v, atomics := StampAtoms(ins[k].atomics, v)))
  }

  function StampLines(ls: seq<Line>, v: int): (r: seq<Line>)
    ensures |r| == |ls|
    ensures forall k :: 0 <= k < |ls| ==> r[k] == ls[k].(version := v, inlines := StampInlines(ls[k].inlines, v))
  {
    seq(|ls|, k requires 0 <= k < |ls| => ls[k].(version := v, inlines := StampInlines(ls[k].inlines, v)))
  }

  /**
   * `bumpVersionForBlockBoxAndDescendents`: the block and every line, inline
   * and atomic box under it get version `v`; nothing else changes.
   */
  function BumpBlock(b: Block, v: int): (r: Block)
    ensures r.uid == b.uid && r.id == b.id && r.width == b.width && r.version == v
    ensures |r.lines| == |b.lines|
    ensures forall l :: 0 <= l < |r.lines| ==>
      r.lines[l].version == v && r.lines[l].uid == b.lines[l].uid && r.lines[l].width == b.lines[l].width
      && |r.lines[l].inlines| == |b.lines[l].inlines|
    ensures forall l, i :: 0 <= l < |r.lines| && 0 <= i < |r.lines[l].inlines| ==>
      r.lines[l].inlines[i].version == v && r.lines[l].inlines[i].uid == b.lines[l].inlines[i].uid
      && r.lines[l].inlines[i].id == b.lines[l].inlines[i].id
      && |r.lines[l].inlines[i].atomics| == |b.lines[l].inlines[i].atomics|
    ensures forall l, i, a :: 0 <= l < |r.lines| && 0 <= i < |r.lines[l].inlines| && 0 <= a < |r.lines[l].inlines[i].atomics| ==>
      r.lines[l].inlines[i].atomics[a] == b.lines[l].inlines[i].atomics[a].(version := v)
  {
    b.(version := v, lines := StampLines(b.lines, v))
  }

  lemma {:induction false} StampAtomsText(bid: Id, iid: Id, ats: seq<Atomic>, v: int)
    ensures AtomsText(bid, iid, StampAtoms(ats, v)) == AtomsText(bid, iid, ats)
  {
    if ats != [] {
      assert StampAtoms(ats, v)[1..] == StampAtoms(ats[1..], v);
      StampAtomsText(bid, iid, ats[1..], v);
    }
  }

  lemma {:induction false} StampInlinesText(bid: Id, ins: seq<Inline>, v: int)
    ensures InlinesText(bid, StampInlines(ins, v)) == InlinesText(bid, ins)
  {
    if ins != [] {
      assert StampInlines(ins, v)[1..] == StampInlines(ins[1..], v);
      StampAtomsText(bid, ins[0].id, ins[0].atomics, v);
      StampInlinesText(bid, ins[1..], v);
    }
  }

  lemma {:induction false} StampLinesText(bid: Id, ls: seq<Line>, v: int)
    ensures LinesText(bid, StampLines(ls, v)) == LinesText(bid, ls)
  {
    if ls != [] {
      assert StampLines(ls, v)[1..] == StampLines(ls[1..], v);
      StampInlinesText(bid, ls[0].inlines, v);
      StampLinesText(bid, ls[1..], v);
    }
  }

  /** Bumping versions leaves the block's content alone. */
  lemma BumpBlockText(b: Block, v: int)
    ensures BlockText(BumpBlock(b, v)) == BlockText(b)
  {
    StampLinesText(b.id, b.lines, v);
  }
}
