/**
 * Joining box fragments that a previous reflow split apart: two adjacent
 * block (inline, atomic) boxes mirroring the same render node are put back
 * into one. The functions here are the single join steps the syncer's update
 * loops take, with the lemmas those loops need: a step keeps the document's
 * content and, on the flattened list of logical children, replaces the two
 * neighbours by their join.
 */
module Joins {

  import opened Seqs
  import opened Boxes
  import opened Versions

  // ---------------------------------------------------------------- joining two boxes

  /** `BlockBox.join`: the line flows of `b` are appended to those of `a`. */
  function JoinBlocks(a: Block, b: Block): Block
  {
    a.(lines := a.lines + b.lines)
  }

  /** `InlineBox.join`: the atomic boxes of `b` are appended to those of `a`. */
  function JoinInlines(a: Inline, b: Inline): Inline
  {
    a.(atomics := a.atomics + b.atomics)
  }

  /** `AtomicBox.join`: the glyphs of `b` are appended to those of `a`. */
  function JoinAtomics(a: Atomic, b: Atomic): Atomic
  {
    a.(glyphs := a.glyphs + b.glyphs)
  }

  /** Joining two fragments of one block keeps their content, in order. */
  lemma JoinBlocksText(a: Block, b: Block)
    requires a.id == b.id
    ensures BlockText(JoinBlocks(a, b)) == BlockText(a) + BlockText(b)
    ensures JoinBlocks(a, b).uid == a.uid && JoinBlocks(a, b).id == a.id
  {
    LinesTextAppend(a.id, a.lines, b.lines);
  }

  /** Joining two fragments of one inline keeps their content, in order. */
  lemma JoinInlinesText(bid: Id, a: Inline, b: Inline)
    requires a.id == b.id
    ensures InlinesText(bid, [JoinInlines(a, b)]) == InlinesText(bid, [a]) + InlinesText(bid, [b])
  {
    AtomsTextAppend(bid, a.id, a.atomics, b.atomics);
    assert InlinesText(bid, [a]) == AtomsText(bid, a.id, a.atomics);
    assert InlinesText(bid, [b]) == AtomsText(bid, b.id, b.atomics);
    assert InlinesText(bid, [JoinInlines(a, b)]) == AtomsText(bid, a.id, a.atomics + b.atomics);
  }

  // ---------------------------------------------------------------- adjacency

  /** No two neighbouring blocks mirror the same render node. */
  predicate NoAdjacentSameBlockId(bs: seq<Block>)
  {
    forall k :: 0 < k < |bs| ==> bs[k - 1].id != bs[k].id
  }

  predicate NoAdjacentSameInlineId(ins: seq<Inline>)
  {
    forall k :: 0 < k < |ins| ==> ins[k - 1].id != ins[k].id
  }

  predicate NoAdjacentSameAtomicId(ats: seq<Atomic>)
  {
    forall k :: 0 < k < |ats| ==> ats[k - 1].id != ats[k].id
  }

  // ---------------------------------------------------------------- flattening

  /** The Doc's content is the content of its logical children. */
  lemma {:induction false} PagesTextFlat(ps: seq<Page>)
    ensures PagesText(ps) == BlocksText(PagesBlocks(ps))
  {
    if ps != [] {
      PagesTextFlat(ps[1..]);
      BlocksTextAppend(ps[0].blocks, PagesBlocks(ps[1..]));
    }
  }

  /** A block's content is the content of its logical children. */
  lemma {:induction false} LinesTextFlat(bid: Id, ls: seq<Line>)
    ensures LinesText(bid, ls) == InlinesText(bid, LinesInlines(ls))
  {
    if ls != [] {
      LinesTextFlat(bid, ls[1..]);
      InlinesTextAppend(bid, ls[0].inlines, LinesInlines(ls[1..]));
    }
  }

  lemma PagesBlocksSnoc(ps: seq<Page>, n: nat)
    requires n < |ps|
    ensures PagesBlocks(ps[..n + 1]) == PagesBlocks(ps[..n]) + ps[n].blocks
  {
    assert ps[..n + 1] == ps[..n] + [ps[n]];
    PagesBlocksAppend(ps[..n], [ps[n]]);
    assert PagesBlocks([ps[n]]) == ps[n].blocks;
  }

  lemma PagesBlocksCut(ps: seq<Page>, n: nat)
    requires n <= |ps|
    ensures PagesBlocks(ps) == PagesBlocks(ps[..n]) + PagesBlocks(ps[n..])
  {
    assert ps == ps[..n] + ps[n..];
    PagesBlocksAppend(ps[..n], ps[n..]);
  }

  lemma PagesBlocksSplit(ps: seq<Page>, n: nat)
    requires n < |ps|
    ensures PagesBlocks(ps) == PagesBlocks(ps[..n]) + ps[n].blocks + PagesBlocks(ps[n + 1..])
    ensures PagesBlocks(ps[..n + 1]) == PagesBlocks(ps[..n]) + ps[n].blocks
  {
    PagesBlocksSnoc(ps, n);
    PagesBlocksCut(ps, n + 1);
  }

  lemma LinesInlinesSnoc(ls: seq<Line>, n: nat)
    requires n < |ls|
    ensures LinesInlines(ls[..n + 1]) == LinesInlines(ls[..n]) + ls[n].inlines
  {
    assert ls[..n + 1] == ls[..n] + [ls[n]];
    LinesInlinesAppend(ls[..n], [ls[n]]);
    assert LinesInlines([ls[n]]) == ls[n].inlines;
  }

  lemma LinesInlinesCut(ls: seq<Line>, n: nat)
    requires n <= |ls|
    ensures LinesInlines(ls) == LinesInlines(ls[..n]) + LinesInlines(ls[n..])
  {
    assert ls == ls[..n] + ls[n..];
    LinesInlinesAppend(ls[..n], ls[n..]);
  }

  lemma LinesInlinesSplit(ls: seq<Line>, n: nat)
    requires n < |ls|
    ensures LinesInlines(ls) == LinesInlines(ls[..n]) + ls[n].inlines + LinesInlines(ls[n + 1..])
    ensures LinesInlines(ls[..n + 1]) == LinesInlines(ls[..n]) + ls[n].inlines
  {
    LinesInlinesSnoc(ls, n);
    LinesInlinesCut(ls, n + 1);
  }

  /** Replacing page flow `n` changes the logical children only where its own children were. */
  lemma PagesBlocksUpdate(ps: seq<Page>, n: nat, x: Page)
    requires n < |ps|
    ensures ps[n := x][..n] == ps[..n]
    ensures PagesBlocks(ps[n := x]) == PagesBlocks(ps[..n]) + x.blocks + PagesBlocks(ps[n + 1..])
  {
    var r := ps[n := x];
    assert r[..n] == ps[..n];
    assert r[n + 1..] == ps[n + 1..];
    PagesBlocksSplit(r, n);
  }

  /** Replacing line flow `n` changes the logical children only where its own children were. */
  lemma LinesInlinesUpdate(ls: seq<Line>, n: nat, x: Line)
    requires n < |ls|
    ensures ls[n := x][..n] == ls[..n]
    ensures LinesInlines(ls[n := x]) == LinesInlines(ls[..n]) + x.inlines + LinesInlines(ls[n + 1..])
  {
    var r := ls[n := x];
    assert r[..n] == ls[..n];
    assert r[n + 1..] == ls[n + 1..];
    LinesInlinesSplit(r, n);
  }

  /** Replacing page flows `n-1` and `n`, seen on the logical children. */
  lemma PagesBlocksUpdate2(ps: seq<Page>, n: nat, x: Page, y: Page)
    requires 0 < n < |ps|
    ensures var r := ps[n - 1 := x][n := y];
      && PagesBlocks(r[..n]) == PagesBlocks(ps[..n - 1]) + x.blocks
      && PagesBlocks(r) == PagesBlocks(ps[..n - 1]) + x.blocks + y.blocks + PagesBlocks(ps[n + 1..])
  {
    var r := ps[n - 1 := x][n := y];
    assert r[..n - 1] == ps[..n - 1];
    assert r[n + 1..] == ps[n + 1..];
    PagesBlocksSnoc(r, n - 1);
    PagesBlocksSplit(r, n);
  }

  /** Replacing line flows `n-1` and `n`, seen on the logical children. */
  lemma LinesInlinesUpdate2(ls: seq<Line>, n: nat, x: Line, y: Line)
    requires 0 < n < |ls|
    ensures var r := ls[n - 1 := x][n := y];
      && LinesInlines(r[..n]) == LinesInlines(ls[..n - 1]) + x.inlines
      && LinesInlines(r) == LinesInlines(ls[..n - 1]) + x.inlines + y.inlines + LinesInlines(ls[n + 1..])
  {
    var r := ls[n - 1 := x][n := y];
    assert r[..n - 1] == ls[..n - 1];
    assert r[n + 1..] == ls[n + 1..];
    LinesInlinesSnoc(r, n - 1);
    LinesInlinesSplit(r, n);
  }

  // ---------------------------------------------------------------- one join step, flattened

  lemma BlocksText3(p: seq<Block>, x: Block, q: seq<Block>)
    ensures BlocksText(p + [x] + q) == BlocksText(p) + BlockText(x) + BlocksText(q)
  {
    BlocksTextAppend(p + [x], q);
    BlocksTextAppend(p, [x]);
    assert BlocksText([x]) == BlockText(x) + BlocksText([]);
  }

  lemma InlinesText3(bid: Id, p: seq<Inline>, x: Inline, q: seq<Inline>)
    ensures InlinesText(bid, p + [x] + q) == InlinesText(bid, p) + InlinesText(bid, [x]) + InlinesText(bid, q)
  {
    InlinesTextAppend(bid, p + [x], q);
    InlinesTextAppend(bid, p, [x]);
  }

  lemma AtomsText3(bid: Id, iid: Id, p: seq<Atomic>, x: Atomic, q: seq<Atomic>)
    ensures AtomsText(bid, iid, p + [x] + q) == AtomsText(bid, iid, p) + AtomicText(bid, iid, x) + AtomsText(bid, iid, q)
  {
    AtomsTextAppend(bid, iid, p + [x], q);
    AtomsTextAppend(bid, iid, p, [x]);
    assert AtomsText(bid, iid, [x]) == AtomicText(bid, iid, x) + AtomsText(bid, iid, []);
  }

  lemma BlocksTextSnoc(p: seq<Block>, x: Block)
    ensures BlocksText(p + [x]) == BlocksText(p) + BlockText(x)
  {
    BlocksText3(p, x, []);
    assert p + [x] + [] == p + [x];
  }

  /** A block list's content, read around the neighbours `f-1` and `f`. */
  lemma BlocksTextAround(bs: seq<Block>, f: nat)
    requires 0 < f < |bs|
    ensures BlocksText(bs) == BlocksText(bs[..f - 1]) + BlockText(bs[f - 1]) + BlockText(bs[f]) + BlocksText(bs[f + 1..])
  {
    SeqAround(bs, f);
    BlocksText3(bs[..f - 1] + [bs[f - 1]], bs[f], bs[f + 1..]);
    BlocksTextSnoc(bs[..f - 1], bs[f - 1]);
  }

  /**
   * Replacing neighbours `f-1` and `f` of a block list by one block that
   * carries both their contents keeps the content of the list.
   */
  lemma BlocksJoinText(bs: seq<Block>, f: nat, j: Block)
    requires 0 < f < |bs|
    requires BlockText(j) == BlockText(bs[f - 1]) + BlockText(bs[f])
    ensures BlocksText(bs[..f - 1] + [j] + bs[f + 1..]) == BlocksText(bs)
  {
    BlocksTextAround(bs, f);
    BlocksText3(bs[..f - 1], j, bs[f + 1..]);
    Regroup(BlocksText(bs[..f - 1]), BlockText(bs[f - 1]), BlockText(bs[f]), BlocksText(bs[f + 1..]));
  }

  lemma InlinesTextAround(bid: Id, ins: seq<Inline>, f: nat)
    requires 0 < f < |ins|
    ensures InlinesText(bid, ins) == InlinesText(bid, ins[..f - 1]) + InlinesText(bid, [ins[f - 1]]) + InlinesText(bid, [ins[f]]) + InlinesText(bid, ins[f + 1..])
  {
    assert ins == (ins[..f - 1] + [ins[f - 1]]) + [ins[f]] + ins[f + 1..];
    InlinesText3(bid, ins[..f - 1] + [ins[f - 1]], ins[f], ins[f + 1..]);
    InlinesTextAppend(bid, ins[..f - 1], [ins[f - 1]]);
  }

  /** Inline analogue of BlocksJoinText. */
  lemma InlinesJoinText(bid: Id, ins: seq<Inline>, f: nat, j: Inline)
    requires 0 < f < |ins|
    requires InlinesText(bid, [j]) == InlinesText(bid, [ins[f - 1]]) + InlinesText(bid, [ins[f]])
    ensures InlinesText(bid, ins[..f - 1] + [j] + ins[f + 1..]) == InlinesText(bid, ins)
  {
    InlinesTextAround(bid, ins, f);
    InlinesText3(bid, ins[..f - 1], j, ins[f + 1..]);
    Regroup(InlinesText(bid, ins[..f - 1]), InlinesText(bid, [ins[f - 1]]), InlinesText(bid, [ins[f]]), InlinesText(bid, ins[f + 1..]));
  }

  lemma AtomsTextAround(bid: Id, iid: Id, ats: seq<Atomic>, f: nat)
    requires 0 < f < |ats|
    ensures AtomsText(bid, iid, ats) == AtomsText(bid, iid, ats[..f - 1]) + AtomicText(bid, iid, ats[f - 1]) + AtomicText(bid, iid, ats[f]) + AtomsText(bid, iid, ats[f + 1..])
  {
    assert ats == (ats[..f - 1] + [ats[f - 1]]) + [ats[f]] + ats[f + 1..];
    AtomsText3(bid, iid, ats[..f - 1] + [ats[f - 1]], ats[f], ats[f + 1..]);
    AtomsTextAppend(bid, iid, ats[..f - 1], [ats[f - 1]]);
    assert AtomsText(bid, iid, [ats[f - 1]]) == AtomicText(bid, iid, ats[f - 1]) + AtomsText(bid, iid, []);
  }

  /** Atomic analogue of BlocksJoinText. */
  lemma AtomsJoinText(bid: Id, iid: Id, ats: seq<Atomic>, f: nat)
    requires 0 < f < |ats| && ats[f - 1].id == ats[f].id
    ensures AtomsText(bid, iid, ats[..f - 1] + [JoinAtomics(ats[f - 1], ats[f])] + ats[f + 1..]) == AtomsText(bid, iid, ats)
  {
    AtomicTextJoin(bid, iid, ats[f - 1], ats[f]);
    AtomsTextAround(bid, iid, ats, f);
    AtomsText3(bid, iid, ats[..f - 1], JoinAtomics(ats[f - 1], ats[f]), ats[f + 1..]);
    Regroup(AtomsText(bid, iid, ats[..f - 1]), AtomicText(bid, iid, ats[f - 1]), AtomicText(bid, iid, ats[f]), AtomsText(bid, iid, ats[f + 1..]));
  }

  // ---------------------------------------------------------------- the Doc-level step

  /** Where child `m` of page flow `n` sits among the Doc box's logical children. */
  function FlatIndex(ps: seq<Page>, n: nat, m: nat): nat
    requires n <= |ps|
  {
    |PagesBlocks(ps[..n])| + m
  }

  /** Page flow `a` is page flow `b`, whatever blocks each holds: the same uid and version. */
  predicate SamePage(a: Page, b: Page)
  {
    a.uid == b.uid && a.version == b.version
  }

  /** Line flow `a` is line flow `b`, whatever inlines each holds: the same uid, version and width. */
  predicate SameLine(a: Line, b: Line)
  {
    a.uid == b.uid && a.version == b.version && a.width == b.width
  }

  /** The uid and version of each page flow, in order: what a join keeps of them. */
  function PageShells(ps: seq<Page>): (r: seq<(Uid, int)>)
    ensures |r| == |ps| && forall k :: 0 <= k < |ps| ==> r[k] == (ps[k].uid, ps[k].version)
  {
    seq(|ps|, k requires 0 <= k < |ps| => (ps[k].uid, ps[k].version))
  }

  /** The uid, version and width of each line flow, in order. */
  function LineShells(ls: seq<Line>): (r: seq<(Uid, int, nat)>)
    ensures |r| == |ls| && forall k :: 0 <= k < |ls| ==> r[k] == (ls[k].uid, ls[k].version, ls[k].width)
  {
    seq(|ls|, k requires 0 <= k < |ls| => (ls[k].uid, ls[k].version, ls[k].width))
  }

  lemma PageShellsSame(a: seq<Page>, b: seq<Page>)
    requires |a| == |b| && forall k :: 0 <= k < |a| ==> SamePage(a[k], b[k])
    ensures PageShells(a) == PageShells(b)
  {
  }

  lemma LineShellsSame(a: seq<Line>, b: seq<Line>)
    requires |a| == |b| && forall k :: 0 <= k < |a| ==> SameLine(a[k], b[k])
    ensures LineShells(a) == LineShells(b)
  {
  }

  /** Dropping page flow `n` drops its shell. */
  lemma PageShellsDrop(ps: seq<Page>, n: nat)
    requires n < |ps|
    ensures PageShells(ps[..n] + ps[n + 1..]) == PageShells(ps)[..n] + PageShells(ps)[n + 1..]
  {
  }

  /** Dropping line flow `n` drops its shell. */
  lemma LineShellsDrop(ls: seq<Line>, n: nat)
    requires n < |ls|
    ensures LineShells(ls[..n] + ls[n + 1..]) == LineShells(ls)[..n] + LineShells(ls)[n + 1..]
  {
  }

  /**
   * One join of the Doc-level update loop: block `m` of page flow `n`
   * is joined into the block before it (which is then bumped to version `v` with all its descendants) and deleted from its
   * page flow. The block before it is the previous one of the same page flow,
   * or, when `m` is 0, the last one of the page flow before.
   */
  function JoinBlockIntoPrev(ps: seq<Page>, n: nat, m: nat, v: int): (r: seq<Page>)
    requires n < |ps| && m < |ps[n].blocks|
    requires m > 0 || (n > 0 && ps[n - 1].blocks != [])
    ensures |r| == |ps|
    ensures forall k :: 0 <= k < |r| ==> SamePage(r[k], ps[k])
    ensures |r[n].blocks| == |ps[n].blocks| - 1
    ensures forall k :: 0 <= k < |r| && k != n && k != n - 1 ==> r[k] == ps[k]
    ensures m > 0 && n > 0 ==> r[n - 1] == ps[n - 1]
    ensures n > 0 && ps[n - 1].blocks != [] ==> r[n - 1].blocks != []
  {
    var cs := ps[n].blocks;
    if m > 0 then
      var j := BumpBlock(JoinBlocks(cs[m - 1], cs[m]), v);
      ps[n := ps[n].(blocks := cs[..m - 1] + [j] + cs[m + 1..])]
    else
      var pc := ps[n - 1].blocks;
      var j := BumpBlock(JoinBlocks(pc[|pc| - 1], cs[0]), v);
      ps[n - 1 := ps[n - 1].(blocks := pc[..|pc| - 1] + [j])][n := ps[n].(blocks := cs[1..])]
  }

  /** Where blocks `m-1` and `m` of page flow `n` sit among the logical children. */
  lemma BlocksFlatPosition(ps: seq<Page>, n: nat, m: nat)
    requires n < |ps| && 0 < m < |ps[n].blocks|
    ensures var f := FlatIndex(ps, n, m);
      var fs := PagesBlocks(ps);
      0 < f < |fs| && fs[f] == ps[n].blocks[m] && fs[f - 1] == ps[n].blocks[m - 1]
  {
    PagesBlocksSplit(ps, n);
    var a := PagesBlocks(ps[..n]);
    assert (a + ps[n].blocks + PagesBlocks(ps[n + 1..]))[|a| + m] == ps[n].blocks[m];
    assert (a + ps[n].blocks + PagesBlocks(ps[n + 1..]))[|a| + m - 1] == ps[n].blocks[m - 1];
  }

  /** Replacing blocks `m-1` and `m` of page flow `n` by `j`, seen on the logical children. */
  lemma ReplaceBlocksFlatInside(ps: seq<Page>, n: nat, m: nat, j: Block)
    requires n < |ps| && 0 < m < |ps[n].blocks|
    ensures var f := |PagesBlocks(ps[..n])| + m;
      var fs := PagesBlocks(ps);
      var cs := ps[n].blocks;
      0 < f < |fs| && PagesBlocks(ps[n := ps[n].(blocks := cs[..m - 1] + [j] + cs[m + 1..])]) == fs[..f - 1] + [j] + fs[f + 1..]
  {
    var cs := ps[n].blocks;
    var x := ps[n].(blocks := cs[..m - 1] + [j] + cs[m + 1..]);
    PagesBlocksUpdate(ps, n, x);
    PagesBlocksSplit(ps, n);
    ReplacePairInside(PagesBlocks(ps), PagesBlocks(ps[n := x]), PagesBlocks(ps[..n]), cs, PagesBlocks(ps[n + 1..]), m, j);
  }

  /** Replacing page flow `n` leaves the flat index of its children alone. */
  lemma FlatIndexUpdate(ps: seq<Page>, n: nat, m: nat, x: Page)
    requires n < |ps|
    ensures FlatIndex(ps[n := x], n, m) == FlatIndex(ps, n, m)
  {
    assert ps[n := x][..n] == ps[..n];
  }

  lemma JoinBlockIntoPrevFlatInside(ps: seq<Page>, n: nat, m: nat, v: int)
    requires n < |ps| && 0 < m < |ps[n].blocks|
    ensures var f := FlatIndex(ps, n, m);
      var fs := PagesBlocks(ps);
      && 0 < f < |fs|
      && fs[f] == ps[n].blocks[m] && fs[f - 1] == ps[n].blocks[m - 1]
      && PagesBlocks(JoinBlockIntoPrev(ps, n, m, v)) == fs[..f - 1] + [BumpBlock(JoinBlocks(fs[f - 1], fs[f]), v)] + fs[f + 1..]
      && FlatIndex(JoinBlockIntoPrev(ps, n, m, v), n, m) == f
  {
    var cs := ps[n].blocks;
    var j := BumpBlock(JoinBlocks(cs[m - 1], cs[m]), v);
    BlocksFlatPosition(ps, n, m);
    ReplaceBlocksFlatInside(ps, n, m, j);
    FlatIndexUpdate(ps, n, m, ps[n].(blocks := cs[..m - 1] + [j] + cs[m + 1..]));
  }

  /** Where the last child of page flow `n-1` and the first of page flow `n` sit among the logical children. */
  lemma BlocksFlatPositionAcross(ps: seq<Page>, n: nat)
    requires 0 < n < |ps| && ps[n].blocks != [] && ps[n - 1].blocks != []
    ensures var f := |PagesBlocks(ps[..n])|;
      var fs := PagesBlocks(ps);
      var cs, pc := ps[n].blocks, ps[n - 1].blocks;
      0 < f < |fs| && fs[f] == cs[0] && fs[f - 1] == pc[|pc| - 1]
  {
    var cs, pc := ps[n].blocks, ps[n - 1].blocks;
    var a := PagesBlocks(ps[..n - 1]);
    PagesBlocksSnoc(ps, n - 1);
    PagesBlocksSplit(ps, n);
    assert (a + pc + cs + PagesBlocks(ps[n + 1..]))[|a| + |pc|] == cs[0];
    assert (a + pc + cs + PagesBlocks(ps[n + 1..]))[|a| + |pc| - 1] == pc[|pc| - 1];
  }

  /** Replacing the last child of page flow `n-1` and the first of page flow `n` by `j`, seen on the logical children. */
  lemma ReplaceBlocksFlatAcross(ps: seq<Page>, n: nat, j: Block)
    requires 0 < n < |ps| && ps[n].blocks != [] && ps[n - 1].blocks != []
    ensures var f := |PagesBlocks(ps[..n])|;
      var fs := PagesBlocks(ps);
      var cs, pc := ps[n].blocks, ps[n - 1].blocks;
      var r := ps[n - 1 := ps[n - 1].(blocks := pc[..|pc| - 1] + [j])][n := ps[n].(blocks := cs[1..])];
      && 0 < f < |fs|
      && PagesBlocks(r) == fs[..f - 1] + [j] + fs[f + 1..]
      && |PagesBlocks(r[..n])| == f
  {
    var cs, pc := ps[n].blocks, ps[n - 1].blocks;
    var x, y := ps[n - 1].(blocks := pc[..|pc| - 1] + [j]), ps[n].(blocks := cs[1..]);
    var r := ps[n - 1 := x][n := y];
    PagesBlocksUpdate2(ps, n, x, y);
    PagesBlocksSnoc(ps, n - 1);
    PagesBlocksSplit(ps, n);
    ReplacePairAcross(PagesBlocks(ps), PagesBlocks(r), PagesBlocks(ps[..n - 1]), pc, cs, PagesBlocks(ps[n + 1..]), j);
  }

  lemma JoinBlockIntoPrevFlatAcross(ps: seq<Page>, n: nat, v: int)
    requires 0 < n < |ps| && ps[n].blocks != [] && ps[n - 1].blocks != []
    ensures var f := FlatIndex(ps, n, 0);
      var fs := PagesBlocks(ps);
      var pc := ps[n - 1].blocks;
      && 0 < f < |fs|
      && fs[f] == ps[n].blocks[0] && fs[f - 1] == pc[|pc| - 1]
      && PagesBlocks(JoinBlockIntoPrev(ps, n, 0, v)) == fs[..f - 1] + [BumpBlock(JoinBlocks(fs[f - 1], fs[f]), v)] + fs[f + 1..]
      && FlatIndex(JoinBlockIntoPrev(ps, n, 0, v), n, 0) == f
  {
    var cs, pc := ps[n].blocks, ps[n - 1].blocks;
    BlocksFlatPositionAcross(ps, n);
    ReplaceBlocksFlatAcross(ps, n, BumpBlock(JoinBlocks(pc[|pc| - 1], cs[0]), v));
  }

  /**
   * On the Doc box's logical children a join step replaces the block at
   * the current position and the one before it by their join; the current
   * position, now holding the block after, keeps its flat index.
   */
  lemma JoinBlockIntoPrevFlat(ps: seq<Page>, n: nat, m: nat, v: int)
    requires n < |ps| && m < |ps[n].blocks|
    requires m > 0 || (n > 0 && ps[n - 1].blocks != [])
    ensures var f := FlatIndex(ps, n, m);
      var fs := PagesBlocks(ps);
      && 0 < f < |fs|
      && fs[f] == ps[n].blocks[m]
      && fs[f - 1] == (if m > 0 then ps[n].blocks[m - 1] else ps[n - 1].blocks[|ps[n - 1].blocks| - 1])
      && PagesBlocks(JoinBlockIntoPrev(ps, n, m, v)) == fs[..f - 1] + [BumpBlock(JoinBlocks(fs[f - 1], fs[f]), v)] + fs[f + 1..]
      && FlatIndex(JoinBlockIntoPrev(ps, n, m, v), n, m) == f
  {
    if m > 0 {
      JoinBlockIntoPrevFlatInside(ps, n, m, v);
    } else {
      JoinBlockIntoPrevFlatAcross(ps, n, v);
    }
  }

  /** Dropping an empty page flow changes neither the logical children nor the page flows before it. */
  lemma DropEmptyPage(ps: seq<Page>, n: nat)
    requires n < |ps| && ps[n].blocks == []
    ensures PagesBlocks(ps[..n] + ps[n + 1..]) == PagesBlocks(ps)
    ensures (ps[..n] + ps[n + 1..])[..n] == ps[..n]
  {
    PagesBlocksSplit(ps, n);
    PagesBlocksAppend(ps[..n], ps[n + 1..]);
    assert (ps[..n] + ps[n + 1..])[..n] == ps[..n];
  }

  // ---------------------------------------------------------------- the Block-level step

  /** Where child `m` of line flow `n` sits among the Block box's logical children. */
  function LineFlatIndex(ls: seq<Line>, n: nat, m: nat): nat
    requires n <= |ls|
  {
    |LinesInlines(ls[..n])| + m
  }

  /**
   * One join of the Block-level update loop: inline `m` of line flow `n`
   * is joined into the inline before it and deleted from its
   * line flow. The inline before it is the previous one of the same line flow,
   * or, when `m` is 0, the last one of the line flow before.
   */
  function JoinInlineIntoPrev(ls: seq<Line>, n: nat, m: nat): (r: seq<Line>)
    requires n < |ls| && m < |ls[n].inlines|
    requires m > 0 || (n > 0 && ls[n - 1].inlines != [])
    ensures |r| == |ls|
    ensures forall k :: 0 <= k < |r| ==> SameLine(r[k], ls[k])
    ensures |r[n].inlines| == |ls[n].inlines| - 1
    ensures forall k :: 0 <= k < |r| && k != n && k != n - 1 ==> r[k] == ls[k]
    ensures m > 0 && n > 0 ==> r[n - 1] == ls[n - 1]
    ensures n > 0 && ls[n - 1].inlines != [] ==> r[n - 1].inlines != []
  {
    var cs := ls[n].inlines;
    if m > 0 then
      var j := JoinInlines(cs[m - 1], cs[m]);
      ls[n := ls[n].(inlines := cs[..m - 1] + [j] + cs[m + 1..])]
    else
      var pc := ls[n - 1].inlines;
      var j := JoinInlines(pc[|pc| - 1], cs[0]);
      ls[n - 1 := ls[n - 1].(inlines := pc[..|pc| - 1] + [j])][n := ls[n].(inlines := cs[1..])]
  }

  /** Where inlines `m-1` and `m` of line flow `n` sit among the logical children. */
  lemma InlinesFlatPosition(ls: seq<Line>, n: nat, m: nat)
    requires n < |ls| && 0 < m < |ls[n].inlines|
    ensures var f := LineFlatIndex(ls, n, m);
      var fs := LinesInlines(ls);
      0 < f < |fs| && fs[f] == ls[n].inlines[m] && fs[f - 1] == ls[n].inlines[m - 1]
  {
    LinesInlinesSplit(ls, n);
    var a := LinesInlines(ls[..n]);
    assert (a + ls[n].inlines + LinesInlines(ls[n + 1..]))[|a| + m] == ls[n].inlines[m];
    assert (a + ls[n].inlines + LinesInlines(ls[n + 1..]))[|a| + m - 1] == ls[n].inlines[m - 1];
  }

  /** Replacing inlines `m-1` and `m` of line flow `n` by `j`, seen on the logical children. */
  lemma ReplaceInlinesFlatInside(ls: seq<Line>, n: nat, m: nat, j: Inline)
    requires n < |ls| && 0 < m < |ls[n].inlines|
    ensures var f := |LinesInlines(ls[..n])| + m;
      var fs := LinesInlines(ls);
      var cs := ls[n].inlines;
      0 < f < |fs| && LinesInlines(ls[n := ls[n].(inlines := cs[..m - 1] + [j] + cs[m + 1..])]) == fs[..f - 1] + [j] + fs[f + 1..]
  {
    var cs := ls[n].inlines;
    var x := ls[n].(inlines := cs[..m - 1] + [j] + cs[m + 1..]);
    LinesInlinesUpdate(ls, n, x);
    LinesInlinesSplit(ls, n);
    ReplacePairInside(LinesInlines(ls), LinesInlines(ls[n := x]), LinesInlines(ls[..n]), cs, LinesInlines(ls[n + 1..]), m, j);
  }

  /** Replacing line flow `n` leaves the flat index of its children alone. */
  lemma LineFlatIndexUpdate(ls: seq<Line>, n: nat, m: nat, x: Line)
    requires n < |ls|
    ensures LineFlatIndex(ls[n := x], n, m) == LineFlatIndex(ls, n, m)
  {
    assert ls[n := x][..n] == ls[..n];
  }

  lemma JoinInlineIntoPrevFlatInside(ls: seq<Line>, n: nat, m: nat)
    requires n < |ls| && 0 < m < |ls[n].inlines|
    ensures var f := LineFlatIndex(ls, n, m);
      var fs := LinesInlines(ls);
      && 0 < f < |fs|
      && fs[f] == ls[n].inlines[m] && fs[f - 1] == ls[n].inlines[m - 1]
      && LinesInlines(JoinInlineIntoPrev(ls, n, m)) == fs[..f - 1] + [JoinInlines(fs[f - 1], fs[f])] + fs[f + 1..]
      && LineFlatIndex(JoinInlineIntoPrev(ls, n, m), n, m) == f
  {
    var cs := ls[n].inlines;
    var j := JoinInlines(cs[m - 1], cs[m]);
    InlinesFlatPosition(ls, n, m);
    ReplaceInlinesFlatInside(ls, n, m, j);
    LineFlatIndexUpdate(ls, n, m, ls[n].(inlines := cs[..m - 1] + [j] + cs[m + 1..]));
  }

  /** Where the last child of line flow `n-1` and the first of line flow `n` sit among the logical children. */
  lemma InlinesFlatPositionAcross(ls: seq<Line>, n: nat)
    requires 0 < n < |ls| && ls[n].inlines != [] && ls[n - 1].inlines != []
    ensures var f := |LinesInlines(ls[..n])|;
      var fs := LinesInlines(ls);
      var cs, pc := ls[n].inlines, ls[n - 1].inlines;
      0 < f < |fs| && fs[f] == cs[0] && fs[f - 1] == pc[|pc| - 1]
  {
    var cs, pc := ls[n].inlines, ls[n - 1].inlines;
    var a := LinesInlines(ls[..n - 1]);
    LinesInlinesSnoc(ls, n - 1);
    LinesInlinesSplit(ls, n);
    assert (a + pc + cs + LinesInlines(ls[n + 1..]))[|a| + |pc|] == cs[0];
    assert (a + pc + cs + LinesInlines(ls[n + 1..]))[|a| + |pc| - 1] == pc[|pc| - 1];
  }

  /** Replacing the last child of line flow `n-1` and the first of line flow `n` by `j`, seen on the logical children. */
  lemma ReplaceInlinesFlatAcross(ls: seq<Line>, n: nat, j: Inline)
    requires 0 < n < |ls| && ls[n].inlines != [] && ls[n - 1].inlines != []
    ensures var f := |LinesInlines(ls[..n])|;
      var fs := LinesInlines(ls);
      var cs, pc := ls[n].inlines, ls[n - 1].inlines;
      var r := ls[n - 1 := ls[n - 1].(inlines := pc[..|pc| - 1] + [j])][n := ls[n].(inlines := cs[1..])];
      && 0 < f < |fs|
      && LinesInlines(r) == fs[..f - 1] + [j] + fs[f + 1..]
      && |LinesInlines(r[..n])| == f
  {
    var cs, pc := ls[n].inlines, ls[n - 1].inlines;
    var x, y := ls[n - 1].(inlines := pc[..|pc| - 1] + [j]), ls[n].(inlines := cs[1..]);
    var r := ls[n - 1 := x][n := y];
    LinesInlinesUpdate2(ls, n, x, y);
    LinesInlinesSnoc(ls, n - 1);
    LinesInlinesSplit(ls, n);
    ReplacePairAcross(LinesInlines(ls), LinesInlines(r), LinesInlines(ls[..n - 1]), pc, cs, LinesInlines(ls[n + 1..]), j);
  }

  lemma JoinInlineIntoPrevFlatAcross(ls: seq<Line>, n: nat)
    requires 0 < n < |ls| && ls[n].inlines != [] && ls[n - 1].inlines != []
    ensures var f := LineFlatIndex(ls, n, 0);
      var fs := LinesInlines(ls);
      var pc := ls[n - 1].inlines;
      && 0 < f < |fs|
      && fs[f] == ls[n].inlines[0] && fs[f - 1] == pc[|pc| - 1]
      && LinesInlines(JoinInlineIntoPrev(ls, n, 0)) == fs[..f - 1] + [JoinInlines(fs[f - 1], fs[f])] + fs[f + 1..]
      && LineFlatIndex(JoinInlineIntoPrev(ls, n, 0), n, 0) == f
  {
    var cs, pc := ls[n].inlines, ls[n - 1].inlines;
    InlinesFlatPositionAcross(ls, n);
    ReplaceInlinesFlatAcross(ls, n, JoinInlines(pc[|pc| - 1], cs[0]));
  }

  /**
   * On the Block box's logical children a join step replaces the inline at
   * the current position and the one before it by their join; the current
   * position, now holding the inline after, keeps its flat index.
   */
  lemma JoinInlineIntoPrevFlat(ls: seq<Line>, n: nat, m: nat)
    requires n < |ls| && m < |ls[n].inlines|
    requires m > 0 || (n > 0 && ls[n - 1].inlines != [])
    ensures var f := LineFlatIndex(ls, n, m);
      var fs := LinesInlines(ls);
      && 0 < f < |fs|
      && fs[f] == ls[n].inlines[m]
      && fs[f - 1] == (if m > 0 then ls[n].inlines[m - 1] else ls[n - 1].inlines[|ls[n - 1].inlines| - 1])
      && LinesInlines(JoinInlineIntoPrev(ls, n, m)) == fs[..f - 1] + [JoinInlines(fs[f - 1], fs[f])] + fs[f + 1..]
      && LineFlatIndex(JoinInlineIntoPrev(ls, n, m), n, m) == f
  {
    if m > 0 {
      JoinInlineIntoPrevFlatInside(ls, n, m);
    } else {
      JoinInlineIntoPrevFlatAcross(ls, n);
    }
  }

  /** Dropping an empty line flow changes neither the logical children nor the line flows before it. */
  lemma DropEmptyLine(ls: seq<Line>, n: nat)
    requires n < |ls| && ls[n].inlines == []
    ensures LinesInlines(ls[..n] + ls[n + 1..]) == LinesInlines(ls)
    ensures (ls[..n] + ls[n + 1..])[..n] == ls[..n]
  {
    LinesInlinesSplit(ls, n);
    LinesInlinesAppend(ls[..n], ls[n + 1..]);
    assert (ls[..n] + ls[n + 1..])[..n] == ls[..n];
  }
  // ---------------------------------------------------------------- the join passes, on flat lists

  /** Every version in the block and under it is `v`. */
  predicate AllVersions(b: Block, v: int)
  {
    && b.version == v
    && (forall l :: 0 <= l < |b.lines| ==> b.lines[l].version == v)
    && (forall l, i :: 0 <= l < |b.lines| && 0 <= i < |b.lines[l].inlines| ==> b.lines[l].inlines[i].version == v)
    && (forall l, i, a :: 0 <= l < |b.lines| && 0 <= i < |b.lines[l].inlines| && 0 <= a < |b.lines[l].inlines[i].atomics| ==>
          b.lines[l].inlines[i].atomics[a].version == v)
  }

  /**
   * One step of the Doc-level join pass: block `x` comes after the blocks
   * `r` already kept; when it mirrors the same render node as the last of
   * them it is joined into that one, which is then bumped to version `v`.
   */
  function PushBlock(r: seq<Block>, x: Block, v: int): (r': seq<Block>)
    ensures r' != [] && r'[|r'| - 1].id == x.id
    ensures |r'| == |r| || |r'| == |r| + 1
  {
    if r != [] && r[|r| - 1].id == x.id then r[..|r| - 1] + [BumpBlock(JoinBlocks(r[|r| - 1], x), v)]
    else r + [x]
  }

  /** A step keeps the content: that of the kept blocks, then that of `x`. */
  lemma PushBlockText(r: seq<Block>, x: Block, v: int)
    ensures BlocksText(PushBlock(r, x, v)) == BlocksText(r) + BlockText(x)
  {
    if r != [] && r[|r| - 1].id == x.id {
      var q, y := r[..|r| - 1], r[|r| - 1];
      assert r == q + [y];
      BlocksTextSnoc(q, y);
      JoinBlocksText(y, x);
      BumpBlockText(JoinBlocks(y, x), v);
      BlocksTextSnoc(q, BumpBlock(JoinBlocks(y, x), v));
    } else {
      BlocksTextSnoc(r, x);
    }
  }

  /**
   * What the Doc-level join pass makes of the flat list of blocks, read left
   * to right, one PushBlock step per block.
   */
  function JoinBlockRuns(s: seq<Block>, v: int): (r: seq<Block>)
    ensures |r| <= |s|
    ensures s != [] ==> r != []
  {
    if s == [] then [] else PushBlock(JoinBlockRuns(s[..|s| - 1], v), s[|s| - 1], v)
  }

  lemma JoinBlockRunsSnoc(s: seq<Block>, x: Block, v: int)
    ensures JoinBlockRuns(s + [x], v) == PushBlock(JoinBlockRuns(s, v), x, v)
  {
    assert (s + [x])[..|s|] == s;
  }

  /** The join pass keeps the content of the blocks, in order. */
  lemma {:induction false} JoinBlockRunsText(s: seq<Block>, v: int)
    ensures BlocksText(JoinBlockRuns(s, v)) == BlocksText(s)
  {
    if s != [] {
      var p, x := s[..|s| - 1], s[|s| - 1];
      assert s == p + [x];
      JoinBlockRunsSnoc(p, x, v);
      JoinBlockRunsText(p, v);
      PushBlockText(JoinBlockRuns(p, v), x, v);
      BlocksTextSnoc(p, x);
    }
  }

  /** A step never leaves two neighbours mirroring the same render node. */
  lemma PushBlockNoAdjacent(r: seq<Block>, x: Block, v: int)
    requires NoAdjacentSameBlockId(r)
    ensures NoAdjacentSameBlockId(PushBlock(r, x, v))
  {
    var r' := PushBlock(r, x, v);
    if r != [] && r[|r| - 1].id == x.id {
      assert r' == r[..|r| - 1] + [BumpBlock(JoinBlocks(r[|r| - 1], x), v)];
      forall k | 0 < k < |r'|
        ensures r'[k - 1].id != r'[k].id
      {
        assert r'[k - 1] == r[k - 1];
        if k < |r'| - 1 { assert r'[k] == r[k]; }
      }
    } else {
      assert r' == r + [x];
      forall k | 0 < k < |r'|
        ensures r'[k - 1].id != r'[k].id
      {
        assert r'[k - 1] == r[k - 1];
        if k < |r| { assert r'[k] == r[k]; }
      }
    }
  }

  /** After the join pass no two neighbouring blocks mirror the same render node. */
  lemma {:induction false} JoinBlockRunsNoAdjacent(s: seq<Block>, v: int)
    ensures NoAdjacentSameBlockId(JoinBlockRuns(s, v))
  {
    if s != [] {
      var p, x := s[..|s| - 1], s[|s| - 1];
      assert s == p + [x];
      JoinBlockRunsSnoc(p, x, v);
      JoinBlockRunsNoAdjacent(p, v);
      PushBlockNoAdjacent(JoinBlockRuns(p, v), x, v);
    }
  }

  /**
   * Every block the join pass yields is one of the input blocks, untouched,
   * or a joined block whose versions, down to its atomic boxes, are all `v`.
   */
  lemma {:induction false} JoinBlockRunsVersions(s: seq<Block>, v: int)
    ensures forall k :: 0 <= k < |JoinBlockRuns(s, v)| ==>
      JoinBlockRuns(s, v)[k] in s || AllVersions(JoinBlockRuns(s, v)[k], v)
  {
    if s != [] {
      var p, x := s[..|s| - 1], s[|s| - 1];
      assert s == p + [x];
      JoinBlockRunsSnoc(p, x, v);
      JoinBlockRunsVersions(p, v);
    }
  }

  /**
   * One step of the Block-level join pass: inline `x` is joined into the
   * last inline kept when both mirror the same render node. Versions are
   * not touched.
   */
  function PushInline(r: seq<Inline>, x: Inline): (r': seq<Inline>)
    ensures r' != [] && r'[|r'| - 1].id == x.id
    ensures |r'| == |r| || |r'| == |r| + 1
  {
    if r != [] && r[|r| - 1].id == x.id then r[..|r| - 1] + [JoinInlines(r[|r| - 1], x)]
    else r + [x]
  }

  lemma InlinesTextSnoc(bid: Id, p: seq<Inline>, x: Inline)
    ensures InlinesText(bid, p + [x]) == InlinesText(bid, p) + InlinesText(bid, [x])
  {
    InlinesTextAppend(bid, p, [x]);
  }

  lemma PushInlineText(bid: Id, r: seq<Inline>, x: Inline)
    ensures InlinesText(bid, PushInline(r, x)) == InlinesText(bid, r) + InlinesText(bid, [x])
  {
    if r != [] && r[|r| - 1].id == x.id {
      var q, y := r[..|r| - 1], r[|r| - 1];
      assert r == q + [y];
      InlinesTextSnoc(bid, q, y);
      JoinInlinesText(bid, y, x);
      InlinesTextSnoc(bid, q, JoinInlines(y, x));
    } else {
      InlinesTextSnoc(bid, r, x);
    }
  }

  /** The Block-level join pass on the flat list of inlines. */
  function JoinInlineRuns(s: seq<Inline>): (r: seq<Inline>)
    ensures |r| <= |s|
    ensures s != [] ==> r != []
  {
    if s == [] then [] else PushInline(JoinInlineRuns(s[..|s| - 1]), s[|s| - 1])
  }

  lemma JoinInlineRunsSnoc(s: seq<Inline>, x: Inline)
    ensures JoinInlineRuns(s + [x]) == PushInline(JoinInlineRuns(s), x)
  {
    assert (s + [x])[..|s|] == s;
  }

  /** The Block-level join pass keeps the block's content, in order. */
  lemma {:induction false} JoinInlineRunsText(bid: Id, s: seq<Inline>)
    ensures InlinesText(bid, JoinInlineRuns(s)) == InlinesText(bid, s)
  {
    if s != [] {
      var p, x := s[..|s| - 1], s[|s| - 1];
      assert s == p + [x];
      JoinInlineRunsSnoc(p, x);
      JoinInlineRunsText(bid, p);
      PushInlineText(bid, JoinInlineRuns(p), x);
      InlinesTextSnoc(bid, p, x);
    }
  }

  /** A step never leaves two neighbours mirroring the same render node. */
  lemma PushInlineNoAdjacent(r: seq<Inline>, x: Inline)
    requires NoAdjacentSameInlineId(r)
    ensures NoAdjacentSameInlineId(PushInline(r, x))
  {
    var r' := PushInline(r, x);
    if r != [] && r[|r| - 1].id == x.id {
      assert r' == r[..|r| - 1] + [JoinInlines(r[|r| - 1], x)];
      forall k | 0 < k < |r'|
        ensures r'[k - 1].id != r'[k].id
      {
        assert r'[k - 1] == r[k - 1];
        if k < |r'| - 1 { assert r'[k] == r[k]; }
      }
    } else {
      assert r' == r + [x];
      forall k | 0 < k < |r'|
        ensures r'[k - 1].id != r'[k].id
      {
        assert r'[k - 1] == r[k - 1];
        if k < |r| { assert r'[k] == r[k]; }
      }
    }
  }

  /** After the Block-level pass no two neighbouring inlines mirror the same render node. */
  lemma {:induction false} JoinInlineRunsNoAdjacent(s: seq<Inline>)
    ensures NoAdjacentSameInlineId(JoinInlineRuns(s))
  {
    if s != [] {
      var p, x := s[..|s| - 1], s[|s| - 1];
      assert s == p + [x];
      JoinInlineRunsSnoc(p, x);
      JoinInlineRunsNoAdjacent(p);
      PushInlineNoAdjacent(JoinInlineRuns(p), x);
    }
  }

  /**
   * One step of the Inline-level join pass: atomic box `x` has its glyphs
   * appended to the last atomic box kept when both mirror the same render node.
   */
  function PushAtomic(r: seq<Atomic>, x: Atomic): (r': seq<Atomic>)
    ensures r' != [] && r'[|r'| - 1].id == x.id
    ensures |r'| == |r| || |r'| == |r| + 1
  {
    if r != [] && r[|r| - 1].id == x.id then r[..|r| - 1] + [JoinAtomics(r[|r| - 1], x)]
    else r + [x]
  }

  lemma AtomsTextSnoc(bid: Id, iid: Id, p: seq<Atomic>, x: Atomic)
    ensures AtomsText(bid, iid, p + [x]) == AtomsText(bid, iid, p) + AtomicText(bid, iid, x)
  {
    AtomsText3(bid, iid, p, x, []);
    assert p + [x] + [] == p + [x];
  }

  lemma PushAtomicText(bid: Id, iid: Id, r: seq<Atomic>, x: Atomic)
    ensures AtomsText(bid, iid, PushAtomic(r, x)) == AtomsText(bid, iid, r) + AtomicText(bid, iid, x)
  {
    if r != [] && r[|r| - 1].id == x.id {
      var q, y := r[..|r| - 1], r[|r| - 1];
      assert r == q + [y];
      AtomsTextSnoc(bid, iid, q, y);
      AtomicTextJoin(bid, iid, y, x);
      AtomsTextSnoc(bid, iid, q, JoinAtomics(y, x));
    } else {
      AtomsTextSnoc(bid, iid, r, x);
    }
  }

  /** The Inline-level join pass on an inline's atomic boxes. */
  function JoinAtomicRuns(s: seq<Atomic>): (r: seq<Atomic>)
    ensures |r| <= |s|
    ensures s != [] ==> r != []
  {
    if s == [] then [] else PushAtomic(JoinAtomicRuns(s[..|s| - 1]), s[|s| - 1])
  }

  lemma JoinAtomicRunsSnoc(s: seq<Atomic>, x: Atomic)
    ensures JoinAtomicRuns(s + [x]) == PushAtomic(JoinAtomicRuns(s), x)
  {
    assert (s + [x])[..|s|] == s;
  }

  /** The Inline-level join pass keeps the inline's content, in order. */
  lemma {:induction false} JoinAtomicRunsText(bid: Id, iid: Id, s: seq<Atomic>)
    ensures AtomsText(bid, iid, JoinAtomicRuns(s)) == AtomsText(bid, iid, s)
  {
    if s != [] {
      var p, x := s[..|s| - 1], s[|s| - 1];
      assert s == p + [x];
      JoinAtomicRunsSnoc(p, x);
      JoinAtomicRunsText(bid, iid, p);
      PushAtomicText(bid, iid, JoinAtomicRuns(p), x);
      AtomsTextSnoc(bid, iid, p, x);
    }
  }

  /** A step never leaves two neighbours mirroring the same render node. */
  lemma PushAtomicNoAdjacent(r: seq<Atomic>, x: Atomic)
    requires NoAdjacentSameAtomicId(r)
    ensures NoAdjacentSameAtomicId(PushAtomic(r, x))
  {
    var r' := PushAtomic(r, x);
    if r != [] && r[|r| - 1].id == x.id {
      assert r' == r[..|r| - 1] + [JoinAtomics(r[|r| - 1], x)];
      forall k | 0 < k < |r'|
        ensures r'[k - 1].id != r'[k].id
      {
        assert r'[k - 1] == r[k - 1];
        if k < |r'| - 1 { assert r'[k] == r[k]; }
      }
    } else {
      assert r' == r + [x];
      forall k | 0 < k < |r'|
        ensures r'[k - 1].id != r'[k].id
      {
        assert r'[k - 1] == r[k - 1];
        if k < |r| { assert r'[k] == r[k]; }
      }
    }
  }

  /** After the Inline-level pass no two neighbouring atomic boxes mirror the same render node. */
  lemma {:induction false} JoinAtomicRunsNoAdjacent(s: seq<Atomic>)
    ensures NoAdjacentSameAtomicId(JoinAtomicRuns(s))
  {
    if s != [] {
      var p, x := s[..|s| - 1], s[|s| - 1];
      assert s == p + [x];
      JoinAtomicRunsSnoc(p, x);
      JoinAtomicRunsNoAdjacent(p);
      PushAtomicNoAdjacent(JoinAtomicRuns(p), x);
    }
  }

  // ---------------------------------------------------------------- the join passes and versions

  /** A step of the Inline-level pass gives no box a new stamp. */
  lemma PushAtomicStamps(r: seq<Atomic>, x: Atomic)
    ensures StampsFrom(AtomStamps(PushAtomic(r, x)), AtomStamps(r + [x]))
  {
    AtomStampsAppend(r, [x]);
    if r != [] && r[|r| - 1].id == x.id {
      var q, y := r[..|r| - 1], r[|r| - 1];
      assert r == q + [y];
      AtomStampsAppend(q, [y]);
      AtomStampsAppend(q, [JoinAtomics(y, x)]);
    }
  }

  /**
   * The Inline-level pass changes no version: every atomic box it yields
   * has the uid and version of an input atomic box.
   */
  lemma {:induction false} JoinAtomicRunsStamps(s: seq<Atomic>)
    ensures StampsFrom(AtomStamps(JoinAtomicRuns(s)), AtomStamps(s))
  {
    if s != [] {
      var p, x := s[..|s| - 1], s[|s| - 1];
      assert s == p + [x];
      JoinAtomicRunsSnoc(p, x);
      JoinAtomicRunsStamps(p);
      PushAtomicStamps(JoinAtomicRuns(p), x);
      AtomStampsAppend(JoinAtomicRuns(p), [x]);
      AtomStampsAppend(p, [x]);
    }
  }

  /** A step of the Block-level pass gives no box a new stamp. */
  lemma PushInlineStamps(r: seq<Inline>, x: Inline)
    ensures StampsFrom(InlineStamps(PushInline(r, x)), InlineStamps(r + [x]))
  {
    InlineStampsAppend(r, [x]);
    InlineStampsOne(x);
    if r != [] && r[|r| - 1].id == x.id {
      var q, y := r[..|r| - 1], r[|r| - 1];
      assert r == q + [y];
      InlineStampsAppend(q, [y]);
      InlineStampsOne(y);
      InlineStampsAppend(q, [JoinInlines(y, x)]);
      InlineStampsOne(JoinInlines(y, x));
      AtomStampsAppend(y.atomics, x.atomics);
    }
  }

  /**
   * The Block-level pass changes no version: every inline box it yields,
   * and every atomic box under one, has the uid and version of an input box.
   */
  lemma {:induction false} JoinInlineRunsStamps(s: seq<Inline>)
    ensures StampsFrom(InlineStamps(JoinInlineRuns(s)), InlineStamps(s))
  {
    if s != [] {
      var p, x := s[..|s| - 1], s[|s| - 1];
      assert s == p + [x];
      JoinInlineRunsSnoc(p, x);
      JoinInlineRunsStamps(p);
      PushInlineStamps(JoinInlineRuns(p), x);
      InlineStampsAppend(JoinInlineRuns(p), [x]);
      InlineStampsAppend(p, [x]);
    }
  }

  /** A step of the Doc-level pass keeps the stamps at version `v`. */
  lemma PushBlockStamps(r: seq<Block>, x: Block, v: int)
    ensures StampsKept(BlockStamps(PushBlock(r, x, v)), BlockStamps(r + [x]), v)
  {
    BlockStampsAppend(r, [x]);
    if r != [] && r[|r| - 1].id == x.id {
      var q, y := r[..|r| - 1], r[|r| - 1];
      assert r == q + [y];
      BlockStampsAppend(q, [y]);
      BlockStampsAppend(q, [BumpBlock(JoinBlocks(y, x), v)]);
      BumpBlockAt(JoinBlocks(y, x), v);
    }
  }

  /**
   * The Doc-level pass keeps the stamps at version `v`: every block it
   * yields, and every box under one, is bumped to `v` or has the uid and
   * version of an input box.
   */
  lemma {:induction false} JoinBlockRunsStamps(s: seq<Block>, v: int)
    ensures StampsKept(BlockStamps(JoinBlockRuns(s, v)), BlockStamps(s), v)
  {
    if s != [] {
      var p, x := s[..|s| - 1], s[|s| - 1];
      assert s == p + [x];
      JoinBlockRunsSnoc(p, x, v);
      JoinBlockRunsStamps(p, v);
      PushBlockStamps(JoinBlockRuns(p, v), x, v);
      BlockStampsAppend(JoinBlockRuns(p, v), [x]);
      BlockStampsAppend(p, [x]);
    }
  }
}
