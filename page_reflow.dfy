/**
 * `reflowPageFlowBox`: re-breaking the page flow boxes of the document box
 * so that the block boxes on each page fit the page's inner height.
 *
 * As for the line reflow, the page boxes are a sequence of values. The local
 * variables of the source (`currentPageFlowBox`, `n`, `cumulatedHeight`) are
 * held in a `PageCursor`, each nested loop is a method of its own, and the
 * source's `while (true)` loops are bounded by fuel.
 */
module PageReflow {

  import opened Results
  import opened Seqs
  import opened Boxes
  import opened Versions

  // ---------------------------------------------------------------- heights

  /** Block boxes stacked on a page take up the sum of their heights. */
  function BlocksHeight(bs: seq<Block>): nat
  {
    if bs == [] then 0 else BlockHeight(bs[0]) + BlocksHeight(bs[1..])
  }

  lemma {:induction false} LinesHeightAppend(a: seq<Line>, b: seq<Line>)
    ensures LinesHeight(a + b) == LinesHeight(a) + LinesHeight(b)
  {
    if a != [] {
      assert (a + b)[1..] == a[1..] + b;
      LinesHeightAppend(a[1..], b);
    } else {
      assert a + b == b;
    }
  }

  lemma {:induction false} BlocksHeightAppend(a: seq<Block>, b: seq<Block>)
    ensures BlocksHeight(a + b) == BlocksHeight(a) + BlocksHeight(b)
  {
    if a != [] {
      assert (a + b)[1..] == a[1..] + b;
      BlocksHeightAppend(a[1..], b);
    } else {
      assert a + b == b;
    }
  }

  /** One more line box on top of a prefix. */
  lemma LinesHeightSnoc(ls: seq<Line>, m: nat)
    requires m < |ls|
    ensures LinesHeight(ls[..m + 1]) == LinesHeight(ls[..m]) + LineHeight(ls[m])
  {
    assert ls[..m + 1] == ls[..m] + [ls[m]];
    LinesHeightAppend(ls[..m], [ls[m]]);
    assert [ls[m]][1..] == [];
  }

  /** One more block box on top of a prefix. */
  lemma BlocksHeightSnoc(bs: seq<Block>, n: nat)
    requires n < |bs|
    ensures BlocksHeight(bs[..n + 1]) == BlocksHeight(bs[..n]) + BlockHeight(bs[n])
  {
    assert bs[..n + 1] == bs[..n] + [bs[n]];
    BlocksHeightAppend(bs[..n], [bs[n]]);
    assert [bs[n]][1..] == [];
  }

  lemma {:induction false} StampAtomsHeight(ats: seq<Atomic>, v: int)
    ensures AtomsHeight(StampAtoms(ats, v)) == AtomsHeight(ats)
  {
    if ats != [] {
      assert StampAtoms(ats, v)[1..] == StampAtoms(ats[1..], v);
      StampAtomsHeight(ats[1..], v);
    }
  }

  lemma {:induction false} StampInlinesHeight(ins: seq<Inline>, v: int)
    ensures InlinesHeight(StampInlines(ins, v)) == InlinesHeight(ins)
  {
    if ins != [] {
      assert StampInlines(ins, v)[1..] == StampInlines(ins[1..], v);
      StampAtomsHeight(ins[0].atomics, v);
      StampInlinesHeight(ins[1..], v);
    }
  }

  /** Bumping the version of a line leaves its height alone. */
  lemma StampLineHeight(ls: seq<Line>, v: int, k: nat)
    requires k < |ls|
    ensures LineHeight(StampLines(ls, v)[k]) == LineHeight(ls[k])
  {
    StampInlinesHeight(ls[k].inlines, v);
  }

  lemma {:induction false} StampLinesHeight(ls: seq<Line>, v: int)
    ensures LinesHeight(StampLines(ls, v)) == LinesHeight(ls)
  {
    if ls != [] {
      assert StampLines(ls, v)[1..] == StampLines(ls[1..], v);
      StampLineHeight(ls, v, 0);
      StampLinesHeight(ls[1..], v);
    }
  }

  /** Bumping versions leaves a block's height alone. */
  lemma BumpBlockHeight(b: Block, v: int)
    ensures BlockHeight(BumpBlock(b, v)) == BlockHeight(b)
  {
    StampLinesHeight(b.lines, v);
  }

  /** Each of the block boxes bumped to version `v`, as the merge of a next page does. */
  function BumpBlocks(bs: seq<Block>, v: int): (r: seq<Block>)
    ensures |r| == |bs|
    ensures forall k :: 0 <= k < |bs| ==> r[k] == BumpBlock(bs[k], v)
  {
    seq(|bs|, k requires 0 <= k < |bs| => BumpBlock(bs[k], v))
  }

  /** Bumping the versions of block boxes leaves their content alone. */
  lemma {:induction false} BumpBlocksText(bs: seq<Block>, v: int)
    ensures BlocksText(BumpBlocks(bs, v)) == BlocksText(bs)
  {
    if bs != [] {
      assert BumpBlocks(bs, v)[1..] == BumpBlocks(bs[1..], v);
      BumpBlockText(bs[0], v);
      BumpBlocksText(bs[1..], v);
    }
  }

  /** Bumped block boxes and every box under them carry version `v`. */
  lemma {:induction false} BumpBlocksAt(bs: seq<Block>, v: int)
    ensures AllAt(BlockStamps(BumpBlocks(bs, v)), v)
  {
    if bs != [] {
      assert BumpBlocks(bs, v) == [BumpBlock(bs[0], v)] + BumpBlocks(bs[1..], v);
      BlockStampsAppend([BumpBlock(bs[0], v)], BumpBlocks(bs[1..], v));
      BumpBlockAt(bs[0], v);
      BumpBlocksAt(bs[1..], v);
    }
  }

  // ---------------------------------------------------------------- where to cleave a block

  /**
   * The `for` loop over the line boxes of block box `lines` (lines 493-520):
   * the first line box `m` with which `cumulatedHeight`, grown by the lines
   * before it, exceeds the page height `h`. Every longer prefix up to `m`
   * still fits. A block that overflows the page always has such a line.
   */
  method FindCleave(lines: seq<Line>, cumulatedHeight0: nat, h: nat) returns (m: nat)
    requires cumulatedHeight0 <= h < cumulatedHeight0 + LinesHeight(lines)
    ensures m < |lines|
    ensures cumulatedHeight0 + LinesHeight(lines[..m]) <= h
    ensures cumulatedHeight0 + LinesHeight(lines[..m]) + LineHeight(lines[m]) > h
    ensures forall k :: 0 <= k <= m ==> cumulatedHeight0 + LinesHeight(lines[..k]) <= h
  {
    m := 0;
    var cumulatedHeight := cumulatedHeight0;
    assert lines[..0] == [] && lines[..|lines|] == lines;
    while cumulatedHeight + LineHeight(lines[m]) <= h
      invariant m < |lines| && cumulatedHeight == cumulatedHeight0 + LinesHeight(lines[..m]) <= h
      invariant forall k :: 0 <= k <= m ==> cumulatedHeight0 + LinesHeight(lines[..k]) <= h
      decreases |lines| - m
    {
      LinesHeightSnoc(lines, m);
      cumulatedHeight := cumulatedHeight + LineHeight(lines[m]);
      m := m + 1;
    }
  }

  // ---------------------------------------------------------------- the page boxes' surgery

  /**
   * Cleaving page `cur` after block box `n`, and that block box before line
   * box `m` (lines 497-513): the page keeps the block boxes before `n` and
   * the first `m` lines of block `n` (which is dropped when that leaves it
   * without lines); a new page with uid `pageUid` follows it, holding a new
   * block box with uid `blockUid` made of the remaining lines, bumped to
   * version `v`, and then the block boxes after `n`. Both pages get version `v`.
   */
  function CutPage(pages: seq<Page>, cur: nat, n: nat, m: nat, pageUid: Uid, blockUid: Uid, v: int): seq<Page>
    requires cur < |pages| && n < |pages[cur].blocks| && m <= |pages[cur].blocks[n].lines|
  {
    var page := pages[cur];
    var b := page.blocks[n];
    var kept := page.blocks[..n] + (if m == 0 then [] else [b.(version := v, lines := b.lines[..m])]);
    var moved := BumpBlock(b.(uid := blockUid, lines := b.lines[m..]), v);
    pages[..cur] + [page.(version := v, blocks := kept), Page(pageUid, v, [moved] + page.blocks[n + 1..])] + pages[cur + 1..]
  }

  /**
   * Merging page `cur + 1` into page `cur` (lines 531-538): its block boxes,
   * bumped to version `v`, go to the end of page `cur`, and the page is gone.
   */
  function MergePage(pages: seq<Page>, cur: nat, v: int): seq<Page>
    requires cur + 1 < |pages|
  {
    pages[..cur] + [pages[cur].(blocks := pages[cur].blocks + BumpBlocks(pages[cur + 1].blocks, v))] + pages[cur + 2..]
  }

  // ---------------------------------------------------------------- versions

  /** Replacing the pages `mid0` in the middle of a run by `mid` keeps the stamps when `mid` keeps theirs. */
  lemma ReplacePagesStamps(r: seq<Page>, pages: seq<Page>, pre: seq<Page>, mid: seq<Page>, mid0: seq<Page>, post: seq<Page>, v: int)
    requires r == pre + mid + post && pages == pre + mid0 + post
    requires StampsKept(PageStamps(mid), PageStamps(mid0), v)
    ensures StampsKept(PageStamps(r), PageStamps(pages), v)
  {
    PageStampsAppend(pre + mid, post);
    PageStampsAppend(pre, mid);
    PageStampsAppend(pre + mid0, post);
    PageStampsAppend(pre, mid0);
    KeptAround(PageStamps(pre), PageStamps(mid), PageStamps(mid0), PageStamps(post), v);
  }

  /** The block box kept by a cleave keeps the stamps of its first `m` lines. */
  lemma FrontStamps(b: Block, m: nat, v: int)
    requires m <= |b.lines|
    ensures StampsKept(BlockStamps([b.(version := v, lines := b.lines[..m])]), BlockStamps([b]), v)
  {
    assert b.lines == b.lines[..m] + b.lines[m..];
    LineStampsAppend(b.lines[..m], b.lines[m..]);
    BlockStampsOne(b);
    BlockStampsOne(b.(version := v, lines := b.lines[..m]));
  }

  /** Cleaving block box `n` into a kept front `tail` and a bumped `moved` keeps the blocks' stamps. */
  lemma CutBlocksStamps(bs: seq<Block>, n: nat, tail: seq<Block>, moved: Block, v: int)
    requires n < |bs|
    requires StampsKept(BlockStamps(tail), BlockStamps([bs[n]]), v) && AllAt(BlockStamps([moved]), v)
    ensures StampsKept(BlockStamps(bs[..n] + tail) + BlockStamps([moved] + bs[n + 1..]), BlockStamps(bs), v)
  {
    var pre, post := bs[..n], bs[n + 1..];
    Around(bs, n);
    BlockStampsMid(pre, bs[n], post);
    BlockStampsOne(bs[n]);
    BlockStampsAppend(pre, tail);
    BlockStampsAppend([moved], post);
  }

  /** The two page boxes of a cleave keep the stamps of the page they come from. */
  lemma CutPairStamps(page: Page, n: nat, m: nat, pageUid: Uid, blockUid: Uid, v: int)
    requires n < |page.blocks| && m <= |page.blocks[n].lines|
    ensures var b := page.blocks[n];
      var kept := page.blocks[..n] + (if m == 0 then [] else [b.(version := v, lines := b.lines[..m])]);
      var moved := BumpBlock(b.(uid := blockUid, lines := b.lines[m..]), v);
      StampsKept(PageStamps([page.(version := v, blocks := kept), Page(pageUid, v, [moved] + page.blocks[n + 1..])]),
                 PageStamps([page]), v)
  {
    var b := page.blocks[n];
    var tail := if m == 0 then [] else [b.(version := v, lines := b.lines[..m])];
    var moved := BumpBlock(b.(uid := blockUid, lines := b.lines[m..]), v);
    var x := page.(version := v, blocks := page.blocks[..n] + tail);
    var y := Page(pageUid, v, [moved] + page.blocks[n + 1..]);
    if m != 0 {
      FrontStamps(b, m, v);
    }
    BumpBlockAt(b.(uid := blockUid, lines := b.lines[m..]), v);
    CutBlocksStamps(page.blocks, n, tail, moved, v);
    assert [x, y] == [x] + [y];
    PageStampsAppend([x], [y]);
    PageStampsOne(x);
    PageStampsOne(y);
    PageStampsOne(page);
  }

  /**
   * A cleave keeps the stamps: the two page boxes, the kept block box and
   * the new block box with everything under it carry version `v`, and every
   * other box is moved as it was.
   */
  lemma CutPageStamps(pages: seq<Page>, cur: nat, n: nat, m: nat, pageUid: Uid, blockUid: Uid, v: int)
    requires cur < |pages| && n < |pages[cur].blocks| && m <= |pages[cur].blocks[n].lines|
    ensures StampsKept(PageStamps(CutPage(pages, cur, n, m, pageUid, blockUid, v)), PageStamps(pages), v)
  {
    var page := pages[cur];
    var b := page.blocks[n];
    var kept := page.blocks[..n] + (if m == 0 then [] else [b.(version := v, lines := b.lines[..m])]);
    var moved := BumpBlock(b.(uid := blockUid, lines := b.lines[m..]), v);
    var x := page.(version := v, blocks := kept);
    var y := Page(pageUid, v, [moved] + page.blocks[n + 1..]);
    CutPairStamps(page, n, m, pageUid, blockUid, v);
    Around(pages, cur);
    ReplacePagesStamps(CutPage(pages, cur, n, m, pageUid, blockUid, v), pages, pages[..cur], [x, y], [page], pages[cur + 1..], v);
  }

  /** The merged page box keeps the stamps of the two pages it comes from. */
  lemma MergePairStamps(x: Page, y: Page, v: int)
    ensures StampsKept(PageStamps([x.(blocks := x.blocks + BumpBlocks(y.blocks, v))]), PageStamps([x, y]), v)
  {
    var merged := x.(blocks := x.blocks + BumpBlocks(y.blocks, v));
    assert [x, y] == [x] + [y];
    PageStampsAppend([x], [y]);
    PageStampsOne(x);
    PageStampsOne(y);
    PageStampsOne(merged);
    BlockStampsAppend(x.blocks, BumpBlocks(y.blocks, v));
    BumpBlocksAt(y.blocks, v);
  }

  /** A merge keeps the stamps: the moved-up block boxes and all under them carry version `v`. */
  lemma MergePageStamps(pages: seq<Page>, cur: nat, v: int)
    requires cur + 1 < |pages|
    ensures StampsKept(PageStamps(MergePage(pages, cur, v)), PageStamps(pages), v)
  {
    var x, y := pages[cur], pages[cur + 1];
    var merged := x.(blocks := x.blocks + BumpBlocks(y.blocks, v));
    assert MergePage(pages, cur, v) == pages[..cur] + [merged] + pages[cur + 2..];
    PairAround(pages, cur);
    MergePairStamps(x, y, v);
    ReplacePagesStamps(MergePage(pages, cur, v), pages, pages[..cur], [merged], [x, y], pages[cur + 2..], v);
  }

  /** The text of a run of pages, seen around page `p`. */
  lemma PagesTextAround(pages: seq<Page>, p: nat, mid: seq<Page>)
    requires p < |pages|
    ensures PagesText(pages) == PagesText(pages[..p]) + BlocksText(pages[p].blocks) + PagesText(pages[p + 1..])
    ensures PagesText(pages[..p] + mid + pages[p + 1..]) == PagesText(pages[..p]) + PagesText(mid) + PagesText(pages[p + 1..])
  {
    assert pages == pages[..p] + [pages[p]] + pages[p + 1..];
    PagesTextAppend(pages[..p] + [pages[p]], pages[p + 1..]);
    PagesTextAppend(pages[..p], [pages[p]]);
    PagesTextAppend(pages[..p] + mid, pages[p + 1..]);
    PagesTextAppend(pages[..p], mid);
  }

  lemma PagesTextPair(a: Page, b: Page)
    ensures PagesText([a]) == BlocksText(a.blocks)
    ensures PagesText([a, b]) == BlocksText(a.blocks) + BlocksText(b.blocks)
  {
    assert [a, b][1..] == [b] && [a][1..] == [] && [b][1..] == [];
  }

  lemma BlocksTextOne(b: Block)
    ensures BlocksText([b]) == BlockText(b)
  {
    assert [b][1..] == [];
  }

  /** Replacing block box `b` by `tail` and `moved`, whose text is its text, keeps the text. */
  lemma ReplaceBlockText(a: seq<Block>, b: Block, c: seq<Block>, tail: seq<Block>, moved: Block)
    requires BlocksText(tail) + BlockText(moved) == BlockText(b)
    ensures BlocksText(a + tail) + BlocksText([moved] + c) == BlocksText(a + [b] + c)
  {
    BlocksTextAppend(a, tail);
    BlocksTextAppend([moved], c);
    BlocksTextOne(moved);
    BlocksTextAppend(a + [b], c);
    BlocksTextAppend(a, [b]);
    BlocksTextOne(b);
    Regroup(BlocksText(a), BlocksText(tail), BlockText(moved), BlocksText(c));
  }

  /** The text of the first `m` lines of a block box, as a block box of its own or nothing. */
  lemma FrontText(b: Block, m: nat, v: int)
    requires m <= |b.lines|
    ensures BlocksText(if m == 0 then [] else [b.(version := v, lines := b.lines[..m])]) == LinesText(b.id, b.lines[..m])
  {
    if m == 0 {
      assert b.lines[..m] == [];
    } else {
      BlocksTextOne(b.(version := v, lines := b.lines[..m]));
    }
  }

  /** The block boxes of the two halves of a cleaved page hold the text the page held. */
  lemma CutHalvesText(bs: seq<Block>, n: nat, m: nat, blockUid: Uid, v: int)
    requires n < |bs| && m <= |bs[n].lines|
    ensures var b := bs[n];
      var kept := bs[..n] + (if m == 0 then [] else [b.(version := v, lines := b.lines[..m])]);
      var moved := BumpBlock(b.(uid := blockUid, lines := b.lines[m..]), v);
      BlocksText(kept) + BlocksText([moved] + bs[n + 1..]) == BlocksText(bs)
  {
    var b := bs[n];
    var tail := if m == 0 then [] else [b.(version := v, lines := b.lines[..m])];
    var moved := BumpBlock(b.(uid := blockUid, lines := b.lines[m..]), v);
    assert b.lines == b.lines[..m] + b.lines[m..];
    LinesTextAppend(b.id, b.lines[..m], b.lines[m..]);
    BumpBlockText(b.(uid := blockUid, lines := b.lines[m..]), v);
    FrontText(b, m, v);
    ReplaceBlockText(bs[..n], b, bs[n + 1..], tail, moved);
    Around(bs, n);
  }

  /** Cleaving a page keeps the document's text. */
  lemma CutPageText(pages: seq<Page>, cur: nat, n: nat, m: nat, pageUid: Uid, blockUid: Uid, v: int)
    requires cur < |pages| && n < |pages[cur].blocks| && m <= |pages[cur].blocks[n].lines|
    ensures PagesText(CutPage(pages, cur, n, m, pageUid, blockUid, v)) == PagesText(pages)
  {
    var page := pages[cur];
    var bs := page.blocks;
    var b := bs[n];
    var kept := bs[..n] + (if m == 0 then [] else [b.(version := v, lines := b.lines[..m])]);
    var moved := BumpBlock(b.(uid := blockUid, lines := b.lines[m..]), v);
    var mid := [page.(version := v, blocks := kept), Page(pageUid, v, [moved] + bs[n + 1..])];
    CutHalvesText(bs, n, m, blockUid, v);
    PagesTextPair(mid[0], mid[1]);
    PagesTextAround(pages, cur, mid);
  }

  /** Replacing pages `x` and `y` by one page `z` holding their text keeps the text. */
  lemma ReplacePairText(pre: seq<Page>, x: Page, y: Page, z: Page, post: seq<Page>)
    requires BlocksText(z.blocks) == BlocksText(x.blocks) + BlocksText(y.blocks)
    ensures PagesText(pre + [z] + post) == PagesText(pre + [x, y] + post)
  {
    PagesTextAppend(pre + [z], post);
    PagesTextAppend(pre, [z]);
    PagesTextAppend(pre + [x, y], post);
    PagesTextAppend(pre, [x, y]);
    PagesTextPair(x, y);
    PagesTextPair(z, z);
  }

  /** Merging the next page keeps the document's text. */
  lemma MergePageText(pages: seq<Page>, cur: nat, v: int)
    requires cur + 1 < |pages|
    ensures PagesText(MergePage(pages, cur, v)) == PagesText(pages)
  {
    var a := pages[cur];
    var b := pages[cur + 1];
    BlocksTextAppend(a.blocks, BumpBlocks(b.blocks, v));
    BumpBlocksText(b.blocks, v);
    ReplacePairText(pages[..cur], a, b, a.(blocks := a.blocks + BumpBlocks(b.blocks, v)), pages[cur + 2..]);
    PairAround(pages, cur);
  }

  // ---------------------------------------------------------------- the reflow's state

  /**
   * The local state of `reflowPageFlowBox`: the document's page boxes, the
   * index `cur` of `currentPageFlowBox` among them, the index `n` of the
   * block box being placed, `cumulatedHeight`, the next fresh uid and the
   * fuel left.
   */
  datatype PageCursor = PageCursor(pages: seq<Page>, cur: nat, n: nat, cumulatedHeight: nat, nextUid: Uid, fuel: nat)

  /**
   * The reflow of `pages0` from page `p0`, at inner height `h` and version
   * `v`, has reached current page `cur` of `pages`: the pages before `p0`
   * are as they were, the pages after the current one are the last pages of
   * `pages0`, the text is unchanged, the pages from `p0` to the current one
   * carry version `v`, the blocks of each one before the current one
   * fit the inner height, and every box either carries version `v` or has
   * the stamp of a box of `pages0`.
   */
  ghost predicate PageReflowing(pages0: seq<Page>, p0: nat, h: nat, v: int, pages: seq<Page>, cur: nat)
  {
    PageReflowingParts(pages0, p0, h, v, pages, cur)
  }

  /** The clauses of PageReflowing. */
  ghost predicate PageReflowingParts(pages0: seq<Page>, p0: nat, h: nat, v: int, pages: seq<Page>, cur: nat)
  {
    && p0 < |pages0| && p0 <= cur < |pages|
    && pages[..p0] == pages0[..p0]
    && IsSuffix(pages[cur + 1..], pages0[p0 + 1..])
    && PagesText(pages) == PagesText(pages0)
    && (forall j :: p0 <= j <= cur ==> pages[j].version == v)
    && (forall j :: p0 <= j < cur ==> BlocksHeight(pages[j].blocks) <= h)
    && StampsKept(PageStamps(pages), PageStamps(pages0), v)
  }

  /** No page from `p0` up to (not including) `cur` was left without block boxes. */
  predicate Filled(pages: seq<Page>, p0: nat, cur: nat)
    requires cur <= |pages|
  {
    forall j :: p0 <= j < cur ==> pages[j].blocks != []
  }

  /**
   * The cursor is on block box `n` of the current page, and `cumulatedHeight`
   * is the height of the block boxes before it, which fit the page.
   */
  predicate OnBlock(t: PageCursor, h: nat)
  {
    && t.cur < |t.pages| && t.n < |t.pages[t.cur].blocks|
    && t.cumulatedHeight == BlocksHeight(t.pages[t.cur].blocks[..t.n]) && t.cumulatedHeight <= h
  }

  /**
   * The cursor is at the top of a page whose first line box is taller than
   * the page: every cleave from here on leaves an empty page behind and
   * comes back to the same situation.
   */
  predicate Stuck(t: PageCursor, h: nat)
  {
    && OnBlock(t, h) && t.n == 0
    && t.pages[t.cur].blocks[0].lines != [] && LineHeight(t.pages[t.cur].blocks[0].lines[0]) > h
  }

  /**
   * A step of the reflow from `s` to `t` that leaves the pages before the
   * current one and the text alone, stamps the pages it reaches, finishes
   * only pages that fit and leaves a suffix of the pages after the current
   * one keeps the reflow going.
   */
  lemma PageAdvance(pages0: seq<Page>, p0: nat, h: nat, v: int, sp: seq<Page>, sc: nat, tp: seq<Page>, tc: nat)
    requires PageReflowing(pages0, p0, h, v, sp, sc)
    requires sc <= tc < |tp| && tp[..sc] == sp[..sc]
    requires IsSuffix(tp[tc + 1..], sp[sc + 1..])
    requires PagesText(tp) == PagesText(sp)
    requires forall j :: sc <= j <= tc ==> tp[j].version == v
    requires forall j :: sc <= j < tc ==> BlocksHeight(tp[j].blocks) <= h
    requires StampsKept(PageStamps(tp), PageStamps(sp), v)
    ensures PageReflowing(pages0, p0, h, v, tp, tc)
  {
    KeptTrans(PageStamps(tp), PageStamps(sp), PageStamps(pages0), v);
    SuffixTrans(tp[tc + 1..], sp[sc + 1..], pages0[p0 + 1..]);
    assert tp[..p0] == tp[..sc][..p0];
    assert sp[..p0] == sp[..sc][..p0];
    forall j | p0 <= j < sc
      ensures tp[j] == sp[j]
    {
      assert tp[j] == tp[..sc][j];
    }
  }

  /** What CutPage makes of the pages, one fact at a time. */
  lemma CutPageShape(pages: seq<Page>, cur: nat, n: nat, m: nat, pageUid: Uid, blockUid: Uid, v: int)
    requires cur < |pages| && n < |pages[cur].blocks| && m < |pages[cur].blocks[n].lines|
    ensures var r := CutPage(pages, cur, n, m, pageUid, blockUid, v); var b := pages[cur].blocks[n];
      && |r| == |pages| + 1 && r[..cur] == pages[..cur] && r[cur + 2..] == pages[cur + 1..]
      && r[cur].version == v && r[cur + 1].version == v
      && r[cur].blocks == pages[cur].blocks[..n] + (if m == 0 then [] else [b.(version := v, lines := b.lines[..m])])
      && r[cur + 1].blocks != [] && r[cur + 1].blocks[0].lines != []
      && LineHeight(r[cur + 1].blocks[0].lines[0]) == LineHeight(b.lines[m])
  {
    var b := pages[cur].blocks[n];
    var r := CutPage(pages, cur, n, m, pageUid, blockUid, v);
    StampLineHeight(b.lines[m..], v, 0);
    assert r[cur + 2..] == pages[cur + 1..];
  }

  /**
   * A cleave of the current page keeps the reflow going, the first half
   * becoming a finished page, when that half fits.
   */
  lemma CutKeepsReflowing(pages0: seq<Page>, p0: nat, h: nat, v: int, pages: seq<Page>, cur: nat, n: nat, m: nat,
                          pageUid: Uid, blockUid: Uid)
    requires PageReflowing(pages0, p0, h, v, pages, cur)
    requires n < |pages[cur].blocks| && m < |pages[cur].blocks[n].lines|
    requires BlocksHeight(pages[cur].blocks[..n]) + LinesHeight(pages[cur].blocks[n].lines[..m]) <= h
    ensures PageReflowing(pages0, p0, h, v, CutPage(pages, cur, n, m, pageUid, blockUid, v), cur + 1)
  {
    var r := CutPage(pages, cur, n, m, pageUid, blockUid, v);
    CutPageShape(pages, cur, n, m, pageUid, blockUid, v);
    CutPageText(pages, cur, n, m, pageUid, blockUid, v);
    CutPageFits(pages, cur, n, m, pageUid, blockUid, v, h);
    CutPageStamps(pages, cur, n, m, pageUid, blockUid, v);
    assert IsSuffix(r[cur + 2..], pages[cur + 1..]) by {
      assert pages[cur + 1..] == pages[cur + 1..][0..];
    }
    PageAdvance(pages0, p0, h, v, pages, cur, r, cur + 1);
  }

  /** The first half of a cleave fits when what it keeps of the page does. */
  lemma CutPageFits(pages: seq<Page>, cur: nat, n: nat, m: nat, pageUid: Uid, blockUid: Uid, v: int, h: nat)
    requires cur < |pages| && n < |pages[cur].blocks| && m < |pages[cur].blocks[n].lines|
    requires BlocksHeight(pages[cur].blocks[..n]) + LinesHeight(pages[cur].blocks[n].lines[..m]) <= h
    ensures BlocksHeight(CutPage(pages, cur, n, m, pageUid, blockUid, v)[cur].blocks) <= h
  {
    var b := pages[cur].blocks[n];
    CutPageShape(pages, cur, n, m, pageUid, blockUid, v);
    if m > 0 {
      BlocksHeightAppend(pages[cur].blocks[..n], [b.(version := v, lines := b.lines[..m])]);
      assert [b.(version := v, lines := b.lines[..m])][1..] == [];
    } else {
      assert CutPage(pages, cur, n, m, pageUid, blockUid, v)[cur].blocks == pages[cur].blocks[..n];
    }
  }

  /** A merge of the next page keeps the reflow going on the same page. */
  lemma MergeKeepsReflowing(pages0: seq<Page>, p0: nat, h: nat, v: int, pages: seq<Page>, cur: nat)
    requires PageReflowing(pages0, p0, h, v, pages, cur) && cur + 1 < |pages|
    ensures var r := MergePage(pages, cur, v);
      && PageReflowing(pages0, p0, h, v, r, cur)
      && r[cur].blocks == pages[cur].blocks + BumpBlocks(pages[cur + 1].blocks, v)
      && r[..cur] == pages[..cur]
  {
    var r := MergePage(pages, cur, v);
    MergePageText(pages, cur, v);
    assert r[cur + 1..] == pages[cur + 1..][1..];
    SuffixTail(pages[cur + 1..], pages[cur + 1..]);
    assert IsSuffix(pages[cur + 1..], pages[cur + 1..]);
    MergePageStamps(pages, cur, v);
    PageAdvance(pages0, p0, h, v, pages, cur, r, cur);
  }

  // ---------------------------------------------------------------- the reflow's steps

  /**
   * One turn of the inner `while` loop (lines 491-521): the block box under
   * the cursor overflows the page, so the page is cleaved after it and the
   * block box before its first line box that does not fit; the cursor moves
   * to the top of the new page, on the new block box.
   */
  method Cleave(s: PageCursor, v: int, h: nat, ghost pages0: seq<Page>, ghost p0: nat)
    returns (t: PageCursor, m: nat)
    requires PageReflowing(pages0, p0, h, v, s.pages, s.cur) && OnBlock(s, h)
    requires Filled(s.pages, p0, s.cur) || Stuck(s, h)
    requires s.cumulatedHeight + BlockHeight(s.pages[s.cur].blocks[s.n]) > h
    ensures PageReflowing(pages0, p0, h, v, t.pages, t.cur) && OnBlock(t, h)
    ensures Filled(t.pages, p0, t.cur) || Stuck(t, h)
    ensures var lines := s.pages[s.cur].blocks[s.n].lines;
      && m < |lines| && s.cumulatedHeight + LinesHeight(lines[..m]) + LineHeight(lines[m]) > h
      && (forall k :: 0 <= k <= m ==> s.cumulatedHeight + LinesHeight(lines[..k]) <= h)
    ensures t.pages == CutPage(s.pages, s.cur, s.n, m, s.nextUid, s.nextUid + 1, v)
    ensures t.cur == s.cur + 1 && t.n == 0 && t.cumulatedHeight == 0
    ensures t.nextUid == s.nextUid + 2 && t.fuel == s.fuel
  {
    var lines := s.pages[s.cur].blocks[s.n].lines;
    m := FindCleave(lines, s.cumulatedHeight, h);
    var pages := CutPage(s.pages, s.cur, s.n, m, s.nextUid, s.nextUid + 1, v);
    CutKeepsReflowing(pages0, p0, h, v, s.pages, s.cur, s.n, m, s.nextUid, s.nextUid + 1);
    CutPageShape(s.pages, s.cur, s.n, m, s.nextUid, s.nextUid + 1, v);
    t := PageCursor(pages, s.cur + 1, 0, 0, s.nextUid + 2, s.fuel);
    assert pages[t.cur].blocks[..0] == [] && lines[..0] == [];
    LinesHeightSnoc(lines, 0);
    if s.n == 0 && m == 0 {
      assert Stuck(t, h);
    } else {
      assert Filled(s.pages, p0, s.cur);
      assert pages[s.cur].blocks != [];
      assert pages[..s.cur] == s.pages[..s.cur];
      forall j | p0 <= j < t.cur
        ensures pages[j].blocks != []
      {
        if j < s.cur {
          assert pages[j] == pages[..s.cur][j];
        }
      }
    }
  }

  /**
   * Placing the block box under the cursor (lines 490-523): while it
   * overflows the page the page is cleaved; then its height is added to
   * `cumulatedHeight` and the cursor moves past it. `stalled` reports that
   * the fuel ran out first.
   */
  method PlaceBlock(s: PageCursor, v: int, h: nat, ghost pages0: seq<Page>, ghost p0: nat)
    returns (t: PageCursor, stalled: bool)
    requires PageReflowing(pages0, p0, h, v, s.pages, s.cur) && OnBlock(s, h) && Filled(s.pages, p0, s.cur)
    ensures PageReflowing(pages0, p0, h, v, t.pages, t.cur)
    ensures !stalled ==> && Filled(t.pages, p0, t.cur) && t.cur < |t.pages| && 0 < t.n <= |t.pages[t.cur].blocks|
                         && t.cumulatedHeight == BlocksHeight(t.pages[t.cur].blocks[..t.n]) <= h
    ensures t.nextUid >= s.nextUid && t.fuel <= s.fuel
  {
    t := s;
    while t.cumulatedHeight + BlockHeight(t.pages[t.cur].blocks[t.n]) > h
      invariant PageReflowing(pages0, p0, h, v, t.pages, t.cur) && OnBlock(t, h)
      invariant Filled(t.pages, p0, t.cur) || Stuck(t, h)
      invariant t.nextUid >= s.nextUid && t.fuel <= s.fuel
      decreases t.fuel
    {
      if t.fuel == 0 {
        return t, true;
      }
      var m;
      t, m := Cleave(t.(fuel := t.fuel - 1), v, h, pages0, p0);
    }
    assert !Stuck(t, h);
    var bs := t.pages[t.cur].blocks;
    BlocksHeightSnoc(bs, t.n);
    t := t.(cumulatedHeight := t.cumulatedHeight + BlockHeight(bs[t.n]), n := t.n + 1);
    stalled := false;
  }

  /**
   * Merging the next page into the current one once every block box of the
   * current page is placed; the cursor stays put, on the first block box
   * that came over.
   */
  method MergeNextPage(s: PageCursor, v: int, h: nat, ghost pages0: seq<Page>, ghost p0: nat)
    returns (t: PageCursor)
    requires PageReflowing(pages0, p0, h, v, s.pages, s.cur) && Filled(s.pages, p0, s.cur)
    requires s.cur + 1 < |s.pages| && s.pages[s.cur + 1].blocks != []
    requires s.n == |s.pages[s.cur].blocks| && s.cumulatedHeight == BlocksHeight(s.pages[s.cur].blocks) <= h
    ensures PageReflowing(pages0, p0, h, v, t.pages, t.cur) && OnBlock(t, h) && Filled(t.pages, p0, t.cur)
    ensures t.pages == MergePage(s.pages, s.cur, v)
    ensures t.cur == s.cur && t.n == s.n && t.cumulatedHeight == s.cumulatedHeight
    ensures t.nextUid == s.nextUid && t.fuel == s.fuel
  {
    var pages := MergePage(s.pages, s.cur, v);
    MergeKeepsReflowing(pages0, p0, h, v, s.pages, s.cur);
    t := s.(pages := pages);
    assert pages[t.cur].blocks[..t.n] == s.pages[s.cur].blocks;
    forall j | p0 <= j < t.cur
      ensures pages[j].blocks != []
    {
      assert pages[j] == pages[..s.cur][j];
    }
  }

  /**
   * One turn of the outer `while (true)` loop (lines 488-543): the block box
   * under the cursor is placed. When it was the last block box of the page,
   * the reflow finishes at the document's last page, stops at a next page
   * without a line box to measure (`undefined` in the source), merges the
   * next page when its first line box fits below what is placed, and
   * finishes otherwise.
   */
  method NextBlock(s: PageCursor, v: int, h: nat, ghost pages0: seq<Page>, ghost p0: nat)
    returns (t: PageCursor, stop: Option<Ending>)
    requires PageReflowing(pages0, p0, h, v, s.pages, s.cur) && OnBlock(s, h) && Filled(s.pages, p0, s.cur)
    ensures PageReflowing(pages0, p0, h, v, t.pages, t.cur)
    ensures stop.None? ==> OnBlock(t, h) && Filled(t.pages, p0, t.cur)
    ensures stop == Some(Finished) ==> Filled(t.pages, p0, t.cur + 1) && BlocksHeight(t.pages[t.cur].blocks) <= h
    ensures t.nextUid >= s.nextUid && t.fuel <= s.fuel
  {
    var stalled;
    t, stalled := PlaceBlock(s, v, h, pages0, p0);
    if stalled {
      return t, Some(OutOfFuel);
    }
    stop := None;
    var bs := t.pages[t.cur].blocks;
    if t.n == |bs| {
      assert bs[..t.n] == bs;
      if t.cur + 1 >= |t.pages| {
        stop := Some(Finished);
      } else {
        var next := t.pages[t.cur + 1];
        if next.blocks == [] || next.blocks[0].lines == [] {
          stop := Some(Undefined);
        } else if t.cumulatedHeight + LineHeight(next.blocks[0].lines[0]) <= h {
          t := MergeNextPage(t, v, h, pages0, p0);
        } else {
          stop := Some(Finished);
        }
      }
    } else {
      assert bs[..t.n] == t.pages[t.cur].blocks[..t.n];
    }
  }

  /** The reflow starts at page `p0`, with nothing placed. */
  lemma StartPageReflowing(pages0: seq<Page>, p0: nat, h: nat, v: int, t: PageCursor)
    requires p0 < |pages0| && pages0[p0].version == v
    requires t.pages == pages0 && t.cur == p0 && t.n == 0 && t.cumulatedHeight == 0
    ensures PageReflowing(pages0, p0, h, v, t.pages, t.cur) && Filled(t.pages, p0, t.cur)
    ensures pages0[p0].blocks != [] ==> OnBlock(t, h)
  {
    assert pages0[p0 + 1..] == pages0[|pages0| - |pages0[p0 + 1..]|..];
    assert pages0[p0].blocks[..0] == [];
  }

  /** What PageReflowing says of the pages, in the terms of ReflowPages' contract. */
  lemma PageReflowingFacts(pages0: seq<Page>, p0: nat, h: nat, v: int, pages: seq<Page>, cur: nat)
    requires PageReflowing(pages0, p0, h, v, pages, cur)
    ensures p0 <= cur < |pages| && pages[..p0] == pages0[..p0]
    ensures PagesText(pages) == PagesText(pages0)
    ensures IsSuffix(pages[cur + 1..], pages0[p0 + 1..])
    ensures forall j :: p0 <= j <= cur ==> pages[j].version == v
    ensures forall j :: p0 <= j < cur ==> BlocksHeight(pages[j].blocks) <= h
    ensures StampsKept(PageStamps(pages), PageStamps(pages0), v)
  {
  }

  /**
   * The `while (true)` loop of `reflowPageFlowBox`: block boxes are placed
   * one at a time until the reflow ends.
   */
  method PlaceBlocks(s: PageCursor, v: int, h: nat, ghost pages0: seq<Page>, ghost p0: nat)
    returns (t: PageCursor, ending: Ending)
    requires PageReflowing(pages0, p0, h, v, s.pages, s.cur) && OnBlock(s, h) && Filled(s.pages, p0, s.cur)
    ensures PageReflowing(pages0, p0, h, v, t.pages, t.cur)
    ensures ending == Finished ==> Filled(t.pages, p0, t.cur + 1) && BlocksHeight(t.pages[t.cur].blocks) <= h
    ensures t.nextUid >= s.nextUid
  {
    t := s;
    while true
      invariant PageReflowing(pages0, p0, h, v, t.pages, t.cur) && OnBlock(t, h) && Filled(t.pages, p0, t.cur)
      invariant t.nextUid >= s.nextUid
      decreases t.fuel
    {
      if t.fuel == 0 {
        return t, OutOfFuel;
      }
      var stop;
      t, stop := NextBlock(t.(fuel := t.fuel - 1), v, h, pages0, p0);
      if stop.Some? {
        return t, stop.value;
      }
    }
  }

  /**
   * `reflowPageFlowBox` on the page boxes `pages0` of a document with inner
   * page height `h`, from page `p0`, whose version the caller has set to `v`
   * (lines 469-544). The result keeps the text and the pages before `p0`;
   * every page from `p0` to `last` carries version `v` and every one before
   * `last` fits the height; the pages after `last` are the last pages of
   * `pages0`. When the reflow finishes, `last` fits too and no page from
   * `p0` to `last` is left without block boxes. Every box of the result
   * carries version `v` or has the stamp of a box of `pages0`: cleaved and
   * moved-up block boxes, with all under them, get `v`, and boxes the
   * reflow did not touch keep their versions. A page `p0` with no block
   * box stops the reflow at once (`undefined` in the source).
   */
  method ReflowPages(pages0: seq<Page>, p0: nat, h: nat, v: int, uid0: Uid, fuel0: nat)
    returns (pages: seq<Page>, last: nat, nextUid: Uid, ending: Ending)
    requires p0 < |pages0| && pages0[p0].version == v
    ensures p0 <= last < |pages| && pages[..p0] == pages0[..p0]
    ensures PagesText(pages) == PagesText(pages0)
    ensures IsSuffix(pages[last + 1..], pages0[p0 + 1..])
    ensures forall j :: p0 <= j <= last ==> pages[j].version == v
    ensures forall j :: p0 <= j < last ==> BlocksHeight(pages[j].blocks) <= h
    ensures ending == Finished ==> BlocksHeight(pages[last].blocks) <= h
    ensures ending == Finished ==> forall j :: p0 <= j <= last ==> pages[j].blocks != []
    ensures StampsKept(PageStamps(pages), PageStamps(pages0), v)
    ensures pages0[p0].blocks == [] ==> ending == Undefined && pages == pages0
    ensures nextUid >= uid0
  {
    var t := PageCursor(pages0, p0, 0, 0, uid0, fuel0);
    StartPageReflowing(pages0, p0, h, v, t);
    ending := Undefined;
    if pages0[p0].blocks != [] {
      t, ending := PlaceBlocks(t, v, h, pages0, p0);
    }
    pages, last, nextUid := t.pages, t.cur, t.nextUid;
    PageReflowingFacts(pages0, p0, h, v, pages, last);
  }
}
