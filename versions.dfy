/**
 * The version scheme, seen box by box.
 *
 * A box's stamp is its uid together with its version. The stamps of a run
 * of boxes are read in document order, each box before the boxes under it.
 * A pass at version `v` keeps the stamps of a tree when every box of the
 * new tree either carries `v` or has exactly the stamp of a box of the old
 * tree: a box the pass did not touch keeps its version, and every other box
 * gets the pass's version. When `v` is at least every version in the old
 * tree and the old uids are distinct, no box's version goes down
 * (VersionsNeverDrop).
 */
module Versions {

  import opened Seqs
  import opened Boxes

  datatype Stamp = Stamp(uid: Uid, version: int)

  function AtomStamps(ats: seq<Atomic>): seq<Stamp>
  {
    if ats == [] then [] else [Stamp(ats[0].uid, ats[0].version)] + AtomStamps(ats[1..])
  }

  function InlineStamps(ins: seq<Inline>): seq<Stamp>
  {
    if ins == [] then []
    else [Stamp(ins[0].uid, ins[0].version)] + AtomStamps(ins[0].atomics) + InlineStamps(ins[1..])
  }

  function LineStamps(ls: seq<Line>): seq<Stamp>
  {
    if ls == [] then []
    else [Stamp(ls[0].uid, ls[0].version)] + InlineStamps(ls[0].inlines) + LineStamps(ls[1..])
  }

  function BlockStamps(bs: seq<Block>): seq<Stamp>
  {
    if bs == [] then []
    else [Stamp(bs[0].uid, bs[0].version)] + LineStamps(bs[0].lines) + BlockStamps(bs[1..])
  }

  function PageStamps(ps: seq<Page>): seq<Stamp>
  {
    if ps == [] then []
    else [Stamp(ps[0].uid, ps[0].version)] + BlockStamps(ps[0].blocks) + PageStamps(ps[1..])
  }

  /** Every box of `ss` carries version `v` or has the stamp of a box of `ss0`. */
  predicate StampsKept(ss: seq<Stamp>, ss0: seq<Stamp>, v: int)
  {
    forall s :: s in ss ==> s.version == v || s in ss0
  }

  /** Every box of `ss` has the stamp of a box of `ss0`: no version was changed. */
  predicate StampsFrom(ss: seq<Stamp>, ss0: seq<Stamp>)
  {
    forall s :: s in ss ==> s in ss0
  }

  /** Every box of `ss` carries version `v`. */
  predicate AllAt(ss: seq<Stamp>, v: int)
  {
    forall s :: s in ss ==> s.version == v
  }

  /** No two boxes share a uid. */
  predicate UidsUnique(ss: seq<Stamp>)
  {
    forall i, j :: 0 <= i < j < |ss| ==> ss[i].uid != ss[j].uid
  }

  /**
   * Versions never go down: after a pass that keeps the stamps at a
   * version no lower than any before it, every box that was there before
   * has a version at least its old one.
   */
  lemma VersionsNeverDrop(ss0: seq<Stamp>, ss: seq<Stamp>, v: int)
    requires StampsKept(ss, ss0, v) && UidsUnique(ss0)
    requires forall s :: s in ss0 ==> s.version <= v
    ensures forall s, s0 :: s in ss && s0 in ss0 && s.uid == s0.uid ==> s0.version <= s.version
  {
    forall s, s0 | s in ss && s0 in ss0 && s.uid == s0.uid
      ensures s0.version <= s.version
    {
      if s.version != v {
        var i :| 0 <= i < |ss0| && ss0[i] == s;
        var j :| 0 <= j < |ss0| && ss0[j] == s0;
        assert i == j;
      }
    }
  }

  /** Keeping stamps composes along a run of passes at one version. */
  lemma KeptTrans(ss: seq<Stamp>, ss1: seq<Stamp>, ss0: seq<Stamp>, v: int)
    requires StampsKept(ss, ss1, v) && StampsKept(ss1, ss0, v)
    ensures StampsKept(ss, ss0, v)
  {
  }

  // ---------------------------------------------------------------- stamps of concatenations

  lemma {:induction false} AtomStampsAppend(a: seq<Atomic>, b: seq<Atomic>)
    ensures AtomStamps(a + b) == AtomStamps(a) + AtomStamps(b)
  {
    if a != [] {
      assert (a + b)[1..] == a[1..] + b;
      AtomStampsAppend(a[1..], b);
    } else {
      assert a + b == b;
    }
  }

  lemma {:induction false} InlineStampsAppend(a: seq<Inline>, b: seq<Inline>)
    ensures InlineStamps(a + b) == InlineStamps(a) + InlineStamps(b)
  {
    if a != [] {
      assert (a + b)[1..] == a[1..] + b;
      InlineStampsAppend(a[1..], b);
    } else {
      assert a + b == b;
    }
  }

  lemma {:induction false} LineStampsAppend(a: seq<Line>, b: seq<Line>)
    ensures LineStamps(a + b) == LineStamps(a) + LineStamps(b)
  {
    if a != [] {
      assert (a + b)[1..] == a[1..] + b;
      LineStampsAppend(a[1..], b);
    } else {
      assert a + b == b;
    }
  }

  lemma {:induction false} BlockStampsAppend(a: seq<Block>, b: seq<Block>)
    ensures BlockStamps(a + b) == BlockStamps(a) + BlockStamps(b)
  {
    if a != [] {
      assert (a + b)[1..] == a[1..] + b;
      BlockStampsAppend(a[1..], b);
    } else {
      assert a + b == b;
    }
  }

  lemma {:induction false} PageStampsAppend(a: seq<Page>, b: seq<Page>)
    ensures PageStamps(a + b) == PageStamps(a) + PageStamps(b)
  {
    if a != [] {
      assert (a + b)[1..] == a[1..] + b;
      PageStampsAppend(a[1..], b);
    } else {
      assert a + b == b;
    }
  }

  lemma InlineStampsOne(i: Inline)
    ensures InlineStamps([i]) == [Stamp(i.uid, i.version)] + AtomStamps(i.atomics)
  {
    assert [i][1..] == [];
  }

  lemma LineStampsOne(l: Line)
    ensures LineStamps([l]) == [Stamp(l.uid, l.version)] + InlineStamps(l.inlines)
  {
    assert [l][1..] == [];
  }

  lemma BlockStampsOne(b: Block)
    ensures BlockStamps([b]) == [Stamp(b.uid, b.version)] + LineStamps(b.lines)
  {
    assert [b][1..] == [];
  }

  lemma PageStampsOne(p: Page)
    ensures PageStamps([p]) == [Stamp(p.uid, p.version)] + BlockStamps(p.blocks)
  {
    assert [p][1..] == [];
  }

  /** The stamps of a run of atomic boxes with atomic box `x` in the middle. */
  lemma AtomStampsMid(pre: seq<Atomic>, x: Atomic, post: seq<Atomic>)
    ensures AtomStamps(pre + [x] + post) == AtomStamps(pre) + [Stamp(x.uid, x.version)] + AtomStamps(post)
  {
    AtomStampsAppend(pre + [x], post);
    AtomStampsAppend(pre, [x]);
    assert [x][1..] == [];
  }

  /** The stamps of a run of inline boxes with inline box `x` in the middle. */
  lemma InlineStampsMid(pre: seq<Inline>, x: Inline, post: seq<Inline>)
    ensures InlineStamps(pre + [x] + post) == InlineStamps(pre) + ([Stamp(x.uid, x.version)] + AtomStamps(x.atomics)) + InlineStamps(post)
  {
    InlineStampsAppend(pre + [x], post);
    InlineStampsAppend(pre, [x]);
    InlineStampsOne(x);
  }

  /** The stamps of a run of block boxes with block box `x` in the middle. */
  lemma BlockStampsMid(pre: seq<Block>, x: Block, post: seq<Block>)
    ensures BlockStamps(pre + [x] + post) == BlockStamps(pre) + ([Stamp(x.uid, x.version)] + LineStamps(x.lines)) + BlockStamps(post)
  {
    BlockStampsAppend(pre + [x], post);
    BlockStampsAppend(pre, [x]);
    BlockStampsOne(x);
  }

  /** The stamps of a run of lines with line `x` in the middle. */
  lemma LineStampsMid(pre: seq<Line>, x: Line, post: seq<Line>)
    ensures LineStamps(pre + [x] + post) == LineStamps(pre) + ([Stamp(x.uid, x.version)] + InlineStamps(x.inlines)) + LineStamps(post)
  {
    LineStampsAppend(pre + [x], post);
    LineStampsAppend(pre, [x]);
    LineStampsOne(x);
  }

  /** The stamps of a run of lines, seen around line `l`. */
  lemma LineStampsAround(ls: seq<Line>, l: nat)
    requires l < |ls|
    ensures LineStamps(ls) == LineStamps(ls[..l]) + ([Stamp(ls[l].uid, ls[l].version)]
                              + InlineStamps(ls[l].inlines)) + LineStamps(ls[l + 1..])
  {
    var pre, post := ls[..l], ls[l + 1..];
    assert ls == pre + [ls[l]] + post;
    LineStampsMid(pre, ls[l], post);
  }

  /** The stamps of a run of pages with page `x` in the middle. */
  lemma PageStampsMid(pre: seq<Page>, x: Page, post: seq<Page>)
    ensures PageStamps(pre + [x] + post) == PageStamps(pre) + ([Stamp(x.uid, x.version)] + BlockStamps(x.blocks)) + PageStamps(post)
  {
    PageStampsAppend(pre + [x], post);
    PageStampsAppend(pre, [x]);
    PageStampsOne(x);
  }

  /** The stamps of a run of pages, seen around page `p`. */
  lemma PageStampsAround(ps: seq<Page>, p: nat)
    requires p < |ps|
    ensures PageStamps(ps) == PageStamps(ps[..p]) + ([Stamp(ps[p].uid, ps[p].version)]
                              + BlockStamps(ps[p].blocks)) + PageStamps(ps[p + 1..])
  {
    var pre, post := ps[..p], ps[p + 1..];
    assert ps == pre + [ps[p]] + post;
    PageStampsMid(pre, ps[p], post);
  }

  /**
   * Replacing the middle of a run keeps the stamps when the new middle keeps
   * the stamps of the old one.
   */
  lemma KeptAround(pre: seq<Stamp>, mid: seq<Stamp>, mid0: seq<Stamp>, post: seq<Stamp>, v: int)
    requires StampsKept(mid, mid0, v)
    ensures StampsKept(pre + mid + post, pre + mid0 + post, v)
  {
  }

  /** The stamps of a run of block boxes, seen around block box `b`. */
  lemma BlockStampsAround(bs: seq<Block>, b: nat)
    requires b < |bs|
    ensures BlockStamps(bs) == BlockStamps(bs[..b]) + ([Stamp(bs[b].uid, bs[b].version)]
                               + LineStamps(bs[b].lines)) + BlockStamps(bs[b + 1..])
  {
    Around(bs, b);
    BlockStampsMid(bs[..b], bs[b], bs[b + 1..]);
  }

  /** Setting the version of line `l` to `v` keeps the stamps. */
  lemma LineVersionStamps(ls: seq<Line>, l: nat, v: int)
    requires l < |ls|
    ensures StampsKept(LineStamps(ls[l := ls[l].(version := v)]), LineStamps(ls), v)
  {
    var s := ls[l := ls[l].(version := v)];
    LineStampsAround(s, l);
    LineStampsAround(ls, l);
    assert s[..l] == ls[..l] && s[l + 1..] == ls[l + 1..];
  }

  /** Setting the version of page `p` to `v` keeps the stamps. */
  lemma PageVersionStamps(ps: seq<Page>, p: nat, v: int)
    requires p < |ps|
    ensures StampsKept(PageStamps(ps[p := ps[p].(version := v)]), PageStamps(ps), v)
  {
    var s := ps[p := ps[p].(version := v)];
    PageStampsAround(s, p);
    PageStampsAround(ps, p);
    assert s[..p] == ps[..p] && s[p + 1..] == ps[p + 1..];
  }

  /**
   * Replacing the lines of block box `b` keeps the stamps when the new lines
   * keep those of the old ones.
   */
  lemma WithBlockStamps(bs: seq<Block>, b: nat, lines: seq<Line>, v: int)
    requires b < |bs| && StampsKept(LineStamps(lines), LineStamps(bs[b].lines), v)
    ensures StampsKept(BlockStamps(bs[b := bs[b].(lines := lines)]), BlockStamps(bs), v)
  {
    var s := bs[b := bs[b].(lines := lines)];
    BlockStampsAround(s, b);
    BlockStampsAround(bs, b);
    assert s[..b] == bs[..b] && s[b + 1..] == bs[b + 1..];
    var x := [Stamp(bs[b].uid, bs[b].version)];
    KeptAround(BlockStamps(bs[..b]) + x, LineStamps(lines), LineStamps(bs[b].lines), BlockStamps(bs[b + 1..]), v);
  }

  /**
   * Replacing the block boxes of page `p` keeps the stamps when the new
   * blocks keep those of the old ones.
   */
  lemma WithPageStamps(ps: seq<Page>, p: nat, blocks: seq<Block>, v: int)
    requires p < |ps| && StampsKept(BlockStamps(blocks), BlockStamps(ps[p].blocks), v)
    ensures StampsKept(PageStamps(ps[p := ps[p].(blocks := blocks)]), PageStamps(ps), v)
  {
    var s := ps[p := ps[p].(blocks := blocks)];
    PageStampsAround(s, p);
    PageStampsAround(ps, p);
    assert s[..p] == ps[..p] && s[p + 1..] == ps[p + 1..];
    var x := [Stamp(ps[p].uid, ps[p].version)];
    KeptAround(PageStamps(ps[..p]) + x, BlockStamps(blocks), BlockStamps(ps[p].blocks), PageStamps(ps[p + 1..]), v);
  }

  // ---------------------------------------------------------------- bumped boxes

  lemma {:induction false} StampAtomsAt(ats: seq<Atomic>, v: int)
    ensures AllAt(AtomStamps(StampAtoms(ats, v)), v)
  {
    if ats != [] {
      assert StampAtoms(ats, v)[1..] == StampAtoms(ats[1..], v);
      StampAtomsAt(ats[1..], v);
    }
  }

  lemma {:induction false} StampInlinesAt(ins: seq<Inline>, v: int)
    ensures AllAt(InlineStamps(StampInlines(ins, v)), v)
  {
    if ins != [] {
      assert StampInlines(ins, v)[1..] == StampInlines(ins[1..], v);
      StampAtomsAt(ins[0].atomics, v);
      StampInlinesAt(ins[1..], v);
    }
  }

  lemma {:induction false} StampLinesAt(ls: seq<Line>, v: int)
    ensures AllAt(LineStamps(StampLines(ls, v)), v)
  {
    if ls != [] {
      assert StampLines(ls, v)[1..] == StampLines(ls[1..], v);
      StampInlinesAt(ls[0].inlines, v);
      StampLinesAt(ls[1..], v);
    }
  }

  /** A bumped block box and every box under it carry version `v`. */
  lemma BumpBlockAt(b: Block, v: int)
    ensures AllAt(BlockStamps([BumpBlock(b, v)]), v)
  {
    BlockStampsOne(BumpBlock(b, v));
    StampLinesAt(b.lines, v);
  }
}
