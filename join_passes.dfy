/**
 * The join loops of `updateNode`, one state predicate each, with one lemma
 * per kind of loop step. The syncer's methods take the steps; these lemmas
 * show that every step keeps the state, so that when a loop ends the flat
 * list of children is exactly the join pass of module Joins over the
 * original one, and no flow container is left empty.
 */
module JoinPasses {

  import opened Results
  import opened Seqs
  import opened Boxes
  import opened Reconcile
  import opened Joins

  /** The uids of page flows, in order (the page flows recorded as updated). */
  function PageUids(ps: seq<Page>): (r: seq<Uid>)
    ensures |r| == |ps| && forall k :: 0 <= k < |ps| ==> r[k] == ps[k].uid
  {
    seq(|ps|, k requires 0 <= k < |ps| => ps[k].uid)
  }

  /**
   * The uids of line flows, in order. Page and line flow boxes are distinct
   * datatypes with no common type to project a uid from, hence the twin of PageUids.
   */
  function LineUids(ls: seq<Line>): (r: seq<Uid>)
    ensures |r| == |ls| && forall k :: 0 <= k < |ls| ==> r[k] == ls[k].uid
  {
    seq(|ls|, k requires 0 <= k < |ls| => ls[k].uid)
  }

  /** On flat lists: merging the block at `f` into the one before it is one step of the join pass. */
  lemma JoinBlockRunsMergeStep(fs: seq<Block>, f: nat, fs0: seq<Block>, g: nat, v: int)
    requires 0 < f < |fs| && g <= |fs0|
    requires fs[..f] == JoinBlockRuns(fs0[..g], v) && fs[f..] == fs0[g..]
    requires fs[f - 1].id == fs[f].id
    ensures g < |fs0|
    ensures var r := fs[..f - 1] + [BumpBlock(JoinBlocks(fs[f - 1], fs[f]), v)] + fs[f + 1..];
      r[..f] == JoinBlockRuns(fs0[..g + 1], v) && r[f..] == fs0[g + 1..]
  {
    SuffixStep(fs, f, fs0, g);
    JoinBlockRunsSnoc(fs0[..g], fs0[g], v);
    PushBlockMerge(fs, f, v);
    ReplacedPairParts(fs, f, BumpBlock(JoinBlocks(fs[f - 1], fs[f]), v));
  }

  /** Pushing the block at `f` onto the ones before it joins it into the one before. */
  lemma PushBlockMerge(fs: seq<Block>, f: nat, v: int)
    requires 0 < f < |fs| && fs[f - 1].id == fs[f].id
    ensures PushBlock(fs[..f], fs[f], v) == fs[..f - 1] + [BumpBlock(JoinBlocks(fs[f - 1], fs[f]), v)]
  {
    assert fs[..f][..f - 1] == fs[..f - 1];
  }

  /** Pushing the block at `f` onto the ones before it, when the one before mirrors another node, appends it. */
  lemma PushBlockKeep(fs: seq<Block>, f: nat, v: int)
    requires f < |fs| && (f == 0 || fs[f - 1].id != fs[f].id)
    ensures PushBlock(fs[..f], fs[f], v) == fs[..f] + [fs[f]]
  {
    assert f > 0 ==> fs[..f][f - 1] == fs[f - 1];
  }

  lemma JoinBlockRunsKeepPrefix(fs: seq<Block>, f: nat, fs0: seq<Block>, g: nat, v: int)
    requires f < |fs| && g <= |fs0|
    requires fs[..f] == JoinBlockRuns(fs0[..g], v) && fs[f..] == fs0[g..]
    requires f == 0 || fs[f - 1].id != fs[f].id
    ensures g < |fs0|
    ensures fs[..f + 1] == JoinBlockRuns(fs0[..g + 1], v)
  {
    SuffixStep(fs, f, fs0, g);
    JoinBlockRunsSnoc(fs0[..g], fs0[g], v);
    PushBlockKeep(fs, f, v);
  }

  /** On flat lists: keeping the block at `f` is one step of the join pass. */
  lemma JoinBlockRunsKeepStep(fs: seq<Block>, f: nat, fs0: seq<Block>, g: nat, v: int)
    requires f < |fs| && g <= |fs0|
    requires fs[..f] == JoinBlockRuns(fs0[..g], v) && fs[f..] == fs0[g..]
    requires f == 0 || fs[f - 1].id != fs[f].id
    ensures g < |fs0|
    ensures fs[..f + 1] == JoinBlockRuns(fs0[..g + 1], v)
    ensures fs[f + 1..] == fs0[g + 1..]
  {
    JoinBlockRunsKeepPrefix(fs, f, fs0, g, v);
    SuffixStep(fs, f, fs0, g);
  }

  /** On flat lists: merging the inline at `f` into the one before it is one step of the join pass. */
  lemma JoinInlineRunsMergeStep(fs: seq<Inline>, f: nat, fs0: seq<Inline>, g: nat)
    requires 0 < f < |fs| && g <= |fs0|
    requires fs[..f] == JoinInlineRuns(fs0[..g]) && fs[f..] == fs0[g..]
    requires fs[f - 1].id == fs[f].id
    ensures g < |fs0|
    ensures var r := fs[..f - 1] + [JoinInlines(fs[f - 1], fs[f])] + fs[f + 1..];
      r[..f] == JoinInlineRuns(fs0[..g + 1]) && r[f..] == fs0[g + 1..]
  {
    SuffixStep(fs, f, fs0, g);
    JoinInlineRunsSnoc(fs0[..g], fs0[g]);
    PushInlineMerge(fs, f);
    ReplacedPairParts(fs, f, JoinInlines(fs[f - 1], fs[f]));
  }

  /** Pushing the inline at `f` onto the ones before it joins it into the one before. */
  lemma PushInlineMerge(fs: seq<Inline>, f: nat)
    requires 0 < f < |fs| && fs[f - 1].id == fs[f].id
    ensures PushInline(fs[..f], fs[f]) == fs[..f - 1] + [JoinInlines(fs[f - 1], fs[f])]
  {
    assert fs[..f][..f - 1] == fs[..f - 1];
  }

  /** Pushing the inline at `f` onto the ones before it, when the one before mirrors another node, appends it. */
  lemma PushInlineKeep(fs: seq<Inline>, f: nat)
    requires f < |fs| && (f == 0 || fs[f - 1].id != fs[f].id)
    ensures PushInline(fs[..f], fs[f]) == fs[..f] + [fs[f]]
  {
    assert f > 0 ==> fs[..f][f - 1] == fs[f - 1];
  }

  lemma JoinInlineRunsKeepPrefix(fs: seq<Inline>, f: nat, fs0: seq<Inline>, g: nat)
    requires f < |fs| && g <= |fs0|
    requires fs[..f] == JoinInlineRuns(fs0[..g]) && fs[f..] == fs0[g..]
    requires f == 0 || fs[f - 1].id != fs[f].id
    ensures g < |fs0|
    ensures fs[..f + 1] == JoinInlineRuns(fs0[..g + 1])
  {
    SuffixStep(fs, f, fs0, g);
    JoinInlineRunsSnoc(fs0[..g], fs0[g]);
    PushInlineKeep(fs, f);
  }

  /** On flat lists: keeping the inline at `f` is one step of the join pass. */
  lemma JoinInlineRunsKeepStep(fs: seq<Inline>, f: nat, fs0: seq<Inline>, g: nat)
    requires f < |fs| && g <= |fs0|
    requires fs[..f] == JoinInlineRuns(fs0[..g]) && fs[f..] == fs0[g..]
    requires f == 0 || fs[f - 1].id != fs[f].id
    ensures g < |fs0|
    ensures fs[..f + 1] == JoinInlineRuns(fs0[..g + 1])
    ensures fs[f + 1..] == fs0[g + 1..]
  {
    JoinInlineRunsKeepPrefix(fs, f, fs0, g);
    SuffixStep(fs, f, fs0, g);
  }

  /** On flat lists: merging the atomic box at `f` into the one before it is one step of the join pass. */
  lemma JoinAtomicRunsMergeStep(fs: seq<Atomic>, f: nat, fs0: seq<Atomic>, g: nat)
    requires 0 < f < |fs| && g <= |fs0|
    requires fs[..f] == JoinAtomicRuns(fs0[..g]) && fs[f..] == fs0[g..]
    requires fs[f - 1].id == fs[f].id
    ensures g < |fs0|
    ensures var r := fs[..f - 1] + [JoinAtomics(fs[f - 1], fs[f])] + fs[f + 1..];
      r[..f] == JoinAtomicRuns(fs0[..g + 1]) && r[f..] == fs0[g + 1..]
  {
    SuffixStep(fs, f, fs0, g);
    JoinAtomicRunsSnoc(fs0[..g], fs0[g]);
    PushAtomicMerge(fs, f);
    ReplacedPairParts(fs, f, JoinAtomics(fs[f - 1], fs[f]));
  }

  /** Pushing the atomic box at `f` onto the ones before it joins it into the one before. */
  lemma PushAtomicMerge(fs: seq<Atomic>, f: nat)
    requires 0 < f < |fs| && fs[f - 1].id == fs[f].id
    ensures PushAtomic(fs[..f], fs[f]) == fs[..f - 1] + [JoinAtomics(fs[f - 1], fs[f])]
  {
    assert fs[..f][..f - 1] == fs[..f - 1];
  }

  /** Pushing the atomic box at `f` onto the ones before it, when the one before mirrors another node, appends it. */
  lemma PushAtomicKeep(fs: seq<Atomic>, f: nat)
    requires f < |fs| && (f == 0 || fs[f - 1].id != fs[f].id)
    ensures PushAtomic(fs[..f], fs[f]) == fs[..f] + [fs[f]]
  {
    assert f > 0 ==> fs[..f][f - 1] == fs[f - 1];
  }

  lemma JoinAtomicRunsKeepPrefix(fs: seq<Atomic>, f: nat, fs0: seq<Atomic>, g: nat)
    requires f < |fs| && g <= |fs0|
    requires fs[..f] == JoinAtomicRuns(fs0[..g]) && fs[f..] == fs0[g..]
    requires f == 0 || fs[f - 1].id != fs[f].id
    ensures g < |fs0|
    ensures fs[..f + 1] == JoinAtomicRuns(fs0[..g + 1])
  {
    SuffixStep(fs, f, fs0, g);
    JoinAtomicRunsSnoc(fs0[..g], fs0[g]);
    PushAtomicKeep(fs, f);
  }

  /** On flat lists: keeping the atomic box at `f` is one step of the join pass. */
  lemma JoinAtomicRunsKeepStep(fs: seq<Atomic>, f: nat, fs0: seq<Atomic>, g: nat)
    requires f < |fs| && g <= |fs0|
    requires fs[..f] == JoinAtomicRuns(fs0[..g]) && fs[f..] == fs0[g..]
    requires f == 0 || fs[f - 1].id != fs[f].id
    ensures g < |fs0|
    ensures fs[..f + 1] == JoinAtomicRuns(fs0[..g + 1])
    ensures fs[f + 1..] == fs0[g + 1..]
  {
    JoinAtomicRunsKeepPrefix(fs, f, fs0, g);
    SuffixStep(fs, f, fs0, g);
  }
  /**
   * The join-pass state of `updateNode` on an Inline box after visiting
   * `n` atomic boxes: those form the join of the first `g` original atomic
   * boxes, the rest are the original ones still to visit, and the last
   * kept atomic box is remembered.
   */
  ghost predicate InlineJoinState(fs0: seq<Atomic>, ats: seq<Atomic>, n: nat, g: nat, last: Option<Atomic>)
  {
    && n <= |ats| && g <= |fs0|
    && ats[..n] == JoinAtomicRuns(fs0[..g]) && ats[n..] == fs0[g..]
    && last == (if n == 0 then None else Some(ats[n - 1]))
  }

  /** An atomic box not mirroring the same render node as `last` is kept and becomes `last`. */
  lemma InlineJoinStateKeep(fs0: seq<Atomic>, ats: seq<Atomic>, n: nat, g: nat, last: Option<Atomic>)
    requires InlineJoinState(fs0, ats, n, g, last) && n < |ats|
    requires last.None? || last.value.id != ats[n].id
    ensures InlineJoinState(fs0, ats, n + 1, g + 1, Some(ats[n]))
  {
    JoinAtomicRunsKeepStep(ats, n, fs0, g);
  }

  /**
   * An atomic box mirroring the same render node as `last` is joined into
   * it and removed; the position stays where it is.
   */
  lemma InlineJoinStateMerge(fs0: seq<Atomic>, ats: seq<Atomic>, n: nat, g: nat, last: Option<Atomic>)
    requires InlineJoinState(fs0, ats, n, g, last) && n < |ats|
    requires last.Some? && last.value.id == ats[n].id
    ensures n > 0
    ensures var r := RemoveAt(ats[n - 1 := JoinAtomics(ats[n - 1], ats[n])], n);
      InlineJoinState(fs0, r, n, g + 1, Some(JoinAtomics(ats[n - 1], ats[n])))
  {
    var x := JoinAtomics(ats[n - 1], ats[n]);
    JoinAtomicRunsMergeStep(ats, n, fs0, g);
    ReplacedPairParts(ats, n, x);
    assert RemoveAt(ats[n - 1 := x], n) == ats[..n - 1] + [x] + ats[n + 1..];
  }


  /**
   * The state of the Doc-level join loop of `updateNode` at page flow `n`,
   * block `m`. On the flat list of blocks, the ones before that position
   * are the join pass over the first `g` original ones, the ones from it on
   * are the original ones not yet visited, and `last` (`lastChild`) is the
   * block kept just before the position. The page flows before `n` are not empty.
   */
  ghost predicate DocJoinState(fs0: seq<Block>, ps: seq<Page>, n: nat, m: nat, g: nat, last: Option<Block>, v: int)
  {
    DocJoinStateParts(fs0, ps, n, m, g, last, v)
  }

  /** The clauses of DocJoinState. */
  ghost predicate DocJoinStateParts(fs0: seq<Block>, ps: seq<Page>, n: nat, m: nat, g: nat, last: Option<Block>, v: int)
  {
    && n <= |ps| && (n < |ps| ==> m <= |ps[n].blocks|) && (n == |ps| ==> m == 0)
    && PagesNonEmpty(ps[..n])
    && BlockRunsAt(fs0, PagesBlocks(ps), FlatIndex(ps, n, m), g, last, v)
  }

  /**
   * On a flat list `fs` of blocks: the ones before position `f` are the join
   * pass over the first `g` of `fs0`, the ones from it on are the rest of
   * `fs0`, and `last` is the block just before the position.
   */
  ghost predicate BlockRunsAt(fs0: seq<Block>, fs: seq<Block>, f: nat, g: nat, last: Option<Block>, v: int)
  {
    && g <= |fs0| && f <= |fs|
    && fs[..f] == JoinBlockRuns(fs0[..g], v) && fs[f..] == fs0[g..]
    && last == (if f == 0 then None else Some(fs[f - 1]))
  }

  /** On a flat list: keeping a block not mirroring the same render node as `last`. */
  lemma BlockRunsAtKeep(fs0: seq<Block>, fs: seq<Block>, f: nat, g: nat, last: Option<Block>, v: int)
    requires BlockRunsAt(fs0, fs, f, g, last, v) && f < |fs|
    requires last.None? || last.value.id != fs[f].id
    ensures BlockRunsAt(fs0, fs, f + 1, g + 1, Some(fs[f]), v)
  {
    JoinBlockRunsKeepStep(fs, f, fs0, g, v);
  }

  lemma DocJoinStateStart(ps: seq<Page>, v: int)
    ensures DocJoinState(PagesBlocks(ps), ps, 0, 0, 0, None, v)
  {
    assert ps[..0] == [];
  }

  /** A block not mirroring the same render node as `last` is kept and becomes `last`. */
  lemma DocJoinStateKeep(fs0: seq<Block>, ps: seq<Page>, n: nat, m: nat, g: nat, last: Option<Block>, v: int)
    requires DocJoinState(fs0, ps, n, m, g, last, v)
    requires n < |ps| && m < |ps[n].blocks|
    requires last.None? || last.value.id != ps[n].blocks[m].id
    ensures DocJoinState(fs0, ps, n, m + 1, g + 1, Some(ps[n].blocks[m]), v)
  {
    var fs, f := PagesBlocks(ps), FlatIndex(ps, n, m);
    PagesBlocksAt(ps, n, m);
    BlockRunsAtKeep(fs0, fs, f, g, last, v);
    assert FlatIndex(ps, n, m + 1) == f + 1;
  }

  /** The block before the position is in the same page flow or, at its start, ends the page flow before. */
  lemma DocJoinStateMergeAt(fs0: seq<Block>, ps: seq<Page>, n: nat, m: nat, g: nat, last: Option<Block>, v: int)
    requires DocJoinState(fs0, ps, n, m, g, last, v)
    requires n < |ps| && m < |ps[n].blocks| && last.Some?
    ensures m > 0 || (n > 0 && ps[n - 1].blocks != [])
  {
    if m == 0 {
      assert PagesBlocks(ps[..n]) != [];
      assert ps[..n] != [];
      assert ps[..n][n - 1] == ps[n - 1];
    }
  }

  lemma DocJoinStateMergeFlat(fs0: seq<Block>, ps: seq<Page>, n: nat, m: nat, g: nat, last: Option<Block>, v: int)
    requires DocJoinState(fs0, ps, n, m, g, last, v)
    requires n < |ps| && m < |ps[n].blocks|
    requires m > 0 || (n > 0 && ps[n - 1].blocks != [])
    requires last.Some? && last.value.id == ps[n].blocks[m].id
    ensures g < |fs0|
    ensures var r := JoinBlockIntoPrev(ps, n, m, v);
      var f := FlatIndex(r, n, m);
      && f == FlatIndex(ps, n, m)
      && 0 < f <= |PagesBlocks(r)|
      && PagesBlocks(r)[..f] == JoinBlockRuns(fs0[..g + 1], v)
      && PagesBlocks(r)[f..] == fs0[g + 1..]
      && PagesBlocks(r)[f - 1] == BumpBlock(JoinBlocks(last.value, ps[n].blocks[m]), v)
  {
    var fs := PagesBlocks(ps);
    var f := FlatIndex(ps, n, m);
    JoinBlockIntoPrevFlat(ps, n, m, v);
    JoinBlockRunsMergeStep(fs, f, fs0, g, v);
    ReplacedPairParts(fs, f, BumpBlock(JoinBlocks(fs[f - 1], fs[f]), v));
  }

  lemma DocJoinStateMergeFrame(ps: seq<Page>, n: nat, m: nat, v: int)
    requires n < |ps| && m < |ps[n].blocks|
    requires m > 0 || (n > 0 && ps[n - 1].blocks != [])
    requires PagesNonEmpty(ps[..n])
    ensures PagesNonEmpty(JoinBlockIntoPrev(ps, n, m, v)[..n])
    ensures PageUids(JoinBlockIntoPrev(ps, n, m, v)[..n]) == PageUids(ps[..n])
  {
    var r := JoinBlockIntoPrev(ps, n, m, v);
    var q := r[..n];
    forall k | 0 <= k < n
      ensures q[k].blocks != []
    {
      assert q[k] == r[k] && ps[..n][k] == ps[k];
    }
  }

  /**
   * A block mirroring the same render node as `last` is joined into it, which is bumped to version `v`;
   * the position stays where it is (the loop's rewind) and `last` is the joined block.
   */
  lemma DocJoinStateMerge(fs0: seq<Block>, ps: seq<Page>, n: nat, m: nat, g: nat, last: Option<Block>, v: int)
    requires DocJoinState(fs0, ps, n, m, g, last, v)
    requires n < |ps| && m < |ps[n].blocks|
    requires last.Some? && last.value.id == ps[n].blocks[m].id
    ensures m > 0 || (n > 0 && ps[n - 1].blocks != [])
    ensures DocJoinState(fs0, JoinBlockIntoPrev(ps, n, m, v), n, m, g + 1, Some(BumpBlock(JoinBlocks(last.value, ps[n].blocks[m]), v)), v)
    ensures PageUids(JoinBlockIntoPrev(ps, n, m, v)[..n]) == PageUids(ps[..n])
  {
    DocJoinStateMergeAt(fs0, ps, n, m, g, last, v);
    DocJoinStateMergeFlat(fs0, ps, n, m, g, last, v);
    DocJoinStateMergeFrame(ps, n, m, v);
  }

  /** An empty page flow at the end of its visit is deleted; the position does not move. */
  lemma DocJoinStateDrop(fs0: seq<Block>, ps: seq<Page>, n: nat, m: nat, g: nat, last: Option<Block>, v: int)
    requires DocJoinState(fs0, ps, n, m, g, last, v)
    requires n < |ps| && ps[n].blocks == []
    ensures |ps[..n] + ps[n + 1..]| == |ps| - 1
    ensures DocJoinState(fs0, ps[..n] + ps[n + 1..], n, 0, g, last, v)
    ensures PageUids((ps[..n] + ps[n + 1..])[..n]) == PageUids(ps[..n])
  {
    DropEmptyPage(ps, n);
  }

  /** Any other page flow at the end of its visit is recorded as updated and passed. */
  lemma DocJoinStatePass(fs0: seq<Block>, ps: seq<Page>, n: nat, m: nat, g: nat, last: Option<Block>, v: int)
    requires DocJoinState(fs0, ps, n, m, g, last, v)
    requires n < |ps| && m == |ps[n].blocks| && ps[n].blocks != []
    ensures DocJoinState(fs0, ps, n + 1, 0, g, last, v)
    ensures PageUids(ps[..n + 1]) == PageUids(ps[..n]) + [ps[n].uid]
  {
    PagesBlocksSnoc(ps, n);
    var q := ps[..n + 1];
    assert q == ps[..n] + [ps[n]];
    assert PagesNonEmpty(q) by {
      forall k | 0 <= k < n + 1
        ensures q[k].blocks != []
      {
        if k < n { assert q[k] == ps[..n][k]; }
      }
    }
  }

  /** When the loop has visited every page flow, the flat list is the whole join pass. */
  lemma DocJoinStateDone(fs0: seq<Block>, ps: seq<Page>, n: nat, m: nat, g: nat, last: Option<Block>, v: int)
    requires DocJoinState(fs0, ps, n, m, g, last, v)
    requires n == |ps|
    ensures PagesBlocks(ps) == JoinBlockRuns(fs0, v)
    ensures PagesNonEmpty(ps)
  {
    assert ps[..n] == ps;
    assert fs0[..g] == fs0;
  }

  /**
   * The state of the Block-level join loop of `updateNode` at line flow `n`,
   * inline `m`. On the flat list of inlines, the ones before that position
   * are the join pass over the first `g` original ones, the ones from it on
   * are the original ones not yet visited, and `last` (`lastChild`) is the
   * inline kept just before the position. The line flows before `n` are not empty.
   */
  ghost predicate BlockJoinState(fs0: seq<Inline>, ls: seq<Line>, n: nat, m: nat, g: nat, last: Option<Inline>)
  {
    BlockJoinStateParts(fs0, ls, n, m, g, last)
  }

  /** The clauses of BlockJoinState. */
  ghost predicate BlockJoinStateParts(fs0: seq<Inline>, ls: seq<Line>, n: nat, m: nat, g: nat, last: Option<Inline>)
  {
    && n <= |ls| && (n < |ls| ==> m <= |ls[n].inlines|) && (n == |ls| ==> m == 0)
    && LinesNonEmpty(ls[..n])
    && InlineRunsAt(fs0, LinesInlines(ls), LineFlatIndex(ls, n, m), g, last)
  }

  /** Inline-level analogue of BlockRunsAt. */
  ghost predicate InlineRunsAt(fs0: seq<Inline>, fs: seq<Inline>, f: nat, g: nat, last: Option<Inline>)
  {
    && g <= |fs0| && f <= |fs|
    && fs[..f] == JoinInlineRuns(fs0[..g]) && fs[f..] == fs0[g..]
    && last == (if f == 0 then None else Some(fs[f - 1]))
  }

  /** On a flat list: keeping an inline not mirroring the same render node as `last`. */
  lemma InlineRunsAtKeep(fs0: seq<Inline>, fs: seq<Inline>, f: nat, g: nat, last: Option<Inline>)
    requires InlineRunsAt(fs0, fs, f, g, last) && f < |fs|
    requires last.None? || last.value.id != fs[f].id
    ensures InlineRunsAt(fs0, fs, f + 1, g + 1, Some(fs[f]))
  {
    JoinInlineRunsKeepStep(fs, f, fs0, g);
  }

  lemma BlockJoinStateStart(ls: seq<Line>)
    ensures BlockJoinState(LinesInlines(ls), ls, 0, 0, 0, None)
  {
    assert ls[..0] == [];
  }

  /** A inline not mirroring the same render node as `last` is kept and becomes `last`. */
  lemma BlockJoinStateKeep(fs0: seq<Inline>, ls: seq<Line>, n: nat, m: nat, g: nat, last: Option<Inline>)
    requires BlockJoinState(fs0, ls, n, m, g, last)
    requires n < |ls| && m < |ls[n].inlines|
    requires last.None? || last.value.id != ls[n].inlines[m].id
    ensures BlockJoinState(fs0, ls, n, m + 1, g + 1, Some(ls[n].inlines[m]))
  {
    var fs, f := LinesInlines(ls), LineFlatIndex(ls, n, m);
    LinesInlinesAt(ls, n, m);
    InlineRunsAtKeep(fs0, fs, f, g, last);
    assert LineFlatIndex(ls, n, m + 1) == f + 1;
  }

  /** The inline before the position is in the same line flow or, at its start, ends the line flow before. */
  lemma BlockJoinStateMergeAt(fs0: seq<Inline>, ls: seq<Line>, n: nat, m: nat, g: nat, last: Option<Inline>)
    requires BlockJoinState(fs0, ls, n, m, g, last)
    requires n < |ls| && m < |ls[n].inlines| && last.Some?
    ensures m > 0 || (n > 0 && ls[n - 1].inlines != [])
  {
    if m == 0 {
      assert LinesInlines(ls[..n]) != [];
      assert ls[..n] != [];
      assert ls[..n][n - 1] == ls[n - 1];
    }
  }

  lemma BlockJoinStateMergeFlat(fs0: seq<Inline>, ls: seq<Line>, n: nat, m: nat, g: nat, last: Option<Inline>)
    requires BlockJoinState(fs0, ls, n, m, g, last)
    requires n < |ls| && m < |ls[n].inlines|
    requires m > 0 || (n > 0 && ls[n - 1].inlines != [])
    requires last.Some? && last.value.id == ls[n].inlines[m].id
    ensures g < |fs0|
    ensures var r := JoinInlineIntoPrev(ls, n, m);
      var f := LineFlatIndex(r, n, m);
      && f == LineFlatIndex(ls, n, m)
      && 0 < f <= |LinesInlines(r)|
      && LinesInlines(r)[..f] == JoinInlineRuns(fs0[..g + 1])
      && LinesInlines(r)[f..] == fs0[g + 1..]
      && LinesInlines(r)[f - 1] == JoinInlines(last.value, ls[n].inlines[m])
  {
    var fs := LinesInlines(ls);
    var f := LineFlatIndex(ls, n, m);
    JoinInlineIntoPrevFlat(ls, n, m);
    JoinInlineRunsMergeStep(fs, f, fs0, g);
    ReplacedPairParts(fs, f, JoinInlines(fs[f - 1], fs[f]));
  }

  lemma BlockJoinStateMergeFrame(ls: seq<Line>, n: nat, m: nat)
    requires n < |ls| && m < |ls[n].inlines|
    requires m > 0 || (n > 0 && ls[n - 1].inlines != [])
    requires LinesNonEmpty(ls[..n])
    ensures LinesNonEmpty(JoinInlineIntoPrev(ls, n, m)[..n])
    ensures LineUids(JoinInlineIntoPrev(ls, n, m)[..n]) == LineUids(ls[..n])
  {
    var r := JoinInlineIntoPrev(ls, n, m);
    var q := r[..n];
    forall k | 0 <= k < n
      ensures q[k].inlines != []
    {
      assert q[k] == r[k] && ls[..n][k] == ls[k];
    }
  }

  /**
   * A inline mirroring the same render node as `last` is joined into it;
   * the position stays where it is (the loop's rewind) and `last` is the joined inline.
   */
  lemma BlockJoinStateMerge(fs0: seq<Inline>, ls: seq<Line>, n: nat, m: nat, g: nat, last: Option<Inline>)
    requires BlockJoinState(fs0, ls, n, m, g, last)
    requires n < |ls| && m < |ls[n].inlines|
    requires last.Some? && last.value.id == ls[n].inlines[m].id
    ensures m > 0 || (n > 0 && ls[n - 1].inlines != [])
    ensures BlockJoinState(fs0, JoinInlineIntoPrev(ls, n, m), n, m, g + 1, Some(JoinInlines(last.value, ls[n].inlines[m])))
    ensures LineUids(JoinInlineIntoPrev(ls, n, m)[..n]) == LineUids(ls[..n])
  {
    BlockJoinStateMergeAt(fs0, ls, n, m, g, last);
    BlockJoinStateMergeFlat(fs0, ls, n, m, g, last);
    BlockJoinStateMergeFrame(ls, n, m);
  }

  /** An empty line flow at the end of its visit is deleted; the position does not move. */
  lemma BlockJoinStateDrop(fs0: seq<Inline>, ls: seq<Line>, n: nat, m: nat, g: nat, last: Option<Inline>)
    requires BlockJoinState(fs0, ls, n, m, g, last)
    requires n < |ls| && ls[n].inlines == []
    ensures |ls[..n] + ls[n + 1..]| == |ls| - 1
    ensures BlockJoinState(fs0, ls[..n] + ls[n + 1..], n, 0, g, last)
    ensures LineUids((ls[..n] + ls[n + 1..])[..n]) == LineUids(ls[..n])
  {
    DropEmptyLine(ls, n);
  }

  /** Any other line flow at the end of its visit is recorded as updated and passed. */
  lemma BlockJoinStatePass(fs0: seq<Inline>, ls: seq<Line>, n: nat, m: nat, g: nat, last: Option<Inline>)
    requires BlockJoinState(fs0, ls, n, m, g, last)
    requires n < |ls| && m == |ls[n].inlines| && ls[n].inlines != []
    ensures BlockJoinState(fs0, ls, n + 1, 0, g, last)
    ensures LineUids(ls[..n + 1]) == LineUids(ls[..n]) + [ls[n].uid]
  {
    LinesInlinesSnoc(ls, n);
    var q := ls[..n + 1];
    assert q == ls[..n] + [ls[n]];
    assert LinesNonEmpty(q) by {
      forall k | 0 <= k < n + 1
        ensures q[k].inlines != []
      {
        if k < n { assert q[k] == ls[..n][k]; }
      }
    }
  }

  /** When the loop has visited every line flow, the flat list is the whole join pass. */
  lemma BlockJoinStateDone(fs0: seq<Inline>, ls: seq<Line>, n: nat, m: nat, g: nat, last: Option<Inline>)
    requires BlockJoinState(fs0, ls, n, m, g, last)
    requires n == |ls|
    ensures LinesInlines(ls) == JoinInlineRuns(fs0)
    ensures LinesNonEmpty(ls)
  {
    assert ls[..n] == ls;
    assert fs0[..g] == fs0;
  }
  // ---- which flows survive a join pass

  /**
   * `a` is `b` less some of its elements, in order: `idx` sends each
   * element of `a` to the position in `b` it came from.
   */
  ghost predicate Embeds<T>(a: seq<T>, b: seq<T>, idx: seq<nat>)
  {
    && |idx| == |a|
    && (forall i :: 0 <= i < |a| ==> idx[i] < |b| && a[i] == b[idx[i]])
    && (forall i, j :: 0 <= i < j < |a| ==> idx[i] < idx[j])
  }

  /** The page flows `ps` are page flows of `ps0` with their uids and versions, in order. */
  ghost predicate PagesSurvive(ps: seq<Page>, ps0: seq<Page>)
  {
    exists idx :: Embeds(PageShells(ps), PageShells(ps0), idx)
  }

  /** The line flows `ls` are line flows of `ls0` with their uids, versions and widths, in order. */
  ghost predicate LinesSurvive(ls: seq<Line>, ls0: seq<Line>)
  {
    exists idx :: Embeds(LineShells(ls), LineShells(ls0), idx)
  }

  /**
   * The state of an update loop before flow `n`, on the flows' shells:
   * `d` flows of `a0` have been dropped, those before `n` are embedded by
   * `idx` in the first `n + d` of `a0`, and those from `n` on are the
   * flows of `a0` from `n + d` on.
   */
  ghost predicate Surviving<T>(a0: seq<T>, a: seq<T>, n: nat, d: nat, idx: seq<nat>)
  {
    && n <= |a| && |a| + d == |a0| && |idx| == n
    && (forall i :: 0 <= i < n ==> idx[i] < n + d && a[i] == a0[idx[i]])
    && (forall i, j :: 0 <= i < j < n ==> idx[i] < idx[j])
    && a[n..] == a0[n + d..]
  }

  lemma SurvivingStart<T>(a0: seq<T>)
    ensures Surviving(a0, a0, 0, 0, [])
  {
  }

  /** Flow `n` is dropped: one more flow of `a0` is missing. */
  lemma SurvivingDrop<T>(a0: seq<T>, a: seq<T>, a': seq<T>, n: nat, d: nat, d': nat, idx: seq<nat>)
    requires Surviving(a0, a, n, d, idx) && n < |a| && a' == a[..n] + a[n + 1..] && d' == d + 1
    ensures Surviving(a0, a', n, d', idx)
  {
    assert a'[n..] == a[n + 1..];
    assert a0[n + d + 1..] == a0[n + d..][1..];
    forall i | 0 <= i < n
      ensures a'[i] == a0[idx[i]]
    {
      assert a'[i] == a[i];
    }
  }

  /** Flow `n` is kept: it is flow `n + d` of `a0`. */
  lemma SurvivingPass<T>(a0: seq<T>, a: seq<T>, n: nat, n': nat, d: nat, idx: seq<nat>, idx': seq<nat>)
    requires Surviving(a0, a, n, d, idx) && n < |a| && n' == n + 1 && idx' == idx + [n + d]
    ensures Surviving(a0, a, n', d, idx')
  {
    assert a[n] == a[n..][0] == a0[n + d..][0] == a0[n + d];
    assert a[n + 1..] == a[n..][1..];
    assert a0[n + d + 1..] == a0[n + d..][1..];
  }

  /** When every flow is visited, the flows left are flows of `a0`, in order. */
  lemma SurvivingDone<T>(a0: seq<T>, a: seq<T>, n: nat, d: nat, idx: seq<nat>)
    requires Surviving(a0, a, n, d, idx) && n == |a|
    ensures Embeds(a, a0, idx)
  {
  }
}
