/**
 * Where the reconciler puts a box it inserts and what deleting one does,
 * stated as functions on the box tree, with the lemmas that give their
 * meaning on the logical (flow-flattened) child lists. The syncer's methods
 * are proved to compute exactly these functions.
 */
module Reconcile {

  import opened Results
  import opened Seqs
  import opened Boxes
  import opened Joins

  /** The version a newly built flow container starts with. */
  const InitialVersion := 0

  function BlockUids(bs: seq<Block>): (r: seq<Uid>)
    ensures |r| == |bs| && forall k :: 0 <= k < |bs| ==> r[k] == bs[k].uid
  {
    seq(|bs|, k requires 0 <= k < |bs| => bs[k].uid)
  }


  function InlineUids(ins: seq<Inline>): (r: seq<Uid>)
    ensures |r| == |ins| && forall k :: 0 <= k < |ins| ==> r[k] == ins[k].uid
  {
    seq(|ins|, k requires 0 <= k < |ins| => ins[k].uid)
  }


  function AtomicUids(ats: seq<Atomic>): (r: seq<Uid>)
    ensures |r| == |ats| && forall k :: 0 <= k < |ats| ==> r[k] == ats[k].uid
  {
    seq(|ats|, k requires 0 <= k < |ats| => ats[k].uid)
  }


  lemma BlockUidsAppend(a: seq<Block>, b: seq<Block>)
    ensures BlockUids(a + b) == BlockUids(a) + BlockUids(b)
  {
    assert BlockUids(a + b) == BlockUids(a) + BlockUids(b);
  }


  lemma InlineUidsAppend(a: seq<Inline>, b: seq<Inline>)
    ensures InlineUids(a + b) == InlineUids(a) + InlineUids(b)
  {
    assert InlineUids(a + b) == InlineUids(a) + InlineUids(b);
  }


  predicate PagesNonEmpty(ps: seq<Page>)
  {
    forall k :: 0 <= k < |ps| ==> ps[k].blocks != []
  }

  predicate LinesNonEmpty(ls: seq<Line>)
  {
    forall k :: 0 <= k < |ls| ==> ls[k].inlines != []
  }

  // ---------------------------------------------------------------- insert

  /**
   * The page flows after inserting block `b` at logical offset `offset`: it
   * goes into the first page flow whose blocks, counted with those before
   * it, reach the offset; when there is none, a new page flow holding only
   * `b` is appended.
   */
  function InsertIntoPages(ps: seq<Page>, offset: nat, b: Block, newUid: Uid): seq<Page>
    decreases |ps|
  {
    if ps == [] then [Page(newUid, InitialVersion, [b])]
    else if |ps[0].blocks| >= offset then [ps[0].(blocks := InsertAt(ps[0].blocks, offset, b))] + ps[1..]
    else [ps[0]] + InsertIntoPages(ps[1..], offset - |ps[0].blocks|, b, newUid)
  }

  /** The uid of the page flow that receives the block (recorded as touched). */
  function InsertPageUid(ps: seq<Page>, offset: nat, newUid: Uid): Uid
    decreases |ps|
  {
    if ps == [] then newUid
    else if |ps[0].blocks| >= offset then ps[0].uid
    else InsertPageUid(ps[1..], offset - |ps[0].blocks|, newUid)
  }

  /** Splicing into the first part of a concatenation. */
  lemma InsertAtAppend<T>(a: seq<T>, b: seq<T>, offset: nat, x: T)
    requires offset <= |a|
    ensures InsertAt(a, offset, x) + b == InsertAt(a + b, offset, x)
  {
    assert (a + b)[..offset] == a[..offset];
    assert (a + b)[offset..] == a[offset..] + b;
  }

  /**
   * Inserting at a logical offset within range splices the block in at
   * exactly that offset of the Doc box's logical children; past the end it
   * lands last.
   */
  lemma {:induction false} InsertIntoPagesBlocks(ps: seq<Page>, offset: nat, b: Block, newUid: Uid)
    ensures offset <= |PagesBlocks(ps)| ==>
      PagesBlocks(InsertIntoPages(ps, offset, b, newUid)) == InsertAt(PagesBlocks(ps), offset, b)
    ensures offset > |PagesBlocks(ps)| ==>
      PagesBlocks(InsertIntoPages(ps, offset, b, newUid)) == PagesBlocks(ps) + [b]
  {
    if ps == [] {
      assert PagesBlocks([Page(newUid, InitialVersion, [b])]) == [b];
    } else {
      var a := ps[0].blocks;
      var tail := PagesBlocks(ps[1..]);
      assert PagesBlocks(ps) == a + tail;
      InsertIntoPagesCons(ps, offset, b, newUid);
      var rest := tail;
      if |a| < offset {
        InsertIntoPagesBlocks(ps[1..], offset - |a|, b, newUid);
        rest := PagesBlocks(InsertIntoPages(ps[1..], offset - |a|, b, newUid));
      }
      InsertConsStep(a, tail, offset, b, PagesBlocks(InsertIntoPages(ps, offset, b, newUid)), rest);
    }
  }

  /** One step of InsertIntoPages on the logical children. */
  lemma InsertIntoPagesCons(ps: seq<Page>, offset: nat, b: Block, newUid: Uid)
    requires ps != []
    ensures |ps[0].blocks| >= offset ==>
      PagesBlocks(InsertIntoPages(ps, offset, b, newUid)) == InsertAt(ps[0].blocks, offset, b) + PagesBlocks(ps[1..])
    ensures |ps[0].blocks| < offset ==>
      PagesBlocks(InsertIntoPages(ps, offset, b, newUid))
      == ps[0].blocks + PagesBlocks(InsertIntoPages(ps[1..], offset - |ps[0].blocks|, b, newUid))
  {
    var r := InsertIntoPages(ps, offset, b, newUid);
    assert r[1..] == if |ps[0].blocks| >= offset then ps[1..] else InsertIntoPages(ps[1..], offset - |ps[0].blocks|, b, newUid);
  }

  /** Splicing into, or appending after, the second part of a concatenation. */
  lemma InsertAtOrAppend<T>(a: seq<T>, t: seq<T>, o: nat, x: T, y: seq<T>)
    requires y == if o <= |t| then InsertAt(t, o, x) else t + [x]
    ensures |a| + o <= |a + t| ==> a + y == InsertAt(a + t, |a| + o, x)
    ensures |a| + o > |a + t| ==> a + y == (a + t) + [x]
  {
    if o <= |t| {
      InsertAtPrepend(a, t, o, x);
    }
  }

  /** One step of an insertion at a logical offset, seen on the concatenated children. */
  lemma InsertConsStep<T>(a: seq<T>, tail: seq<T>, offset: nat, x: T, r: seq<T>, rest: seq<T>)
    requires |a| >= offset ==> r == InsertAt(a, offset, x) + tail
    requires |a| < offset ==> r == a + rest
    requires |a| < offset ==> rest == if offset - |a| <= |tail| then InsertAt(tail, offset - |a|, x) else tail + [x]
    ensures offset <= |a + tail| ==> r == InsertAt(a + tail, offset, x)
    ensures offset > |a + tail| ==> r == a + tail + [x]
  {
    if |a| >= offset {
      InsertAtAppend(a, tail, offset, x);
    } else {
      InsertAtOrAppend(a, tail, offset - |a|, x, rest);
    }
  }

  /**
   * A page flow is added exactly when no existing one can take the block
   * (there are none, or the offset is past every block); it is then the
   * last page flow and holds only `b`. Otherwise the page flows keep their
   * number. Page flows that had blocks keep having blocks.
   */
  lemma {:induction false} InsertIntoPagesShape(ps: seq<Page>, offset: nat, b: Block, newUid: Uid)
    ensures var r := InsertIntoPages(ps, offset, b, newUid);
      (|r| == |ps| + 1 <==> ps == [] || offset > |PagesBlocks(ps)|)
    ensures var r := InsertIntoPages(ps, offset, b, newUid);
      |r| == |ps| + 1 ==> r == ps + [Page(newUid, InitialVersion, [b])]
    ensures var r := InsertIntoPages(ps, offset, b, newUid);
      |r| == |ps| || |r| == |ps| + 1
    ensures PagesNonEmpty(ps) ==> PagesNonEmpty(InsertIntoPages(ps, offset, b, newUid))
  {
    var r := InsertIntoPages(ps, offset, b, newUid);
    if ps != [] && |ps[0].blocks| < offset {
      var rest := InsertIntoPages(ps[1..], offset - |ps[0].blocks|, b, newUid);
      InsertIntoPagesShape(ps[1..], offset - |ps[0].blocks|, b, newUid);
      assert r == [ps[0]] + rest;
      assert |PagesBlocks(ps)| == |ps[0].blocks| + |PagesBlocks(ps[1..])|;
      if |rest| == |ps[1..]| + 1 {
        assert r == [ps[0]] + ps[1..] + [Page(newUid, InitialVersion, [b])];
        assert ps == [ps[0]] + ps[1..];
      }
      if PagesNonEmpty(ps) {
        assert ps == [ps[0]] + ps[1..];
        PagesNonEmptyCons(ps[0], ps[1..], rest);
      }
    } else if ps != [] {
      assert r[0].blocks[offset] == b;
    }
  }

  lemma PagesNonEmptyCons(p: Page, t: seq<Page>, rest: seq<Page>)
    requires PagesNonEmpty([p] + t) && PagesNonEmpty(rest)
    ensures PagesNonEmpty([p] + rest)
  {
    assert forall k :: 1 <= k < |[p] + rest| ==> ([p] + rest)[k] == rest[k - 1];
    assert ([p] + t)[0] == p;
  }


  /**
   * The page flow recorded as touched is the one that received the block:
   * page flow `k` of the result.
   */
  lemma {:induction false} InsertPageUidSpec(ps: seq<Page>, offset: nat, b: Block, newUid: Uid) returns (k: nat)
    ensures k < |InsertIntoPages(ps, offset, b, newUid)|
    ensures InsertIntoPages(ps, offset, b, newUid)[k].uid == InsertPageUid(ps, offset, newUid)
    ensures b in InsertIntoPages(ps, offset, b, newUid)[k].blocks
  {
    var r := InsertIntoPages(ps, offset, b, newUid);
    if ps == [] {
      k := 0;
      assert r[0].blocks == [b];
    } else if |ps[0].blocks| >= offset {
      k := 0;
      assert r[0].blocks[offset] == b;
    } else {
      var o := offset - |ps[0].blocks|;
      var j := InsertPageUidSpec(ps[1..], o, b, newUid);
      var rest := InsertIntoPages(ps[1..], o, b, newUid);
      assert r == [ps[0]] + rest;
      k := j + 1;
      assert r[k] == rest[j];
    }
  }

  /** Block-box analogue of InsertIntoPages: an inline into the line flows of a block. */
  function InsertIntoLines(ls: seq<Line>, offset: nat, i: Inline, newUid: Uid, width: nat): seq<Line>
    decreases |ls|
  {
    if ls == [] then [Line(newUid, InitialVersion, width, [i])]
    else if |ls[0].inlines| >= offset then [ls[0].(inlines := InsertAt(ls[0].inlines, offset, i))] + ls[1..]
    else [ls[0]] + InsertIntoLines(ls[1..], offset - |ls[0].inlines|, i, newUid, width)
  }

  function InsertLineUid(ls: seq<Line>, offset: nat, newUid: Uid): Uid
    decreases |ls|
  {
    if ls == [] then newUid
    else if |ls[0].inlines| >= offset then ls[0].uid
    else InsertLineUid(ls[1..], offset - |ls[0].inlines|, newUid)
  }

  /** Block-box analogue of InsertIntoPagesBlocks. */
  lemma {:induction false} InsertIntoLinesInlines(ls: seq<Line>, offset: nat, i: Inline, newUid: Uid, width: nat)
    ensures offset <= |LinesInlines(ls)| ==>
      LinesInlines(InsertIntoLines(ls, offset, i, newUid, width)) == InsertAt(LinesInlines(ls), offset, i)
    ensures offset > |LinesInlines(ls)| ==>
      LinesInlines(InsertIntoLines(ls, offset, i, newUid, width)) == LinesInlines(ls) + [i]
  {
    if ls == [] {
      assert LinesInlines([Line(newUid, InitialVersion, width, [i])]) == [i];
    } else {
      var a := ls[0].inlines;
      var tail := LinesInlines(ls[1..]);
      assert LinesInlines(ls) == a + tail;
      InsertIntoLinesCons(ls, offset, i, newUid, width);
      var rest := tail;
      if |a| < offset {
        InsertIntoLinesInlines(ls[1..], offset - |a|, i, newUid, width);
        rest := LinesInlines(InsertIntoLines(ls[1..], offset - |a|, i, newUid, width));
      }
      InsertConsStep(a, tail, offset, i, LinesInlines(InsertIntoLines(ls, offset, i, newUid, width)), rest);
    }
  }

  /** One step of InsertIntoLines on the logical children. */
  lemma InsertIntoLinesCons(ls: seq<Line>, offset: nat, i: Inline, newUid: Uid, width: nat)
    requires ls != []
    ensures |ls[0].inlines| >= offset ==>
      LinesInlines(InsertIntoLines(ls, offset, i, newUid, width)) == InsertAt(ls[0].inlines, offset, i) + LinesInlines(ls[1..])
    ensures |ls[0].inlines| < offset ==>
      LinesInlines(InsertIntoLines(ls, offset, i, newUid, width))
      == ls[0].inlines + LinesInlines(InsertIntoLines(ls[1..], offset - |ls[0].inlines|, i, newUid, width))
  {
    var r := InsertIntoLines(ls, offset, i, newUid, width);
    assert r[1..] == if |ls[0].inlines| >= offset then ls[1..] else InsertIntoLines(ls[1..], offset - |ls[0].inlines|, i, newUid, width);
  }

  /** Block-box analogue of InsertIntoPagesShape; the new line flow has the block's width. */
  lemma {:induction false} InsertIntoLinesShape(ls: seq<Line>, offset: nat, i: Inline, newUid: Uid, width: nat)
    ensures var r := InsertIntoLines(ls, offset, i, newUid, width);
      (|r| == |ls| + 1 <==> ls == [] || offset > |LinesInlines(ls)|)
    ensures var r := InsertIntoLines(ls, offset, i, newUid, width);
      |r| == |ls| + 1 ==> r == ls + [Line(newUid, InitialVersion, width, [i])]
    ensures var r := InsertIntoLines(ls, offset, i, newUid, width);
      |r| == |ls| || |r| == |ls| + 1
    ensures LinesNonEmpty(ls) ==> LinesNonEmpty(InsertIntoLines(ls, offset, i, newUid, width))
  {
    var r := InsertIntoLines(ls, offset, i, newUid, width);
    if ls != [] && |ls[0].inlines| < offset {
      var rest := InsertIntoLines(ls[1..], offset - |ls[0].inlines|, i, newUid, width);
      InsertIntoLinesShape(ls[1..], offset - |ls[0].inlines|, i, newUid, width);
      assert r == [ls[0]] + rest;
      assert |LinesInlines(ls)| == |ls[0].inlines| + |LinesInlines(ls[1..])|;
      if |rest| == |ls[1..]| + 1 {
        assert r == [ls[0]] + ls[1..] + [Line(newUid, InitialVersion, width, [i])];
        assert ls == [ls[0]] + ls[1..];
      }
      if LinesNonEmpty(ls) {
        assert ls == [ls[0]] + ls[1..];
        LinesNonEmptyCons(ls[0], ls[1..], rest);
      }
    } else if ls != [] {
      assert r[0].inlines[offset] == i;
    }
  }

  lemma LinesNonEmptyCons(p: Line, t: seq<Line>, rest: seq<Line>)
    requires LinesNonEmpty([p] + t) && LinesNonEmpty(rest)
    ensures LinesNonEmpty([p] + rest)
  {
    assert forall k :: 1 <= k < |[p] + rest| ==> ([p] + rest)[k] == rest[k - 1];
    assert ([p] + t)[0] == p;
  }


  // ---------------------------------------------------------------- delete

  /** Splicing into the second part of a concatenation. */
  lemma InsertAtPrepend<T>(a: seq<T>, b: seq<T>, offset: nat, x: T)
    requires offset <= |b|
    ensures a + InsertAt(b, offset, x) == InsertAt(a + b, |a| + offset, x)
  {
    assert (a + b)[..|a| + offset] == a + b[..offset];
    assert (a + b)[|a| + offset..] == b[offset..];
  }

  /**
   * The page flows after deleting the block box with uid `uid`: it is taken
   * out of the first page flow holding it, and that page flow is dropped
   * when it has no block left. Also returns the page flow recorded as
   * touched (none when the page flow was dropped or the block not found).
   */
  function DeleteFromPages(ps: seq<Page>, uid: Uid): (seq<Page>, Option<Uid>)
  {
    var n := FirstPageWith(ps, uid);
    if n == |ps| then (ps, None)
    else
      var bs := RemoveAt(ps[n].blocks, IndexOf(BlockUids(ps[n].blocks), uid));
      if bs == [] then (ps[..n] + ps[n + 1..], None)
      else (ps[n := ps[n].(blocks := bs)], Some(ps[n].uid))
  }

  /** Index of the first page flow holding block `uid`, or |ps| when none does. */
  function FirstPageWith(ps: seq<Page>, uid: Uid): (n: nat)
    ensures n <= |ps|
    ensures n < |ps| ==> IndexOf(BlockUids(ps[n].blocks), uid) >= 0
    decreases |ps|
  {
    if ps == [] || IndexOf(BlockUids(ps[0].blocks), uid) >= 0 then 0
    else 1 + FirstPageWith(ps[1..], uid)
  }

  /** No page flow before the one FirstPageWith names holds the block. */
  lemma {:induction false} FirstPageWithMisses(ps: seq<Page>, uid: Uid)
    ensures NotInPages(ps, FirstPageWith(ps, uid), uid)
    decreases |ps|
  {
    if ps != [] && IndexOf(BlockUids(ps[0].blocks), uid) < 0 {
      FirstPageWithMisses(ps[1..], uid);
      NotInPagesCons(ps, FirstPageWith(ps, uid), uid);
    }
  }

  lemma NotInPagesCons(ps: seq<Page>, n: nat, uid: Uid)
    requires 0 < n <= |ps| && IndexOf(BlockUids(ps[0].blocks), uid) < 0 && NotInPages(ps[1..], n - 1, uid)
    ensures NotInPages(ps, n, uid)
  {
    forall j | 0 < j < n ensures IndexOf(BlockUids(ps[j].blocks), uid) < 0 {
      assert ps[j] == ps[1..][j - 1];
    }
  }

  /** The page flow the deleteNode loop stops at is the one FirstPageWith names. */
  lemma FirstPageWithAt(ps: seq<Page>, n: nat, uid: Uid)
    requires n <= |ps| && NotInPages(ps, n, uid)
    requires n < |ps| ==> IndexOf(BlockUids(ps[n].blocks), uid) >= 0
    ensures FirstPageWith(ps, uid) == n
  {
    FirstPageWithMisses(ps, uid);
  }

  /** No page flow before `n` holds block `uid`. */
  predicate NotInPages(ps: seq<Page>, n: nat, uid: Uid)
    requires n <= |ps|
  {
    forall j :: 0 <= j < n ==> IndexOf(BlockUids(ps[j].blocks), uid) < 0
  }

  lemma RemoveAtMiddle<T>(d: seq<T>, s: seq<T>, a: seq<T>, b: seq<T>, c: seq<T>, j: nat)
    requires j < |b| && d == a + RemoveAt(b, j) + c && s == a + b + c
    ensures |a| + j < |s| && d == RemoveAt(s, |a| + j)
  {
    assert s[..|a| + j] == a + b[..j];
    assert s[|a| + j + 1..] == b[j + 1..] + c;
  }

  /** Page flows before `n` that do not hold the block contribute no such logical child. */
  lemma {:induction false} NotInPagesFlat(ps: seq<Page>, n: nat, uid: Uid)
    requires n <= |ps| && NotInPages(ps, n, uid)
    ensures uid !in BlockUids(PagesBlocks(ps[..n]))
    decreases n
  {
    if n > 0 {
      NotInPagesFlat(ps, n - 1, uid);
      PagesBlocksSnoc(ps, n - 1);
      BlockUidsAppend(PagesBlocks(ps[..n - 1]), ps[n - 1].blocks);
    }
  }

  /**
   * The block's position among the Doc box's logical children: absent
   * exactly when no page flow holds it, and otherwise the children of the
   * page flows before the first holder plus its offset there.
   */
  lemma DeleteFromPagesFlatIndex(ps: seq<Page>, uid: Uid)
    ensures var n := FirstPageWith(ps, uid); var k := IndexOf(BlockUids(PagesBlocks(ps)), uid);
      (n == |ps| <==> k < 0)
      && (n < |ps| ==> k == |PagesBlocks(ps[..n])| + IndexOf(BlockUids(ps[n].blocks), uid))
  {
    var n := FirstPageWith(ps, uid);
    FirstPageWithMisses(ps, uid);
    NotInPagesFlat(ps, n, uid);
    if n < |ps| {
      var a, b, c := PagesBlocks(ps[..n]), ps[n].blocks, PagesBlocks(ps[n + 1..]);
      PagesBlocksSplit(ps, n);
      Assoc(a, b, c);
      BlockUidsAppend(a, b + c);
      BlockUidsAppend(b, c);
      IndexOfPast(BlockUids(a), BlockUids(b), BlockUids(c), uid);
    } else {
      assert ps[..n] == ps;
    }
  }

  /**
   * Deleting removes the first logical child with that uid from the Doc
   * box's logical children and nothing else, and changes nothing when no
   * block has that uid.
   */
  lemma DeleteFromPagesBlocks(ps: seq<Page>, uid: Uid)
    ensures var k := IndexOf(BlockUids(PagesBlocks(ps)), uid);
      k >= 0 ==> PagesBlocks(DeleteFromPages(ps, uid).0) == RemoveAt(PagesBlocks(ps), k)
    ensures IndexOf(BlockUids(PagesBlocks(ps)), uid) < 0 ==> DeleteFromPages(ps, uid) == (ps, None)
  {
    DeleteFromPagesFlatIndex(ps, uid);
    var n := FirstPageWith(ps, uid);
    if n < |ps| {
      var j := IndexOf(BlockUids(ps[n].blocks), uid);
      DeleteFromPagesHit(ps, uid);
      PagesBlocksSplit(ps, n);
      RemoveAtMiddle(PagesBlocks(DeleteFromPages(ps, uid).0), PagesBlocks(ps), PagesBlocks(ps[..n]), ps[n].blocks, PagesBlocks(ps[n + 1..]), j);
      assert IndexOf(BlockUids(PagesBlocks(ps)), uid) == |PagesBlocks(ps[..n])| + j;
    } else {
      assert DeleteFromPages(ps, uid) == (ps, None);
    }
  }

  /** The deletion when a page flow holds the uid, on the logical children. */
  lemma DeleteFromPagesHit(ps: seq<Page>, uid: Uid)
    requires FirstPageWith(ps, uid) < |ps|
    ensures var n := FirstPageWith(ps, uid);
      PagesBlocks(DeleteFromPages(ps, uid).0) ==
        PagesBlocks(ps[..n]) + RemoveAt(ps[n].blocks, IndexOf(BlockUids(ps[n].blocks), uid)) + PagesBlocks(ps[n + 1..])
  {
    var n := FirstPageWith(ps, uid);
    var bs := RemoveAt(ps[n].blocks, IndexOf(BlockUids(ps[n].blocks), uid));
    if bs == [] {
      PagesBlocksAppend(ps[..n], ps[n + 1..]);
    } else {
      PagesBlocksUpdate(ps, n, ps[n].(blocks := bs));
    }
  }


  /** Deleting never adds a page flow and never leaves an empty one behind. */
  lemma DeleteFromPagesShape(ps: seq<Page>, uid: Uid)
    ensures |DeleteFromPages(ps, uid).0| <= |ps|
    ensures PagesNonEmpty(ps) ==> PagesNonEmpty(DeleteFromPages(ps, uid).0)
  {
    var n := FirstPageWith(ps, uid);
    var r := DeleteFromPages(ps, uid).0;
    if n < |ps| && PagesNonEmpty(ps) {
      forall k | 0 <= k < |r| ensures r[k].blocks != [] {
        if |r| < |ps| {
          assert r[k] == if k < n then ps[k] else ps[k + 1];
        }
      }
    }
  }

  /** The page flow reported as touched is one that is still there. */
  lemma DeleteFromPagesTouched(ps: seq<Page>, uid: Uid) returns (k: nat)
    requires DeleteFromPages(ps, uid).1.Some?
    ensures k < |DeleteFromPages(ps, uid).0|
    ensures DeleteFromPages(ps, uid).0[k].uid == DeleteFromPages(ps, uid).1.value
  {
    k := FirstPageWith(ps, uid);
  }

  /** Block-box analogue of DeleteFromPages: an inline out of the line flows of a block. */
  function DeleteFromLines(ls: seq<Line>, uid: Uid): (seq<Line>, Option<Uid>)
  {
    var n := FirstLineWith(ls, uid);
    if n == |ls| then (ls, None)
    else
      var ins := RemoveAt(ls[n].inlines, IndexOf(InlineUids(ls[n].inlines), uid));
      if ins == [] then (ls[..n] + ls[n + 1..], None)
      else (ls[n := ls[n].(inlines := ins)], Some(ls[n].uid))
  }

  /** Index of the first line flow holding inline `uid`, or |ls| when none does. */
  function FirstLineWith(ls: seq<Line>, uid: Uid): (n: nat)
    ensures n <= |ls|
    ensures n < |ls| ==> IndexOf(InlineUids(ls[n].inlines), uid) >= 0
    decreases |ls|
  {
    if ls == [] || IndexOf(InlineUids(ls[0].inlines), uid) >= 0 then 0
    else 1 + FirstLineWith(ls[1..], uid)
  }

  /** No line flow before the one FirstLineWith names holds the inline. */
  lemma {:induction false} FirstLineWithMisses(ls: seq<Line>, uid: Uid)
    ensures NotInLines(ls, FirstLineWith(ls, uid), uid)
    decreases |ls|
  {
    if ls != [] && IndexOf(InlineUids(ls[0].inlines), uid) < 0 {
      FirstLineWithMisses(ls[1..], uid);
      NotInLinesCons(ls, FirstLineWith(ls, uid), uid);
    }
  }

  lemma NotInLinesCons(ls: seq<Line>, n: nat, uid: Uid)
    requires 0 < n <= |ls| && IndexOf(InlineUids(ls[0].inlines), uid) < 0 && NotInLines(ls[1..], n - 1, uid)
    ensures NotInLines(ls, n, uid)
  {
    forall j | 0 < j < n ensures IndexOf(InlineUids(ls[j].inlines), uid) < 0 {
      assert ls[j] == ls[1..][j - 1];
    }
  }

  /** The line flow the deleteNode loop stops at is the one FirstLineWith names. */
  lemma FirstLineWithAt(ls: seq<Line>, n: nat, uid: Uid)
    requires n <= |ls| && NotInLines(ls, n, uid)
    requires n < |ls| ==> IndexOf(InlineUids(ls[n].inlines), uid) >= 0
    ensures FirstLineWith(ls, uid) == n
  {
    FirstLineWithMisses(ls, uid);
  }

  /** No line flow before `n` holds inline `uid`. */
  predicate NotInLines(ls: seq<Line>, n: nat, uid: Uid)
    requires n <= |ls|
  {
    forall j :: 0 <= j < n ==> IndexOf(InlineUids(ls[j].inlines), uid) < 0
  }

  /** Line flows before `n` that do not hold the inline contribute no such logical child. */
  lemma {:induction false} NotInLinesFlat(ls: seq<Line>, n: nat, uid: Uid)
    requires n <= |ls| && NotInLines(ls, n, uid)
    ensures uid !in InlineUids(LinesInlines(ls[..n]))
    decreases n
  {
    if n > 0 {
      NotInLinesFlat(ls, n - 1, uid);
      LinesInlinesSnoc(ls, n - 1);
      InlineUidsAppend(LinesInlines(ls[..n - 1]), ls[n - 1].inlines);
    }
  }

  /** Block-box analogue of DeleteFromPagesFlatIndex. */
  lemma DeleteFromLinesFlatIndex(ls: seq<Line>, uid: Uid)
    ensures var n := FirstLineWith(ls, uid); var k := IndexOf(InlineUids(LinesInlines(ls)), uid);
      (n == |ls| <==> k < 0)
      && (n < |ls| ==> k == |LinesInlines(ls[..n])| + IndexOf(InlineUids(ls[n].inlines), uid))
  {
    var n := FirstLineWith(ls, uid);
    FirstLineWithMisses(ls, uid);
    NotInLinesFlat(ls, n, uid);
    if n < |ls| {
      var a, b, c := LinesInlines(ls[..n]), ls[n].inlines, LinesInlines(ls[n + 1..]);
      LinesInlinesSplit(ls, n);
      Assoc(a, b, c);
      InlineUidsAppend(a, b + c);
      InlineUidsAppend(b, c);
      IndexOfPast(InlineUids(a), InlineUids(b), InlineUids(c), uid);
    } else {
      assert ls[..n] == ls;
    }
  }

  /** Block-box analogue of DeleteFromPagesBlocks. */
  lemma DeleteFromLinesInlines(ls: seq<Line>, uid: Uid)
    ensures var k := IndexOf(InlineUids(LinesInlines(ls)), uid);
      k >= 0 ==> LinesInlines(DeleteFromLines(ls, uid).0) == RemoveAt(LinesInlines(ls), k)
    ensures IndexOf(InlineUids(LinesInlines(ls)), uid) < 0 ==> DeleteFromLines(ls, uid) == (ls, None)
  {
    DeleteFromLinesFlatIndex(ls, uid);
    var n := FirstLineWith(ls, uid);
    if n < |ls| {
      var j := IndexOf(InlineUids(ls[n].inlines), uid);
      DeleteFromLinesHit(ls, uid);
      LinesInlinesSplit(ls, n);
      RemoveAtMiddle(LinesInlines(DeleteFromLines(ls, uid).0), LinesInlines(ls), LinesInlines(ls[..n]), ls[n].inlines, LinesInlines(ls[n + 1..]), j);
      assert IndexOf(InlineUids(LinesInlines(ls)), uid) == |LinesInlines(ls[..n])| + j;
    } else {
      assert DeleteFromLines(ls, uid) == (ls, None);
    }
  }

  /** The deletion when a line flow holds the uid, on the logical children. */
  lemma DeleteFromLinesHit(ls: seq<Line>, uid: Uid)
    requires FirstLineWith(ls, uid) < |ls|
    ensures var n := FirstLineWith(ls, uid);
      LinesInlines(DeleteFromLines(ls, uid).0) ==
        LinesInlines(ls[..n]) + RemoveAt(ls[n].inlines, IndexOf(InlineUids(ls[n].inlines), uid)) + LinesInlines(ls[n + 1..])
  {
    var n := FirstLineWith(ls, uid);
    var ins := RemoveAt(ls[n].inlines, IndexOf(InlineUids(ls[n].inlines), uid));
    if ins == [] {
      LinesInlinesAppend(ls[..n], ls[n + 1..]);
    } else {
      LinesInlinesUpdate(ls, n, ls[n].(inlines := ins));
    }
  }


  /** Block-box analogue of DeleteFromPagesShape. */
  lemma DeleteFromLinesShape(ls: seq<Line>, uid: Uid)
    ensures |DeleteFromLines(ls, uid).0| <= |ls|
    ensures LinesNonEmpty(ls) ==> LinesNonEmpty(DeleteFromLines(ls, uid).0)
  {
    var n := FirstLineWith(ls, uid);
    var r := DeleteFromLines(ls, uid).0;
    if n < |ls| && LinesNonEmpty(ls) {
      forall k | 0 <= k < |r| ensures r[k].inlines != [] {
        if |r| < |ls| {
          assert r[k] == if k < n then ls[k] else ls[k + 1];
        }
      }
    }
  }

  /** The line flow reported as touched is one that is still there. */
  lemma DeleteFromLinesTouched(ls: seq<Line>, uid: Uid) returns (k: nat)
    requires DeleteFromLines(ls, uid).1.Some?
    ensures k < |DeleteFromLines(ls, uid).0|
    ensures DeleteFromLines(ls, uid).0[k].uid == DeleteFromLines(ls, uid).1.value
  {
    k := FirstLineWith(ls, uid);
  }

  /** A page flow whose blocks do not reach the offset is passed over. */
  lemma InsertIntoPagesSkip(ps: seq<Page>, n: nat, cum: nat, offset: nat, b: Block, newUid: Uid)
    requires n < |ps| && cum + |ps[n].blocks| < offset
    ensures ps[..n] + InsertIntoPages(ps[n..], offset - cum, b, newUid)
         == ps[..n + 1] + InsertIntoPages(ps[n + 1..], offset - (cum + |ps[n].blocks|), b, newUid)
    ensures InsertPageUid(ps[n..], offset - cum, newUid) == InsertPageUid(ps[n + 1..], offset - (cum + |ps[n].blocks|), newUid)
  {
    assert ps[n..][0] == ps[n] && ps[n..][1..] == ps[n + 1..];
    assert ps[..n + 1] == ps[..n] + [ps[n]];
  }

  /** The first page flow whose blocks reach the offset receives the block. */
  lemma InsertIntoPagesHit(ps: seq<Page>, n: nat, cum: nat, offset: nat, b: Block, newUid: Uid)
    requires n < |ps| && cum <= offset <= cum + |ps[n].blocks|
    ensures ps[..n] + InsertIntoPages(ps[n..], offset - cum, b, newUid)
         == ps[n := ps[n].(blocks := InsertAt(ps[n].blocks, offset - cum, b))]
    ensures InsertPageUid(ps[n..], offset - cum, newUid) == ps[n].uid
  {
    assert ps[n..][0] == ps[n] && ps[n..][1..] == ps[n + 1..];
  }

  /** Past the last page flow, a new one holding just the block is appended. */
  lemma InsertIntoPagesEnd(ps: seq<Page>, offset: nat, b: Block, newUid: Uid)
    ensures ps[..|ps|] + InsertIntoPages(ps[|ps|..], offset, b, newUid) == ps + [Page(newUid, InitialVersion, InsertAt([], 0, b))]
    ensures InsertPageUid(ps[|ps|..], offset, newUid) == newUid
  {
    assert ps[|ps|..] == [] && ps[..|ps|] == ps;
    assert InsertAt([], 0, b) == [b];
  }

  /** InsertIntoPagesSkip for the line flows of a Block box. */
  lemma InsertIntoLinesSkip(ls: seq<Line>, n: nat, cum: nat, offset: nat, i: Inline, newUid: Uid, width: nat)
    requires n < |ls| && cum + |ls[n].inlines| < offset
    ensures ls[..n] + InsertIntoLines(ls[n..], offset - cum, i, newUid, width)
         == ls[..n + 1] + InsertIntoLines(ls[n + 1..], offset - (cum + |ls[n].inlines|), i, newUid, width)
    ensures InsertLineUid(ls[n..], offset - cum, newUid) == InsertLineUid(ls[n + 1..], offset - (cum + |ls[n].inlines|), newUid)
  {
    assert ls[n..][0] == ls[n] && ls[n..][1..] == ls[n + 1..];
    assert ls[..n + 1] == ls[..n] + [ls[n]];
  }

  /** InsertIntoPagesHit for the line flows of a Block box. */
  lemma InsertIntoLinesHit(ls: seq<Line>, n: nat, cum: nat, offset: nat, i: Inline, newUid: Uid, width: nat)
    requires n < |ls| && cum <= offset <= cum + |ls[n].inlines|
    ensures ls[..n] + InsertIntoLines(ls[n..], offset - cum, i, newUid, width)
         == ls[n := ls[n].(inlines := InsertAt(ls[n].inlines, offset - cum, i))]
    ensures InsertLineUid(ls[n..], offset - cum, newUid) == ls[n].uid
  {
    assert ls[n..][0] == ls[n] && ls[n..][1..] == ls[n + 1..];
  }

  /** InsertIntoPagesEnd for the line flows of a Block box. */
  lemma InsertIntoLinesEnd(ls: seq<Line>, offset: nat, i: Inline, newUid: Uid, width: nat)
    ensures ls[..|ls|] + InsertIntoLines(ls[|ls|..], offset, i, newUid, width) == ls + [Line(newUid, InitialVersion, width, InsertAt([], 0, i))]
    ensures InsertLineUid(ls[|ls|..], offset, newUid) == newUid
  {
    assert ls[|ls|..] == [] && ls[..|ls|] == ls;
    assert InsertAt([], 0, i) == [i];
  }

}
