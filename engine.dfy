/**
 * `LayoutEngine`: the object that owns the document box and keeps it in step
 * with the render tree. `sync` runs the tree syncer, then reflows every line
 * flow box and every page flow box the syncer touched, skipping a box that
 * was touched twice in a row, and finally adopts the render tree's version.
 *
 * The engine's boxes are values held in its `doc` field; a box the source
 * holds by reference is found again by its uid. Reflowing a box that is no
 * longer in the document does nothing, as in the source.
 */
module Engine {

  import opened Results
  import opened Seqs
  import opened Boxes
  import opened Versions
  import JoinPasses
  import LineReflow
  import PageReflow
  import Syncer

  // ---------------------------------------------------------------- consecutive duplicates

  /**
   * The order in which `sync` visits touched boxes: the touched list with
   * every element that repeats the one just before it dropped.
   */
  function Dedupe<T(==)>(s: seq<T>): seq<T>
    decreases |s|
  {
    if s == [] then []
    else
      var init := Dedupe(s[..|s| - 1]);
      if |s| > 1 && s[|s| - 1] == s[|s| - 2] then init else init + [s[|s| - 1]]
  }

  /** A list without an element equal to its predecessor. */
  predicate NoRepeats<T(==)>(s: seq<T>)
  {
    forall k :: 0 < k < |s| ==> s[k - 1] != s[k]
  }

  /** The last element visited is the last element touched. */
  lemma {:induction false} DedupeLast<T>(s: seq<T>)
    requires s != []
    ensures Dedupe(s) != [] && Dedupe(s)[|Dedupe(s)| - 1] == s[|s| - 1]
    decreases |s|
  {
    if |s| > 1 && s[|s| - 1] == s[|s| - 2] {
      var init := s[..|s| - 1];
      DedupeLast(init);
      assert init[|init| - 1] == s[|s| - 2];
    }
  }

  /** No box is visited twice in a row. */
  lemma {:induction false} DedupeNoRepeats<T>(s: seq<T>)
    ensures NoRepeats(Dedupe(s))
    decreases |s|
  {
    if s != [] {
      var init := s[..|s| - 1];
      DedupeNoRepeats(init);
      if !(|s| > 1 && s[|s| - 1] == s[|s| - 2]) && |s| > 1 {
        DedupeLast(init);
        assert init[|init| - 1] == s[|s| - 2];
        var d := Dedupe(s);
        forall k | 0 < k < |d|
          ensures d[k - 1] != d[k]
        {
          if k < |d| - 1 {
            assert d[k - 1] == Dedupe(init)[k - 1] && d[k] == Dedupe(init)[k];
          }
        }
      }
    }
  }

  /** Every touched box is visited, and only touched boxes are. */
  lemma {:induction false} DedupeElements<T>(s: seq<T>)
    ensures forall x :: x in Dedupe(s) <==> x in s
    decreases |s|
  {
    if s != [] {
      var init := s[..|s| - 1];
      DedupeElements(init);
      assert s == init + [s[|s| - 1]];
      if |s| > 1 && s[|s| - 1] == s[|s| - 2] {
        assert s[|s| - 1] in init;
      }
    }
  }

  /** A list without repeats is visited as it is, so visiting twice changes nothing. */
  lemma {:induction false} DedupeNoRepeatsSame<T>(s: seq<T>)
    requires NoRepeats(s)
    ensures Dedupe(s) == s
    decreases |s|
  {
    if s != [] {
      var init := s[..|s| - 1];
      assert NoRepeats(init) by {
        forall k | 0 < k < |init|
          ensures init[k - 1] != init[k]
        {
          assert init[k - 1] == s[k - 1] && init[k] == s[k];
        }
      }
      DedupeNoRepeatsSame(init);
      if |s| > 1 {
        assert s[|s| - 2] != s[|s| - 1];
      }
      assert s == init + [s[|s| - 1]];
    }
  }

  /** Dedupe is idempotent. */
  lemma DedupeIdempotent<T>(s: seq<T>)
    ensures Dedupe(Dedupe(s)) == Dedupe(s)
  {
    DedupeNoRepeats(s);
    DedupeNoRepeatsSame(Dedupe(s));
  }

  /** Visiting one more touched box: it is visited unless it repeats the one before. */
  lemma DedupeSnoc<T>(s: seq<T>, i: nat)
    requires i < |s|
    ensures Dedupe(s[..i + 1]) == if i > 0 && s[i] == s[i - 1] then Dedupe(s[..i]) else Dedupe(s[..i]) + [s[i]]
  {
    var t := s[..i + 1];
    assert t[..|t| - 1] == s[..i];
    assert t[|t| - 1] == s[i];
    if i > 0 {
      assert t[|t| - 2] == s[i - 1];
    }
  }

  // ---------------------------------------------------------------- finding a box by uid

  /** Where a line flow box sits in the document: page, block box and line. */
  datatype LineAt = LineAt(page: nat, block: nat, line: nat)

  predicate IsLineAt(pages: seq<Page>, at: LineAt, uid: Uid)
  {
    && at.page < |pages| && at.block < |pages[at.page].blocks| && at.line < |pages[at.page].blocks[at.block].lines|
    && pages[at.page].blocks[at.block].lines[at.line].uid == uid
  }

  /** No line flow box of block boxes `b..` has uid `uid`. */
  predicate NoLineIn(bs: seq<Block>, b: nat, uid: Uid)
  {
    forall j, l :: b <= j < |bs| && 0 <= l < |bs[j].lines| ==> bs[j].lines[l].uid != uid
  }

  /** The first line flow box with uid `uid` among those of block boxes `b..`. */
  function LocateInBlocks(bs: seq<Block>, b: nat, uid: Uid): (r: Option<(nat, nat)>)
    ensures r.Some? ==> b <= r.value.0 < |bs| && r.value.1 < |bs[r.value.0].lines| && bs[r.value.0].lines[r.value.1].uid == uid
    ensures r.None? ==> NoLineIn(bs, b, uid)
    decreases |bs| - b
  {
    if b >= |bs| then None
    else
      var k := IndexOf(JoinPasses.LineUids(bs[b].lines), uid);
      if k >= 0 then Some((b, k)) else LocateInBlocks(bs, b + 1, uid)
  }

  /** No line flow box of pages `p..` has uid `uid`. */
  predicate NoLineFrom(pages: seq<Page>, p: nat, uid: Uid)
  {
    forall q :: p <= q < |pages| ==> NoLineIn(pages[q].blocks, 0, uid)
  }

  /**
   * The line flow box with uid `uid`, the first one in document order;
   * none when it is no longer in the document.
   */
  function LocateLine(pages: seq<Page>, p: nat, uid: Uid): (r: Option<LineAt>)
    ensures r.Some? ==> p <= r.value.page && IsLineAt(pages, r.value, uid)
    ensures r.None? ==> NoLineFrom(pages, p, uid)
    decreases |pages| - p
  {
    if p >= |pages| then None
    else
      match LocateInBlocks(pages[p].blocks, 0, uid)
      case Some(bl) => Some(LineAt(p, bl.0, bl.1))
      case None => LocateLine(pages, p + 1, uid)
  }

  // ---------------------------------------------------------------- text is kept

  /** The document with the lines of block box `b` of page `p` replaced. */
  function WithLines(pages: seq<Page>, p: nat, b: nat, lines: seq<Line>): seq<Page>
    requires p < |pages| && b < |pages[p].blocks|
  {
    pages[p := pages[p].(blocks := pages[p].blocks[b := pages[p].blocks[b].(lines := lines)])]
  }

  /** Replacing block box `b` by one with the same text keeps the text of the blocks. */
  lemma WithBlockText(bs: seq<Block>, b: nat, nb: Block)
    requires b < |bs| && BlockText(nb) == BlockText(bs[b])
    ensures BlocksText(bs[b := nb]) == BlocksText(bs)
  {
    var a, c := bs[..b], bs[b + 1..];
    PageReflow.ReplaceBlockText(a, bs[b], c, [], nb);
    PageReflow.BlocksTextOne(nb);
    assert a + [] == a;
    BlocksTextAppend(a, [nb] + c);
    Around(bs, b);
    assert bs[b := nb] == a + ([nb] + c);
  }

  /** Replacing the lines of a block box by lines with the same text keeps the document's text. */
  lemma WithLinesText(pages: seq<Page>, p: nat, b: nat, lines: seq<Line>)
    requires p < |pages| && b < |pages[p].blocks|
    requires LinesText(pages[p].blocks[b].id, lines) == BlockText(pages[p].blocks[b])
    ensures PagesText(WithLines(pages, p, b, lines)) == PagesText(pages)
  {
    var bs := pages[p].blocks;
    WithBlockText(bs, b, bs[b].(lines := lines));
    var x := pages[p].(blocks := bs[b := bs[b].(lines := lines)]);
    PageReflow.PagesTextAround(pages, p, [x]);
    PageReflow.PagesTextPair(x, x);
    assert WithLines(pages, p, b, lines) == pages[..p] + [x] + pages[p + 1..];
  }

  /**
   * Replacing the lines of a block box by lines that keep their stamps at
   * version `v` keeps the document's stamps.
   */
  lemma WithLinesStamps(pages: seq<Page>, p: nat, b: nat, lines: seq<Line>, v: int)
    requires p < |pages| && b < |pages[p].blocks|
    requires StampsKept(LineStamps(lines), LineStamps(pages[p].blocks[b].lines), v)
    ensures StampsKept(PageStamps(WithLines(pages, p, b, lines)), PageStamps(pages), v)
  {
    var bs := pages[p].blocks;
    WithBlockStamps(bs, b, lines, v);
    WithPageStamps(pages, p, bs[b := bs[b].(lines := lines)], v);
  }

  /** Setting the version of one line flow box keeps the text of its block. */
  lemma LineVersionText(bid: Id, lines: seq<Line>, l: nat, v: int)
    requires l < |lines|
    ensures LinesText(bid, lines[l := lines[l].(version := v)]) == LinesText(bid, lines)
  {
    var x := lines[l].(version := v);
    LineReflow.LinesTextAround(bid, lines, l, [x]);
    LineReflow.LinesTextPair(bid, x, x);
    Around(lines, l);
    assert lines[l := x] == lines[..l] + [x] + lines[l + 1..];
  }

  /** Setting the version of one page flow box keeps the document's text. */
  lemma PageVersionText(pages: seq<Page>, p: nat, v: int)
    requires p < |pages|
    ensures PagesText(pages[p := pages[p].(version := v)]) == PagesText(pages)
  {
    var x := pages[p].(version := v);
    PageReflow.PagesTextAround(pages, p, [x]);
    PageReflow.PagesTextPair(x, x);
    assert pages[p := x] == pages[..p] + [x] + pages[p + 1..];
  }

  // ---------------------------------------------------------------- what a reflow leaves

  /**
   * `lines` is what reflowing line `l0` of the lines `lines0` of block box
   * `bid` at version `v` leaves, up to line `last`: the lines before `l0` and
   * the text are kept, the lines from `l0` to `last` carry version `v`, the
   * ones before `last` fit the width of line `l0` (and `last` too when the
   * reflow finished), the lines after `last` are the last lines of `lines0`,
   * and every box of `lines` carries version `v` or the uid and version of a
   * box of `lines0`.
   */
  ghost predicate LinesReflowed(lines0: seq<Line>, l0: nat, bid: Id, v: int, lines: seq<Line>, last: nat, ending: Ending)
    requires l0 < |lines0|
  {
    && l0 <= last < |lines| && lines[..l0] == lines0[..l0]
    && LinesText(bid, lines) == LinesText(bid, lines0)
    && IsSuffix(lines[last + 1..], lines0[l0 + 1..])
    && (forall j :: l0 <= j <= last ==> lines[j].version == v)
    && (forall j :: l0 <= j < last ==> LineReflow.Fits(lines[j], lines0[l0].width))
    && (ending == Finished ==> LineReflow.Fits(lines[last], lines0[l0].width))
    && StampsKept(LineStamps(lines), LineStamps(lines0), v)
  }

  /**
   * `pages` is what reflowing page `p0` of `pages0` at inner height `h` and
   * version `v` leaves, up to page `last`: the pages before `p0` and the
   * text are kept, the pages from `p0` to `last` carry version `v`, the ones
   * before `last` fit the height (and `last` too, with none of them empty,
   * when the reflow finished), the pages after `last` are the last pages
   * of `pages0`, and every box of `pages` carries version `v` or the uid and
   * version of a box of `pages0`.
   */
  ghost predicate PagesReflowed(pages0: seq<Page>, p0: nat, h: nat, v: int, pages: seq<Page>, last: nat, ending: Ending)
    requires p0 < |pages0|
  {
    && p0 <= last < |pages| && pages[..p0] == pages0[..p0]
    && PagesText(pages) == PagesText(pages0)
    && IsSuffix(pages[last + 1..], pages0[p0 + 1..])
    && (forall j :: p0 <= j <= last ==> pages[j].version == v)
    && (forall j :: p0 <= j < last ==> PageReflow.BlocksHeight(pages[j].blocks) <= h)
    && (ending == Finished ==> PageReflow.BlocksHeight(pages[last].blocks) <= h)
    && (ending == Finished ==> forall j :: p0 <= j <= last ==> pages[j].blocks != [])
    && StampsKept(PageStamps(pages), PageStamps(pages0), v)
  }

  /** What a reflow from the line stamped with version `v` leaves, it leaves from the line before stamping. */
  lemma StampedLinesReflowed(lines0: seq<Line>, l0: nat, bid: Id, v: int, lines: seq<Line>, last: nat, ending: Ending)
    requires l0 < |lines0|
    requires LinesReflowed(lines0[l0 := lines0[l0].(version := v)], l0, bid, v, lines, last, ending)
    ensures LinesReflowed(lines0, l0, bid, v, lines, last, ending)
  {
    var s := lines0[l0 := lines0[l0].(version := v)];
    LineVersionText(bid, lines0, l0, v);
    assert s[..l0] == lines0[..l0] && s[l0 + 1..] == lines0[l0 + 1..];
    LineVersionStamps(lines0, l0, v);
    KeptTrans(LineStamps(lines), LineStamps(s), LineStamps(lines0), v);
  }

  /** What a reflow from the page stamped with version `v` leaves, it leaves from the page before stamping. */
  lemma StampedPagesReflowed(pages0: seq<Page>, p0: nat, h: nat, v: int, pages: seq<Page>, last: nat, ending: Ending)
    requires p0 < |pages0|
    requires PagesReflowed(pages0[p0 := pages0[p0].(version := v)], p0, h, v, pages, last, ending)
    ensures PagesReflowed(pages0, p0, h, v, pages, last, ending)
  {
    var s := pages0[p0 := pages0[p0].(version := v)];
    PageVersionText(pages0, p0, v);
    assert s[..p0] == pages0[..p0] && s[p0 + 1..] == pages0[p0 + 1..];
    PageVersionStamps(pages0, p0, v);
    KeptTrans(PageStamps(pages), PageStamps(s), PageStamps(pages0), v);
  }

  /**
   * The body of `reflowLineFlowBox` once the line flow box is found at line
   * `l` of block box `b` of page `p`: the line gets version `v` and the
   * block's lines are reflowed from it.
   */
  method ReflowLineAt(pages: seq<Page>, p: nat, b: nat, l: nat, v: int, uid0: Uid, fuel: nat)
    returns (lines: seq<Line>, last: nat, nextUid: Uid, ending: Ending)
    requires p < |pages| && b < |pages[p].blocks| && l < |pages[p].blocks[b].lines|
    ensures var block := pages[p].blocks[b]; LinesReflowed(block.lines, l, block.id, v, lines, last, ending)
    ensures PagesText(WithLines(pages, p, b, lines)) == PagesText(pages)
    ensures nextUid >= uid0
  {
    var block := pages[p].blocks[b];
    var lines0 := block.lines[l := block.lines[l].(version := v)];
    lines, last, nextUid, ending := LineReflow.ReflowLines(lines0, l, block.id, v, uid0, fuel);
    assert LinesReflowed(lines0, l, block.id, v, lines, last, ending);
    StampedLinesReflowed(block.lines, l, block.id, v, lines, last, ending);
    WithLinesText(pages, p, b, lines);
  }

  /**
   * The body of `reflowPageFlowBox` once the page flow box is found at page
   * `p`: the page gets version `v` and the pages are reflowed from it at
   * inner height `h`.
   */
  method ReflowPageAt(pages0: seq<Page>, p: nat, h: nat, v: int, uid0: Uid, fuel: nat)
    returns (pages: seq<Page>, last: nat, nextUid: Uid, ending: Ending)
    requires p < |pages0|
    ensures PagesReflowed(pages0, p, h, v, pages, last, ending)
    ensures nextUid >= uid0
  {
    var stamped := pages0[p := pages0[p].(version := v)];
    pages, last, nextUid, ending := PageReflow.ReflowPages(stamped, p, h, v, uid0, fuel);
    assert PagesReflowed(stamped, p, h, v, pages, last, ending);
    StampedPagesReflowed(pages0, p, h, v, pages, last, ending);
  }

  /**
   * What `reflowLineFlowBox` does to document `d0` for the line flow box
   * with uid `uid`: nothing when it is no longer in the document; otherwise
   * the lines of its block box become `lines`, reflowed from it at version
   * `v`, and the rest of the document is kept; every box of `d` carries
   * version `v` or the uid and version of a box of `d0`.
   */
  ghost predicate LineFlowReflowed(d0: Doc, uid: Uid, v: int, d: Doc, lines: seq<Line>, last: nat, ending: Option<Ending>)
  {
    && StampsKept(PageStamps(d.pages), PageStamps(d0.pages), v)
    && (LocateLine(d0.pages, 0, uid).None? ==> d == d0 && ending.None?)
    && (LocateLine(d0.pages, 0, uid).Some? ==>
          var at := LocateLine(d0.pages, 0, uid).value;
          var block := d0.pages[at.page].blocks[at.block];
          && ending.Some?
          && d == d0.(pages := WithLines(d0.pages, at.page, at.block, lines))
          && LinesReflowed(block.lines, at.line, block.id, v, lines, last, ending.value))
  }

  /**
   * What `reflowPageFlowBox` does to document `d0` for the page flow box
   * with uid `uid`: nothing when it is no longer in the document; otherwise
   * the pages from it on are reflowed at version `v` and the document's
   * inner height, and the document's other fields are kept; every box of
   * `d` carries version `v` or the uid and version of a box of `d0`.
   */
  ghost predicate PageFlowReflowed(d0: Doc, uid: Uid, v: int, d: Doc, last: nat, ending: Option<Ending>)
  {
    && StampsKept(PageStamps(d.pages), PageStamps(d0.pages), v)
    && d.uid == d0.uid && d.id == d0.id && d.version == d0.version && d.innerHeight == d0.innerHeight
    && (uid !in JoinPasses.PageUids(d0.pages) ==> d == d0 && ending.None?)
    && (uid in JoinPasses.PageUids(d0.pages) ==>
          var p0 := IndexOf(JoinPasses.PageUids(d0.pages), uid);
          && 0 <= p0 < |d0.pages| && ending.Some?
          && PagesReflowed(d0.pages, p0, d0.innerHeight, v, d.pages, last, ending.value))
  }

  /** `reflowLineFlowBox` on document `d0`, handing out uids from `uid0`. */
  method ReflowLineIn(d0: Doc, uid: Uid, v: int, uid0: Uid, fuel: nat)
    returns (d: Doc, ending: Option<Ending>, lines: seq<Line>, last: nat, nextUid: Uid)
    ensures LineFlowReflowed(d0, uid, v, d, lines, last, ending)
    ensures DocText(d) == DocText(d0) && d.uid == d0.uid && d.innerHeight == d0.innerHeight
    ensures nextUid >= uid0
  {
    var at := LocateLine(d0.pages, 0, uid);
    if at.None? {
      return d0, None, [], 0, uid0;
    }
    var e;
    lines, last, nextUid, e := ReflowLineAt(d0.pages, at.value.page, at.value.block, at.value.line, v, uid0, fuel);
    d := d0.(pages := WithLines(d0.pages, at.value.page, at.value.block, lines));
    ending := Some(e);
    WithLinesStamps(d0.pages, at.value.page, at.value.block, lines, v);
  }

  /** `reflowPageFlowBox` on document `d0`, handing out uids from `uid0`. */
  method ReflowPageIn(d0: Doc, uid: Uid, v: int, uid0: Uid, fuel: nat)
    returns (d: Doc, ending: Option<Ending>, last: nat, nextUid: Uid)
    ensures PageFlowReflowed(d0, uid, v, d, last, ending)
    ensures DocText(d) == DocText(d0) && d.uid == d0.uid && d.innerHeight == d0.innerHeight
    ensures nextUid >= uid0
  {
    var p := IndexOf(JoinPasses.PageUids(d0.pages), uid);
    if p < 0 {
      return d0, None, 0, uid0;
    }
    var pages, e;
    pages, last, nextUid, e := ReflowPageAt(d0.pages, p, d0.innerHeight, v, uid0, fuel);
    d := d0.(pages := pages);
    ending := Some(e);
    assert PagesReflowed(d0.pages, p, d0.innerHeight, v, d.pages, last, e);
  }

  /**
   * A run of line reflows: `docs[i + 1]` is what reflowing line flow box
   * `order[i]` at version `v` makes of `docs[i]`, with the reflowed lines,
   * last line and ending that reflow reports.
   */
  ghost predicate LineTrace(docs: seq<Doc>, order: seq<Uid>, v: int, ls: seq<seq<Line>>, lasts: seq<nat>, ends: seq<Option<Ending>>)
  {
    && |docs| == |order| + 1 && |ls| == |order| && |lasts| == |order| && |ends| == |order|
    && forall i :: 0 <= i < |order| ==> LineFlowReflowed(docs[i], order[i], v, docs[i + 1], ls[i], lasts[i], ends[i])
  }

  /** One more line reflow extends the run. */
  lemma LineTraceSnoc(docs: seq<Doc>, order: seq<Uid>, v: int, ls: seq<seq<Line>>, lasts: seq<nat>, ends: seq<Option<Ending>>,
                      uid: Uid, d: Doc, lines: seq<Line>, last: nat, ending: Option<Ending>)
    requires LineTrace(docs, order, v, ls, lasts, ends)
    requires LineFlowReflowed(docs[|order|], uid, v, d, lines, last, ending)
    ensures LineTrace(docs + [d], order + [uid], v, ls + [lines], lasts + [last], ends + [ending])
  {
    var docs', order' := docs + [d], order + [uid];
    forall i | 0 <= i < |order'|
      ensures LineFlowReflowed(docs'[i], order'[i], v, docs'[i + 1], (ls + [lines])[i], (lasts + [last])[i], (ends + [ending])[i])
    {
      if i < |order| {
        assert docs'[i] == docs[i] && docs'[i + 1] == docs[i + 1] && order'[i] == order[i];
        assert (ls + [lines])[i] == ls[i] && (lasts + [last])[i] == lasts[i] && (ends + [ending])[i] == ends[i];
      } else {
        assert docs'[i] == docs[|order|] && docs'[i + 1] == d && order'[i] == uid;
        assert (ls + [lines])[i] == lines && (lasts + [last])[i] == last && (ends + [ending])[i] == ending;
      }
    }
  }

  /** A run of page reflows, as LineTrace is for lines. */
  ghost predicate PageTrace(docs: seq<Doc>, order: seq<Uid>, v: int, lasts: seq<nat>, ends: seq<Option<Ending>>)
  {
    && |docs| == |order| + 1 && |lasts| == |order| && |ends| == |order|
    && forall i :: 0 <= i < |order| ==> PageFlowReflowed(docs[i], order[i], v, docs[i + 1], lasts[i], ends[i])
  }

  /** One more page reflow extends the run. */
  lemma PageTraceSnoc(docs: seq<Doc>, order: seq<Uid>, v: int, lasts: seq<nat>, ends: seq<Option<Ending>>,
                      uid: Uid, d: Doc, last: nat, ending: Option<Ending>)
    requires PageTrace(docs, order, v, lasts, ends)
    requires PageFlowReflowed(docs[|order|], uid, v, d, last, ending)
    ensures PageTrace(docs + [d], order + [uid], v, lasts + [last], ends + [ending])
  {
    var docs', order' := docs + [d], order + [uid];
    forall i | 0 <= i < |order'|
      ensures PageFlowReflowed(docs'[i], order'[i], v, docs'[i + 1], (lasts + [last])[i], (ends + [ending])[i])
    {
      if i < |order| {
        assert docs'[i] == docs[i] && docs'[i + 1] == docs[i + 1] && order'[i] == order[i];
        assert (lasts + [last])[i] == lasts[i] && (ends + [ending])[i] == ends[i];
      } else {
        assert docs'[i] == docs[|order|] && docs'[i + 1] == d && order'[i] == uid;
        assert (lasts + [last])[i] == last && (ends + [ending])[i] == ending;
      }
    }
  }

  // ---------------------------------------------------------------- the engine

  class LayoutEngine {

    /** The document box. */
    var doc: Doc
    /** The render tree version the layout was last synced to. */
    var version: int
    /** The next uid to hand out to a box the reflow creates. */
    var nextUid: Uid

    /** A new engine over document box `doc`, not yet synced (version -1). */
    constructor(doc: Doc, nextUid: Uid)
      ensures this.doc == doc && version == -1 && this.nextUid == nextUid
    {
      this.doc := doc;
      version := -1;
      this.nextUid := nextUid;
    }

    /**
     * `reflowLineFlowBox` (lines 345-467) for the line flow box with uid
     * `uid` at version `v`; the result is None when the box is no longer in
     * the document and the reflow's ending otherwise.
     */
    method ReflowLineFlowBox(uid: Uid, v: int, fuel: nat) returns (ending: Option<Ending>, lines: seq<Line>, ghost last: nat)
      modifies this
      ensures version == old(version) && nextUid >= old(nextUid)
      ensures LineFlowReflowed(old(doc), uid, v, doc, lines, last, ending)
      ensures DocText(doc) == old(DocText(doc)) && doc.uid == old(doc.uid) && doc.innerHeight == old(doc.innerHeight)
    {
      var d, next;
      d, ending, lines, last, next := ReflowLineIn(doc, uid, v, nextUid, fuel);
      doc := d;
      nextUid := next;
    }

    /**
     * `reflowPageFlowBox` (lines 469-544) for the page flow box with uid
     * `uid` at version `v`; the result is None when the box is no longer in
     * the document and the reflow's ending otherwise.
     */
    method ReflowPageFlowBox(uid: Uid, v: int, fuel: nat) returns (ending: Option<Ending>, ghost last: nat)
      modifies this
      ensures version == old(version) && nextUid >= old(nextUid)
      ensures PageFlowReflowed(old(doc), uid, v, doc, last, ending)
      ensures DocText(doc) == old(DocText(doc)) && doc.uid == old(doc.uid) && doc.innerHeight == old(doc.innerHeight)
    {
      var d, next;
      d, ending, last, next := ReflowPageIn(doc, uid, v, nextUid, fuel);
      doc := d;
      nextUid := next;
    }

    /** One reflow of a touched line flow box, as ReflowLineFlowBox, recorded as one more step of the trace. */
    method ReflowTracedLine(uid: Uid, v: int, fuel: nat, ghost docs: seq<Doc>, ghost order: seq<Uid>,
                            ghost ls: seq<seq<Line>>, ghost lasts: seq<nat>, ghost ends: seq<Option<Ending>>)
      returns (ghost docs': seq<Doc>, ghost ls': seq<seq<Line>>, ghost lasts': seq<nat>, ghost ends': seq<Option<Ending>>)
      modifies this
      requires LineTrace(docs, order, v, ls, lasts, ends) && docs[|order|] == doc
      ensures LineTrace(docs', order + [uid], v, ls', lasts', ends') && docs'[0] == docs[0] && docs'[|order| + 1] == doc
      ensures StampsKept(PageStamps(doc.pages), PageStamps(old(doc.pages)), v)
      ensures DocText(doc) == old(DocText(doc)) && doc.uid == old(doc.uid) && doc.innerHeight == old(doc.innerHeight)
      ensures version == old(version) && nextUid >= old(nextUid)
    {
      var ending, reflowed, last := ReflowLineFlowBox(uid, v, fuel);
      LineTraceSnoc(docs, order, v, ls, lasts, ends, uid, doc, reflowed, last, ending);
      docs', ls', lasts', ends' := docs + [doc], ls + [reflowed], lasts + [last], ends + [ending];
    }

    /** One reflow of a touched page flow box, as ReflowPageFlowBox, recorded as one more step of the trace. */
    method ReflowTracedPage(uid: Uid, v: int, fuel: nat, ghost docs: seq<Doc>, ghost order: seq<Uid>,
                            ghost lasts: seq<nat>, ghost ends: seq<Option<Ending>>)
      returns (ghost docs': seq<Doc>, ghost lasts': seq<nat>, ghost ends': seq<Option<Ending>>)
      modifies this
      requires PageTrace(docs, order, v, lasts, ends) && docs[|order|] == doc
      ensures PageTrace(docs', order + [uid], v, lasts', ends') && docs'[0] == docs[0] && docs'[|order| + 1] == doc
      ensures StampsKept(PageStamps(doc.pages), PageStamps(old(doc.pages)), v)
      ensures DocText(doc) == old(DocText(doc)) && doc.uid == old(doc.uid) && doc.innerHeight == old(doc.innerHeight)
      ensures version == old(version) && nextUid >= old(nextUid)
    {
      var ending, last := ReflowPageFlowBox(uid, v, fuel);
      PageTraceSnoc(docs, order, v, lasts, ends, uid, doc, last, ending);
      docs', lasts', ends' := docs + [doc], lasts + [last], ends + [ending];
    }

    /**
     * The first `forEach` of `sync` (lines 323-331): the touched line flow
     * boxes are reflowed at version `v` in the order touched, skipping one
     * that repeats the one just before it; `order` is the boxes reflowed and
     * `docs` the document before and after each reflow.
     */
    method ReflowTouchedLines(touched: seq<Uid>, v: int, fuel: nat)
      returns (order: seq<Uid>, ghost docs: seq<Doc>, ghost ls: seq<seq<Line>>, ghost lasts: seq<nat>, ghost ends: seq<Option<Ending>>)
      modifies this
      ensures order == Dedupe(touched)
      ensures LineTrace(docs, order, v, ls, lasts, ends) && docs[0] == old(doc) && docs[|order|] == doc
      ensures StampsKept(PageStamps(doc.pages), PageStamps(old(doc.pages)), v)
      ensures DocText(doc) == old(DocText(doc)) && doc.uid == old(doc.uid) && doc.innerHeight == old(doc.innerHeight)
      ensures version == old(version) && nextUid >= old(nextUid)
    {
      var lastLineFlowBox: Option<Uid> := None;
      order := [];
      docs, ls, lasts, ends := [doc], [], [], [];
      var i := 0;
      while i < |touched|
        invariant i <= |touched| && order == Dedupe(touched[..i])
        invariant lastLineFlowBox == if i == 0 then None else Some(touched[i - 1])
        invariant LineTrace(docs, order, v, ls, lasts, ends) && docs[0] == old(doc) && docs[|order|] == doc
        invariant StampsKept(PageStamps(doc.pages), PageStamps(old(doc.pages)), v)
        invariant DocText(doc) == old(DocText(doc)) && doc.uid == old(doc.uid) && doc.innerHeight == old(doc.innerHeight)
        invariant version == old(version) && nextUid >= old(nextUid)
      {
        DedupeSnoc(touched, i);
        if lastLineFlowBox != Some(touched[i]) {
          ghost var before := doc.pages;
          docs, ls, lasts, ends := ReflowTracedLine(touched[i], v, fuel, docs, order, ls, lasts, ends);
          KeptTrans(PageStamps(doc.pages), PageStamps(before), PageStamps(old(doc.pages)), v);
          order := order + [touched[i]];
          lastLineFlowBox := Some(touched[i]);
        }
        i := i + 1;
      }
      assert touched[..i] == touched;
    }

    /** The second `forEach` of `sync` (lines 332-340), over the touched page flow boxes. */
    method ReflowTouchedPages(touched: seq<Uid>, v: int, fuel: nat)
      returns (order: seq<Uid>, ghost docs: seq<Doc>, ghost lasts: seq<nat>, ghost ends: seq<Option<Ending>>)
      modifies this
      ensures order == Dedupe(touched)
      ensures PageTrace(docs, order, v, lasts, ends) && docs[0] == old(doc) && docs[|order|] == doc
      ensures StampsKept(PageStamps(doc.pages), PageStamps(old(doc.pages)), v)
      ensures DocText(doc) == old(DocText(doc)) && doc.uid == old(doc.uid) && doc.innerHeight == old(doc.innerHeight)
      ensures version == old(version) && nextUid >= old(nextUid)
    {
      var lastPageFlowBox: Option<Uid> := None;
      order := [];
      docs, lasts, ends := [doc], [], [];
      var k := 0;
      while k < |touched|
        invariant k <= |touched| && order == Dedupe(touched[..k])
        invariant lastPageFlowBox == if k == 0 then None else Some(touched[k - 1])
        invariant PageTrace(docs, order, v, lasts, ends) && docs[0] == old(doc) && docs[|order|] == doc
        invariant StampsKept(PageStamps(doc.pages), PageStamps(old(doc.pages)), v)
        invariant DocText(doc) == old(DocText(doc)) && doc.uid == old(doc.uid) && doc.innerHeight == old(doc.innerHeight)
        invariant version == old(version) && nextUid >= old(nextUid)
      {
        DedupeSnoc(touched, k);
        if lastPageFlowBox != Some(touched[k]) {
          ghost var before := doc.pages;
          docs, lasts, ends := ReflowTracedPage(touched[k], v, fuel, docs, order, lasts, ends);
          KeptTrans(PageStamps(doc.pages), PageStamps(before), PageStamps(old(doc.pages)), v);
          order := order + [touched[k]];
          lastPageFlowBox := Some(touched[k]);
        }
        k := k + 1;
      }
      assert touched[..k] == touched;
    }

    /**
     * `sync` (lines 318-343), once the tree syncer `ts` has brought the
     * document to `synced`: the line flow boxes it touched are reflowed in
     * the order touched, skipping one touched twice in a row, then the page
     * flow boxes likewise, all at version `newVersion`, which the engine then
     * adopts; every box then carries `newVersion` or the uid and version of a
     * box of `synced`. The syncer was made for the engine's current version.
     * `lineOrder` and `pageOrder` are the boxes reflowed, in order;
     * `lineDocs` runs from `synced` through each line reflow to `pageDocs[0]`,
     * and `pageDocs` from there through each page reflow to the final document.
     */
    method Sync(ts: Syncer.RenderToLayoutTreeSyncer, synced: Doc, newVersion: int, fuel: nat)
      returns (lineOrder: seq<Uid>, pageOrder: seq<Uid>, ghost lineDocs: seq<Doc>, ghost pageDocs: seq<Doc>)
      modifies this
      requires ts.lastVersion == version
      ensures version == newVersion
      ensures StampsKept(PageStamps(doc.pages), PageStamps(synced.pages), newVersion)
      ensures DocText(doc) == DocText(synced)
      ensures doc.uid == synced.uid && doc.innerHeight == synced.innerHeight
      ensures lineOrder == Dedupe(ts.updatedLineFlowBoxes) && pageOrder == Dedupe(ts.updatedPageFlowBoxes)
      ensures exists ls, lasts, ends :: LineTrace(lineDocs, lineOrder, newVersion, ls, lasts, ends)
      ensures exists lasts, ends :: PageTrace(pageDocs, pageOrder, newVersion, lasts, ends)
      ensures |lineDocs| == |lineOrder| + 1 && |pageDocs| == |pageOrder| + 1
      ensures lineDocs[0] == synced && lineDocs[|lineOrder|] == pageDocs[0] && pageDocs[|pageOrder|] == doc
      ensures nextUid >= old(nextUid) && nextUid >= ts.nextUid
    {
      doc := synced;
      if ts.nextUid > nextUid {
        nextUid := ts.nextUid;
      }
      ghost var ls, lasts, ends, plasts, pends;
      lineOrder, lineDocs, ls, lasts, ends := ReflowTouchedLines(ts.updatedLineFlowBoxes, newVersion, fuel);
      ghost var between := doc.pages;
      pageOrder, pageDocs, plasts, pends := ReflowTouchedPages(ts.updatedPageFlowBoxes, newVersion, fuel);
      KeptTrans(PageStamps(doc.pages), PageStamps(between), PageStamps(synced.pages), newVersion);
      version := newVersion;
    }
  }
}
