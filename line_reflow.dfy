/**
 * `reflowLineFlowBox`: re-breaking the line flow boxes of one block box so
 * that each fits the line width.
 *
 * The source works on the box objects in place; here the reflow works on the
 * block's sequence of line boxes. Its local variables (`currentLineFlowBox`,
 * `n`, `m`, `cumulatedWidth`) are held in a `LineCursor`, and each of its four
 * nested loops is a method of its own. The source's `while (true)` loops are
 * bounded by fuel.
 */
module LineReflow {

  import opened Results
  import opened Seqs
  import opened Boxes
  import opened Versions

  // ---------------------------------------------------------------- line content

  /** The glyphs of a run of inline boxes, in order. */
  function InlinesGlyphs(ins: seq<Inline>): seq<Glyph>
  {
    if ins == [] then [] else AtomsGlyphs(ins[0].atomics) + InlinesGlyphs(ins[1..])
  }

  /** A line fits width `w` when its content, trailing whitespace aside, is no wider. */
  predicate Fits(l: Line, w: nat)
  {
    GlyphsWidthWithoutTrailing(InlinesGlyphs(l.inlines)) <= w
  }

  lemma {:induction false} AtomsGlyphsAppend(a: seq<Atomic>, b: seq<Atomic>)
    ensures AtomsGlyphs(a + b) == AtomsGlyphs(a) + AtomsGlyphs(b)
  {
    if a != [] {
      assert (a + b)[1..] == a[1..] + b;
      AtomsGlyphsAppend(a[1..], b);
    } else {
      assert a + b == b;
    }
  }

  lemma {:induction false} InlinesGlyphsAppend(a: seq<Inline>, b: seq<Inline>)
    ensures InlinesGlyphs(a + b) == InlinesGlyphs(a) + InlinesGlyphs(b)
  {
    if a != [] {
      assert (a + b)[1..] == a[1..] + b;
      InlinesGlyphsAppend(a[1..], b);
    } else {
      assert a + b == b;
    }
  }

  /**
   * Trailing whitespace of a concatenation: either all of `b` is trailing
   * whitespace and the concatenation measures like `a`, or `a` counts in
   * full in front of `b`.
   */
  lemma {:induction false} WidthWithoutTrailingAppend(a: seq<Glyph>, b: seq<Glyph>)
    ensures GlyphsWidthWithoutTrailing(a + b) == GlyphsWidthWithoutTrailing(a)
         || GlyphsWidthWithoutTrailing(a + b) == GlyphsWidth(a) + GlyphsWidthWithoutTrailing(b)
  {
    GlyphsWidthAppend(a, b);
    if b == [] {
      assert a + b == a;
    } else {
      var g := b[|b| - 1];
      var init := b[..|b| - 1];
      assert b == init + [g];
      assert a + b == (a + init) + [g];
      GlyphsWidthAppend(a + init, [g]);
      GlyphsWidthAppend(init, [g]);
      GlyphsWidthAppend(a, init);
      if g.c == ' ' {
        WidthWithoutTrailingAppend(a, init);
      }
    }
  }

  /** The glyphs placed on the current line fit in `w` and are at most `cumulatedWidth` wide. */
  predicate Placed(g: seq<Glyph>, cumulatedWidth: nat, w: nat)
  {
    GlyphsWidthWithoutTrailing(g) <= w && GlyphsWidth(g) <= cumulatedWidth
  }

  /** Placing `x` when `cumulatedWidth` plus its width without trailing whitespace is within `w`. */
  lemma PlaceMore(g: seq<Glyph>, x: seq<Glyph>, cumulatedWidth: nat, w: nat)
    requires Placed(g, cumulatedWidth, w) && cumulatedWidth + GlyphsWidthWithoutTrailing(x) <= w
    ensures Placed(g + x, cumulatedWidth + GlyphsWidth(x), w)
  {
    WidthWithoutTrailingAppend(g, x);
    GlyphsWidthAppend(g, x);
  }

  /** What is placed stays placed when the last part of it is taken back. */
  lemma PlacedPrefix(g: seq<Glyph>, x: seq<Glyph>, cumulatedWidth: nat, w: nat)
    requires Placed(g + x, cumulatedWidth, w)
    ensures Placed(g, cumulatedWidth, w)
  {
    WidthWithoutTrailingAppend(g, x);
    GlyphsWidthAppend(g, x);
  }

  // ---------------------------------------------------------------- measuring an atomic box

  /**
   * The cut `splitAtWidth(w)` makes in a run of glyphs: the longest prefix
   * no wider than `w`.
   */
  function FitCount(gs: seq<Glyph>, w: nat): (k: nat)
    ensures k <= |gs| && GlyphsWidth(gs[..k]) <= w
    ensures k < |gs| ==> GlyphsWidth(gs[..k + 1]) > w
  {
    if gs == [] || gs[0].width > w then
      assert gs != [] ==> GlyphsWidth(gs[..1]) == gs[0].width + GlyphsWidth(gs[1..][..0]);
      0
    else
      var k := FitCount(gs[1..], w - gs[0].width);
      assert gs[..k + 1][1..] == gs[1..][..k];
      assert k + 1 < |gs| ==> gs[..k + 2][1..] == gs[1..][..k + 1];
      k + 1
  }

  /** An atomic box too wide for the line is never cut after its last glyph. */
  lemma FitCountLeavesRemainder(gs: seq<Glyph>, w: nat)
    requires GlyphsWidthWithoutTrailing(gs) > w
    ensures FitCount(gs, w) < |gs|
  {
    assert gs[..|gs|] == gs;
  }

  // ---------------------------------------------------------------- tree surgery

  /**
   * Cutting line `l` after its inline box `n`, whose atomic boxes are
   * divided into `front` and `back`: the line keeps the inline boxes before
   * `n` and, unless `front` is empty, inline box `n` holding `front`; a new
   * line box `lineUid` follows it, starting with a new inline box
   * `inlineUid` holding `back`, then the inline boxes after `n`. Both
   * line boxes and both halves of the inline box get version `v`.
   */
  function Cut(lines: seq<Line>, l: nat, n: nat, front: seq<Atomic>, back: seq<Atomic>,
               lineUid: Uid, inlineUid: Uid, v: int): seq<Line>
    requires l < |lines| && n < |lines[l].inlines|
  {
    var line := lines[l];
    var inl := line.inlines[n];
    var kept := line.inlines[..n] + (if front == [] then [] else [inl.(version := v, atomics := front)]);
    var moved := [Inline(inlineUid, inl.id, v, back)] + line.inlines[n + 1..];
    lines[..l] + [line.(version := v, inlines := kept), Line(lineUid, v, line.width, moved)] + lines[l + 1..]
  }

  /** The text of a run of lines, seen around line `l`. */
  lemma LinesTextAround(bid: Id, lines: seq<Line>, l: nat, mid: seq<Line>)
    requires l < |lines|
    ensures LinesText(bid, lines) == LinesText(bid, lines[..l]) + InlinesText(bid, lines[l].inlines) + LinesText(bid, lines[l + 1..])
    ensures LinesText(bid, lines[..l] + mid + lines[l + 1..]) == LinesText(bid, lines[..l]) + LinesText(bid, mid) + LinesText(bid, lines[l + 1..])
  {
    assert lines == lines[..l] + [lines[l]] + lines[l + 1..];
    LinesTextAppend(bid, lines[..l] + [lines[l]], lines[l + 1..]);
    LinesTextAppend(bid, lines[..l], [lines[l]]);
    LinesTextAppend(bid, lines[..l] + mid, lines[l + 1..]);
    LinesTextAppend(bid, lines[..l], mid);
  }

  /** The text of a run of inline boxes, seen around inline box `n`. */
  lemma InlinesTextAround(bid: Id, ins: seq<Inline>, n: nat)
    requires n < |ins|
    ensures InlinesText(bid, ins) == InlinesText(bid, ins[..n]) + AtomsText(bid, ins[n].id, ins[n].atomics) + InlinesText(bid, ins[n + 1..])
  {
    assert ins == ins[..n] + [ins[n]] + ins[n + 1..];
    InlinesTextAppend(bid, ins[..n] + [ins[n]], ins[n + 1..]);
    InlinesTextAppend(bid, ins[..n], [ins[n]]);
  }

  lemma LinesTextPair(bid: Id, a: Line, b: Line)
    ensures LinesText(bid, [a]) == InlinesText(bid, a.inlines)
    ensures LinesText(bid, [a, b]) == InlinesText(bid, a.inlines) + InlinesText(bid, b.inlines)
  {
    assert [a, b][1..] == [b] && [a][1..] == [] && [b][1..] == [];
  }

  lemma InlinesTextOne(bid: Id, i: Inline)
    ensures InlinesText(bid, [i]) == AtomsText(bid, i.id, i.atomics)
  {
    assert [i][1..] == [];
  }

  /** The two halves of a cut line hold the text the line held. */
  lemma CutHalvesText(bid: Id, ins: seq<Inline>, n: nat, front: seq<Atomic>, back: seq<Atomic>, inlineUid: Uid, v: int)
    requires n < |ins|
    requires AtomsText(bid, ins[n].id, front) + AtomsText(bid, ins[n].id, back) == AtomsText(bid, ins[n].id, ins[n].atomics)
    ensures var tail := if front == [] then [] else [ins[n].(version := v, atomics := front)];
      InlinesText(bid, ins[..n] + tail) + InlinesText(bid, [Inline(inlineUid, ins[n].id, v, back)] + ins[n + 1..])
      == InlinesText(bid, ins)
  {
    var tail := if front == [] then [] else [ins[n].(version := v, atomics := front)];
    var head := Inline(inlineUid, ins[n].id, v, back);
    assert InlinesText(bid, tail) == AtomsText(bid, ins[n].id, front) by {
      if front != [] {
        InlinesTextOne(bid, ins[n].(version := v, atomics := front));
      }
    }
    InlinesTextOne(bid, head);
    SplitInlineText(bid, ins, n, tail, [head]);
  }

  /** Replacing inline box `n` by two runs whose texts together are its text keeps the text. */
  lemma SplitInlineText(bid: Id, ins: seq<Inline>, n: nat, tail: seq<Inline>, head: seq<Inline>)
    requires n < |ins|
    requires InlinesText(bid, tail) + InlinesText(bid, head) == AtomsText(bid, ins[n].id, ins[n].atomics)
    ensures InlinesText(bid, ins[..n] + tail) + InlinesText(bid, head + ins[n + 1..]) == InlinesText(bid, ins)
  {
    var pre, rest := InlinesText(bid, ins[..n]), InlinesText(bid, ins[n + 1..]);
    InlinesTextAround(bid, ins, n);
    InlinesTextAppend(bid, ins[..n], tail);
    InlinesTextAppend(bid, head, ins[n + 1..]);
    Regroup(pre, InlinesText(bid, tail), InlinesText(bid, head), rest);
  }

  /** Cutting a line, with the inline box's atomic boxes divided without loss, keeps the text. */
  lemma CutText(bid: Id, lines: seq<Line>, l: nat, n: nat, front: seq<Atomic>, back: seq<Atomic>,
                lineUid: Uid, inlineUid: Uid, v: int)
    requires l < |lines| && n < |lines[l].inlines|
    requires var id := lines[l].inlines[n].id;
      AtomsText(bid, id, front) + AtomsText(bid, id, back) == AtomsText(bid, id, lines[l].inlines[n].atomics)
    ensures LinesText(bid, Cut(lines, l, n, front, back, lineUid, inlineUid, v)) == LinesText(bid, lines)
  {
    var line := lines[l];
    var inl := line.inlines[n];
    var kept := line.inlines[..n] + (if front == [] then [] else [inl.(version := v, atomics := front)]);
    var moved := [Inline(inlineUid, inl.id, v, back)] + line.inlines[n + 1..];
    var a := line.(version := v, inlines := kept);
    var b := Line(lineUid, v, line.width, moved);
    LinesTextAround(bid, lines, l, [a, b]);
    LinesTextPair(bid, a, b);
    CutHalvesText(bid, line.inlines, n, front, back, inlineUid, v);
  }

  /** Where the lines of a cut sit, and what the first of the two cut lines holds. */
  lemma CutShape(lines: seq<Line>, l: nat, n: nat, front: seq<Atomic>, back: seq<Atomic>,
                 lineUid: Uid, inlineUid: Uid, v: int)
    requires l < |lines| && n < |lines[l].inlines|
    ensures var r := Cut(lines, l, n, front, back, lineUid, inlineUid, v);
      && |r| == |lines| + 1 && r[..l] == lines[..l] && r[l + 2..] == lines[l + 1..]
      && r[l].version == v && r[l + 1].version == v && r[l + 1].inlines != []
      && r[l + 1].inlines[0].atomics == back
      && InlinesGlyphs(r[l].inlines) == InlinesGlyphs(lines[l].inlines[..n]) + AtomsGlyphs(front)
  {
    var line := lines[l];
    var inl := line.inlines[n];
    var r := Cut(lines, l, n, front, back, lineUid, inlineUid, v);
    var tail := if front == [] then [] else [inl.(version := v, atomics := front)];
    assert r[l].inlines == line.inlines[..n] + tail;
    InlinesGlyphsAppend(line.inlines[..n], tail);
    assert InlinesGlyphs(tail) == AtomsGlyphs(front);
  }

  /** The inline boxes of a line merged into the previous one, each with version `v`. */
  function Restamp(ins: seq<Inline>, v: int): (r: seq<Inline>)
    ensures |r| == |ins| && forall k :: 0 <= k < |ins| ==> r[k] == ins[k].(version := v)
  {
    seq(|ins|, k requires 0 <= k < |ins| => ins[k].(version := v))
  }

  lemma {:induction false} RestampText(bid: Id, ins: seq<Inline>, v: int)
    ensures InlinesText(bid, Restamp(ins, v)) == InlinesText(bid, ins)
  {
    if ins != [] {
      assert Restamp(ins, v)[1..] == Restamp(ins[1..], v);
      RestampText(bid, ins[1..], v);
    }
  }

  /**
   * Merging line `l + 1` into line `l`: its inline boxes move, in order, to
   * the end of line `l` and it leaves the block.
   */
  function Merge(lines: seq<Line>, l: nat, v: int): seq<Line>
    requires l + 1 < |lines|
  {
    lines[..l] + [lines[l].(inlines := lines[l].inlines + Restamp(lines[l + 1].inlines, v))] + lines[l + 2..]
  }

  /** Merging keeps the text and shortens the block by one line. */
  lemma MergeText(bid: Id, lines: seq<Line>, l: nat, v: int)
    requires l + 1 < |lines|
    ensures var r := Merge(lines, l, v);
      && LinesText(bid, r) == LinesText(bid, lines)
      && |r| == |lines| - 1 && r[..l] == lines[..l] && r[l + 1..] == lines[l + 2..]
      && r[l].version == lines[l].version && r[l].inlines[..|lines[l].inlines|] == lines[l].inlines
  {
    var ins := lines[l].inlines;
    var merged := lines[l].(inlines := ins + Restamp(lines[l + 1].inlines, v));
    var pair := lines[l..l + 2];
    assert lines == lines[..l] + pair + lines[l + 2..];
    assert Merge(lines, l, v) == lines[..l] + [merged] + lines[l + 2..];
    LinesTextAppend(bid, lines[..l] + pair, lines[l + 2..]);
    LinesTextAppend(bid, lines[..l], pair);
    LinesTextAppend(bid, lines[..l] + [merged], lines[l + 2..]);
    LinesTextAppend(bid, lines[..l], [merged]);
    LinesTextPair(bid, lines[l], lines[l + 1]);
    LinesTextPair(bid, merged, merged);
    assert pair == [lines[l], lines[l + 1]];
    InlinesTextAppend(bid, ins, Restamp(lines[l + 1].inlines, v));
    RestampText(bid, lines[l + 1].inlines, v);
    assert merged.inlines[..|ins|] == ins;
  }

  // ---------------------------------------------------------------- versions

  /** Replacing the lines `mid0` in the middle of a run by `mid` keeps the stamps when `mid` keeps theirs. */
  lemma ReplaceLinesStamps(r: seq<Line>, lines: seq<Line>, pre: seq<Line>, mid: seq<Line>, mid0: seq<Line>, post: seq<Line>, v: int)
    requires r == pre + mid + post && lines == pre + mid0 + post
    requires StampsKept(LineStamps(mid), LineStamps(mid0), v)
    ensures StampsKept(LineStamps(r), LineStamps(lines), v)
  {
    LineStampsAppend(pre + mid, post);
    LineStampsAppend(pre, mid);
    LineStampsAppend(pre + mid0, post);
    LineStampsAppend(pre, mid0);
    KeptAround(LineStamps(pre), LineStamps(mid), LineStamps(mid0), LineStamps(post), v);
  }

  /** Dividing inline box `n` into a front `tail` and a new `head` keeps the inline boxes' stamps. */
  lemma CutInlinesStamps(ins: seq<Inline>, n: nat, tail: seq<Inline>, head: Inline, v: int)
    requires n < |ins| && head.version == v
    requires StampsKept(InlineStamps(tail) + AtomStamps(head.atomics), AtomStamps(ins[n].atomics), v)
    ensures StampsKept(InlineStamps(ins[..n] + tail) + InlineStamps([head] + ins[n + 1..]), InlineStamps(ins), v)
  {
    var pre, post := ins[..n], ins[n + 1..];
    assert ins == pre + [ins[n]] + post;
    InlineStampsMid(pre, ins[n], post);
    InlineStampsAppend(pre, tail);
    InlineStampsAppend([head], post);
    InlineStampsOne(head);
  }

  /** The two line boxes of a cut keep the stamps of the line they come from. */
  lemma CutPairStamps(line: Line, n: nat, front: seq<Atomic>, back: seq<Atomic>, lineUid: Uid, inlineUid: Uid, v: int)
    requires n < |line.inlines|
    requires StampsKept(AtomStamps(front) + AtomStamps(back), AtomStamps(line.inlines[n].atomics), v)
    ensures var ins := line.inlines;
      var tail := if front == [] then [] else [ins[n].(version := v, atomics := front)];
      StampsKept(LineStamps([line.(version := v, inlines := ins[..n] + tail),
                             Line(lineUid, v, line.width, [Inline(inlineUid, ins[n].id, v, back)] + ins[n + 1..])]),
                 LineStamps([line]), v)
  {
    var ins := line.inlines;
    var tail := if front == [] then [] else [ins[n].(version := v, atomics := front)];
    var head := Inline(inlineUid, ins[n].id, v, back);
    var a := line.(version := v, inlines := ins[..n] + tail);
    var b := Line(lineUid, v, line.width, [head] + ins[n + 1..]);
    if front != [] {
      InlineStampsOne(tail[0]);
    }
    assert InlineStamps(tail) + AtomStamps(head.atomics) == (if front == [] then [] else [Stamp(ins[n].uid, v)]) + (AtomStamps(front) + AtomStamps(back));
    CutInlinesStamps(ins, n, tail, head, v);
    assert [a, b] == [a] + [b];
    LineStampsAppend([a], [b]);
    LineStampsOne(a);
    LineStampsOne(b);
    LineStampsOne(line);
  }

  /**
   * A cut keeps the stamps when the divided atomic boxes do: the two line
   * boxes, the front half of the inline box and the new inline box carry
   * version `v`, and every other box is moved as it was.
   */
  lemma CutStamps(lines: seq<Line>, l: nat, n: nat, front: seq<Atomic>, back: seq<Atomic>,
                  lineUid: Uid, inlineUid: Uid, v: int)
    requires l < |lines| && n < |lines[l].inlines|
    requires StampsKept(AtomStamps(front) + AtomStamps(back), AtomStamps(lines[l].inlines[n].atomics), v)
    ensures StampsKept(LineStamps(Cut(lines, l, n, front, back, lineUid, inlineUid, v)), LineStamps(lines), v)
  {
    var line := lines[l];
    var ins := line.inlines;
    var tail := if front == [] then [] else [ins[n].(version := v, atomics := front)];
    var a := line.(version := v, inlines := ins[..n] + tail);
    var b := Line(lineUid, v, line.width, [Inline(inlineUid, ins[n].id, v, back)] + ins[n + 1..]);
    CutPairStamps(line, n, front, back, lineUid, inlineUid, v);
    Around(lines, l);
    ReplaceLinesStamps(Cut(lines, l, n, front, back, lineUid, inlineUid, v), lines, lines[..l], [a, b], [line], lines[l + 1..], v);
  }

  /** Restamped inline boxes carry version `v`; their atomic boxes are as they were. */
  lemma {:induction false} RestampStamps(ins: seq<Inline>, v: int)
    ensures StampsKept(InlineStamps(Restamp(ins, v)), InlineStamps(ins), v)
  {
    if ins != [] {
      assert Restamp(ins, v)[1..] == Restamp(ins[1..], v);
      RestampStamps(ins[1..], v);
    }
  }

  /** The merged line box keeps the stamps of the two lines it comes from. */
  lemma MergePairStamps(x: Line, y: Line, v: int)
    ensures StampsKept(LineStamps([x.(inlines := x.inlines + Restamp(y.inlines, v))]), LineStamps([x, y]), v)
  {
    var merged := x.(inlines := x.inlines + Restamp(y.inlines, v));
    assert [x, y] == [x] + [y];
    LineStampsAppend([x], [y]);
    LineStampsOne(x);
    LineStampsOne(y);
    LineStampsOne(merged);
    InlineStampsAppend(x.inlines, Restamp(y.inlines, v));
    RestampStamps(y.inlines, v);
  }

  /** A merge keeps the stamps: the merged inline boxes carry version `v`, the rest is kept. */
  lemma MergeStamps(lines: seq<Line>, l: nat, v: int)
    requires l + 1 < |lines|
    ensures StampsKept(LineStamps(Merge(lines, l, v)), LineStamps(lines), v)
  {
    var x, y := lines[l], lines[l + 1];
    var m := x.(inlines := x.inlines + Restamp(y.inlines, v));
    assert Merge(lines, l, v) == lines[..l] + [m] + lines[l + 2..];
    PairAround(lines, l);
    MergePairStamps(x, y, v);
    ReplaceLinesStamps(Merge(lines, l, v), lines, lines[..l], [m], [x, y], lines[l + 2..], v);
  }

  /** The text of a run of atomic boxes, seen around atomic box `m`. */
  lemma AtomsTextAround(bid: Id, iid: Id, ats: seq<Atomic>, m: nat)
    requires m < |ats|
    ensures AtomsText(bid, iid, ats) == AtomsText(bid, iid, ats[..m]) + AtomicText(bid, iid, ats[m]) + AtomsText(bid, iid, ats[m + 1..])
  {
    assert ats == ats[..m] + [ats[m]] + ats[m + 1..];
    AtomsTextAppend(bid, iid, ats[..m] + [ats[m]], ats[m + 1..]);
    AtomsTextAppend(bid, iid, ats[..m], [ats[m]]);
    assert [ats[m]][1..] == [];
  }

  // ---------------------------------------------------------------- the reflow's state

  /**
   * The local state of `reflowLineFlowBox`: the block's line boxes, the
   * index `cur` of `currentLineFlowBox` among them, the indices `n` of the
   * inline box and `m` of the atomic box being placed, `cumulatedWidth`,
   * the next fresh uid and the fuel left.
   */
  datatype LineCursor = LineCursor(lines: seq<Line>, cur: nat, n: nat, m: nat, cumulatedWidth: nat, nextUid: Uid, fuel: nat)

  /**
   * The reflow of `lines0` from line `l0` on, at line width `w` and version
   * `v`, has reached current line `cur` of `lines`: the lines before `l0` are as they were, the
   * lines after the current one are the last lines of `lines0`, the text is
   * unchanged, the lines from `l0` to the current one carry version `v`,
   * each of them before the current one fits, and every box either carries
   * version `v` or has the stamp of a box of `lines0`.
   */
  ghost predicate Reflowing(bid: Id, lines0: seq<Line>, l0: nat, w: nat, v: int, lines: seq<Line>, cur: nat)
  {
    ReflowingParts(bid, lines0, l0, w, v, lines, cur)
  }

  /** The clauses of Reflowing. */
  ghost predicate ReflowingParts(bid: Id, lines0: seq<Line>, l0: nat, w: nat, v: int, lines: seq<Line>, cur: nat)
  {
    && l0 < |lines0| && l0 <= cur < |lines|
    && lines[..l0] == lines0[..l0]
    && IsSuffix(lines[cur + 1..], lines0[l0 + 1..])
    && LinesText(bid, lines) == LinesText(bid, lines0)
    && (forall j :: l0 <= j <= cur ==> lines[j].version == v)
    && (forall j :: l0 <= j < cur ==> Fits(lines[j], w))
    && StampsKept(LineStamps(lines), LineStamps(lines0), v)
  }

  /** The cursor is at atomic position `m` of inline box `n` of the current line. */
  predicate Inside(t: LineCursor)
  {
    t.cur < |t.lines| && t.n < |t.lines[t.cur].inlines| && t.m <= |t.lines[t.cur].inlines[t.n].atomics|
  }

  /** The cursor is on atomic box `m` of inline box `n` of the current line. */
  predicate OnAtomic(t: LineCursor)
  {
    Inside(t) && t.m < |t.lines[t.cur].inlines[t.n].atomics|
  }

  /** The glyphs of the inline boxes before `n` on the current line. */
  function LineStart(t: LineCursor): seq<Glyph>
    requires Inside(t)
  {
    InlinesGlyphs(t.lines[t.cur].inlines[..t.n])
  }

  /** The glyphs before the cursor on the current line. */
  function InlineStart(t: LineCursor): seq<Glyph>
    requires Inside(t)
  {
    LineStart(t) + AtomsGlyphs(t.lines[t.cur].inlines[t.n].atomics[..t.m])
  }

  /**
   * A step of the reflow from `s` to `t` that leaves the lines before the
   * current one and the text alone, stamps the lines it reaches, finishes
   * only lines that fit and leaves a suffix of the lines after the current
   * one keeps the reflow going.
   */
  lemma Advance(bid: Id, lines0: seq<Line>, l0: nat, w: nat, v: int, sl: seq<Line>, sc: nat, tl: seq<Line>, tc: nat)
    requires Reflowing(bid, lines0, l0, w, v, sl, sc)
    requires sc <= tc < |tl| && tl[..sc] == sl[..sc]
    requires IsSuffix(tl[tc + 1..], sl[sc + 1..])
    requires LinesText(bid, tl) == LinesText(bid, sl)
    requires forall j :: sc <= j <= tc ==> tl[j].version == v
    requires forall j :: sc <= j < tc ==> Fits(tl[j], w)
    requires StampsKept(LineStamps(tl), LineStamps(sl), v)
    ensures Reflowing(bid, lines0, l0, w, v, tl, tc)
  {
    KeptTrans(LineStamps(tl), LineStamps(sl), LineStamps(lines0), v);
    SuffixTrans(tl[tc + 1..], sl[sc + 1..], lines0[l0 + 1..]);
    assert tl[..l0] == tl[..sc][..l0];
    assert sl[..l0] == sl[..sc][..l0];
    forall j | l0 <= j < sc
      ensures tl[j] == sl[j]
    {
      assert tl[j] == tl[..sc][j];
    }
  }

  /**
   * A cut of the current line keeps the reflow going, the first half
   * becoming a finished line, when that half fits.
   */
  lemma CutKeepsReflowing(bid: Id, lines0: seq<Line>, l0: nat, w: nat, v: int, lines: seq<Line>, cur: nat, n: nat,
                          front: seq<Atomic>, back: seq<Atomic>, lineUid: Uid, inlineUid: Uid)
    requires Reflowing(bid, lines0, l0, w, v, lines, cur) && n < |lines[cur].inlines|
    requires var inl := lines[cur].inlines[n];
      AtomsText(bid, inl.id, front) + AtomsText(bid, inl.id, back) == AtomsText(bid, inl.id, inl.atomics)
    requires GlyphsWidthWithoutTrailing(InlinesGlyphs(lines[cur].inlines[..n]) + AtomsGlyphs(front)) <= w
    requires StampsKept(AtomStamps(front) + AtomStamps(back), AtomStamps(lines[cur].inlines[n].atomics), v)
    ensures var r := Cut(lines, cur, n, front, back, lineUid, inlineUid, v);
      && Reflowing(bid, lines0, l0, w, v, r, cur + 1) && r[cur + 1].inlines != []
      && r[cur + 1].inlines[0].atomics == back
  {
    var r := Cut(lines, cur, n, front, back, lineUid, inlineUid, v);
    CutShape(lines, cur, n, front, back, lineUid, inlineUid, v);
    CutText(bid, lines, cur, n, front, back, lineUid, inlineUid, v);
    assert Fits(r[cur], w);
    CutStamps(lines, cur, n, front, back, lineUid, inlineUid, v);
    Advance(bid, lines0, l0, w, v, lines, cur, r, cur + 1);
  }

  // ---------------------------------------------------------------- the reflow's steps

  /**
   * Cutting the current line before atomic box `m` of inline box `n`: the
   * line box is split after inline box `n` and that inline box before atomic
   * box `m`, and the second halves become the current line and inline box.
   */
  method CutBefore(s: LineCursor, v: int, w: nat, ghost bid: Id, ghost lines0: seq<Line>, ghost l0: nat)
    returns (t: LineCursor)
    requires Reflowing(bid, lines0, l0, w, v, s.lines, s.cur) && Inside(s) && Placed(InlineStart(s), s.cumulatedWidth, w)
    ensures Reflowing(bid, lines0, l0, w, v, t.lines, t.cur) && Inside(t)
    ensures var ats := s.lines[s.cur].inlines[s.n].atomics;
      && t.lines == Cut(s.lines, s.cur, s.n, ats[..s.m], ats[s.m..], s.nextUid, s.nextUid + 1, v)
      && t.lines[t.cur].inlines[0].atomics == ats[s.m..]
    ensures t.cur == s.cur + 1 && t.n == 0 && t.m == 0 && t.nextUid == s.nextUid + 2
    ensures t.cumulatedWidth == s.cumulatedWidth && t.fuel == s.fuel
  {
    var inl := s.lines[s.cur].inlines[s.n];
    var ats := inl.atomics;
    assert ats == ats[..s.m] + ats[s.m..];
    AtomsTextAppend(bid, inl.id, ats[..s.m], ats[s.m..]);
    AtomStampsAppend(ats[..s.m], ats[s.m..]);
    CutKeepsReflowing(bid, lines0, l0, w, v, s.lines, s.cur, s.n, ats[..s.m], ats[s.m..], s.nextUid, s.nextUid + 1);
    t := s.(lines := Cut(s.lines, s.cur, s.n, ats[..s.m], ats[s.m..], s.nextUid, s.nextUid + 1, v),
            cur := s.cur + 1, n := 0, m := 0, nextUid := s.nextUid + 2);
  }

  /**
   * Slicing atomic box `m`, too wide for any line: the current line is cut
   * after inline box `n`, that inline box after atomic box `m`, and atomic
   * box `m` where `splitAtWidth` cuts it; its remainder, a new atomic box,
   * opens the new current line.
   */
  method SliceAtomic(s: LineCursor, v: int, w: nat, ghost bid: Id, ghost lines0: seq<Line>, ghost l0: nat)
    returns (t: LineCursor)
    requires Reflowing(bid, lines0, l0, w, v, s.lines, s.cur) && OnAtomic(s) && Placed(InlineStart(s), 0, w)
    ensures t.cur == s.cur + 1 && t.n == 0 && t.m == 0 && t.nextUid == s.nextUid + 3
    ensures t.cumulatedWidth == 0 && t.fuel == s.fuel
    ensures Reflowing(bid, lines0, l0, w, v, t.lines, t.cur) && OnAtomic(t)
    ensures var ats := s.lines[s.cur].inlines[s.n].atomics;
      var a := ats[s.m];
      var k := FitCount(a.glyphs, w);
      && t.lines == Cut(s.lines, s.cur, s.n, ats[..s.m] + [a.(version := v, glyphs := a.glyphs[..k])],
                        [Atomic(s.nextUid + 2, a.id, v, a.glyphs[k..], a.height)] + ats[s.m + 1..],
                        s.nextUid, s.nextUid + 1, v)
      && t.lines[t.cur].inlines[0].atomics[0] == Atomic(s.nextUid + 2, a.id, v, a.glyphs[k..], a.height)
  {
    var ats := s.lines[s.cur].inlines[s.n].atomics;
    var a := ats[s.m];
    var k := FitCount(a.glyphs, w);
    var front := ats[..s.m] + [a.(version := v, glyphs := a.glyphs[..k])];
    var back := [Atomic(s.nextUid + 2, a.id, v, a.glyphs[k..], a.height)] + ats[s.m + 1..];
    SliceText(bid, s.lines[s.cur].inlines[s.n], s.m, k, s.nextUid + 2, v);
    SliceFits(InlineStart(s), LineStart(s), ats, s.m, k, v, w);
    SliceStamps(ats, s.m, front[s.m], back[0], v);
    assert front == ats[..s.m] + [front[s.m]] && back == [back[0]] + ats[s.m + 1..];
    CutKeepsReflowing(bid, lines0, l0, w, v, s.lines, s.cur, s.n, front, back, s.nextUid, s.nextUid + 1);
    t := s.(lines := Cut(s.lines, s.cur, s.n, front, back, s.nextUid, s.nextUid + 1, v),
            cur := s.cur + 1, n := 0, m := 0, nextUid := s.nextUid + 3, cumulatedWidth := 0);
  }

  /** Slicing atomic box `m` into two boxes of version `v` keeps the atomic boxes' stamps. */
  lemma SliceStamps(ats: seq<Atomic>, m: nat, head: Atomic, rest: Atomic, v: int)
    requires m < |ats| && head.version == v && rest.version == v
    ensures StampsKept(AtomStamps(ats[..m] + [head]) + AtomStamps([rest] + ats[m + 1..]), AtomStamps(ats), v)
  {
    Around(ats, m);
    AtomStampsMid(ats[..m], ats[m], ats[m + 1..]);
    AtomStampsAppend(ats[..m], [head]);
    AtomStampsAppend([rest], ats[m + 1..]);
    assert [head][1..] == [] && [rest][1..] == [];
  }

  /** Slicing atomic box `m` of an inline box after glyph `k` divides the inline box's text without loss. */
  lemma SliceText(bid: Id, inl: Inline, m: nat, k: nat, uid: Uid, v: int)
    requires m < |inl.atomics| && k <= |inl.atomics[m].glyphs|
    ensures var ats := inl.atomics;
      var a := ats[m];
      AtomsText(bid, inl.id, ats[..m] + [a.(version := v, glyphs := a.glyphs[..k])])
        + AtomsText(bid, inl.id, [Atomic(uid, a.id, v, a.glyphs[k..], a.height)] + ats[m + 1..])
      == AtomsText(bid, inl.id, ats)
  {
    var ats := inl.atomics;
    var a := ats[m];
    var head := a.(version := v, glyphs := a.glyphs[..k]);
    var rest := Atomic(uid, a.id, v, a.glyphs[k..], a.height);
    AtomsTextAround(bid, inl.id, ats, m);
    AtomsTextAppend(bid, inl.id, ats[..m], [head]);
    AtomsTextAppend(bid, inl.id, [rest], ats[m + 1..]);
    assert [head][1..] == [] && [rest][1..] == [];
    AtomicTextSplit(bid, inl.id, a, k, a.uid, v, uid, v);
  }

  /**
   * The first half of a sliced line fits: nothing of any width is placed
   * before the slice, and the slice is no wider than the line.
   */
  lemma SliceFits(placed: seq<Glyph>, start: seq<Glyph>, ats: seq<Atomic>, m: nat, k: nat, v: int, w: nat)
    requires m < |ats| && k <= |ats[m].glyphs| && GlyphsWidth(ats[m].glyphs[..k]) <= w
    requires placed == start + AtomsGlyphs(ats[..m]) && Placed(placed, 0, w)
    ensures GlyphsWidthWithoutTrailing(start + AtomsGlyphs(ats[..m] + [ats[m].(version := v, glyphs := ats[m].glyphs[..k])])) <= w
  {
    var head := ats[m].(version := v, glyphs := ats[m].glyphs[..k]);
    AtomsGlyphsAppend(ats[..m], [head]);
    assert [head][1..] == [];
    assert AtomsGlyphs([head]) == head.glyphs;
    assert start + AtomsGlyphs(ats[..m] + [head]) == placed + head.glyphs;
    WidthWithoutTrailingAppend(placed, head.glyphs);
  }

  /**
   * Merging the next line into the current one, after the last inline box
   * of the current line was placed and the next line's first atomic box
   * fits behind it.
   */
  method MergeNext(s: LineCursor, v: int, w: nat, ghost bid: Id, ghost lines0: seq<Line>, ghost l0: nat)
    returns (t: LineCursor)
    requires Reflowing(bid, lines0, l0, w, v, s.lines, s.cur) && s.cur + 1 < |s.lines|
    requires s.n == |s.lines[s.cur].inlines| && s.m == 0 && s.lines[s.cur + 1].inlines != []
    requires Placed(InlinesGlyphs(s.lines[s.cur].inlines), s.cumulatedWidth, w)
    ensures Reflowing(bid, lines0, l0, w, v, t.lines, t.cur) && Inside(t) && Placed(LineStart(t), t.cumulatedWidth, w)
    ensures t == s.(lines := Merge(s.lines, s.cur, v))
  {
    t := s.(lines := Merge(s.lines, s.cur, v));
    MergeKeepsReflowing(bid, lines0, l0, w, v, s.lines, s.cur);
    MergeText(bid, s.lines, s.cur, v);
    assert t.lines[t.cur].inlines[..t.n] == s.lines[s.cur].inlines;
  }

  /** Merging the next line into the current one keeps the reflow going. */
  lemma MergeKeepsReflowing(bid: Id, lines0: seq<Line>, l0: nat, w: nat, v: int, lines: seq<Line>, cur: nat)
    requires Reflowing(bid, lines0, l0, w, v, lines, cur) && cur + 1 < |lines|
    ensures Reflowing(bid, lines0, l0, w, v, Merge(lines, cur, v), cur)
  {
    var r := Merge(lines, cur, v);
    MergeText(bid, lines, cur, v);
    SuffixTail(lines[cur + 1..], lines[cur + 1..]);
    assert lines[cur + 1..][1..] == r[cur + 1..];
    MergeStamps(lines, cur, v);
    Advance(bid, lines0, l0, w, v, lines, cur, r, cur);
  }

  // ---------------------------------------------------------------- the reflow's loops

  /**
   * The loop that slices an atomic box wider than the line (LayoutEngine.ts
   * lines 377-420). When something is already placed on the line, the line
   * is first cut before the atomic box; then the atomic box is sliced at the
   * line width and its remainder, on a line of its own, is measured again.
   * `stalled` says the fuel ran out.
   */
  method SliceOversize(s: LineCursor, v: int, w: nat, ghost bid: Id, ghost lines0: seq<Line>, ghost l0: nat)
    returns (t: LineCursor, stalled: bool)
    requires Reflowing(bid, lines0, l0, w, v, s.lines, s.cur) && OnAtomic(s) && Placed(InlineStart(s), s.cumulatedWidth, w)
    ensures Reflowing(bid, lines0, l0, w, v, t.lines, t.cur) && OnAtomic(t) && Placed(InlineStart(t), t.cumulatedWidth, w)
    ensures !stalled ==> AtomicWidthWithoutTrailing(t.lines[t.cur].inlines[t.n].atomics[t.m]) <= w
    ensures t.nextUid >= s.nextUid && t.fuel <= s.fuel
  {
    t := s;
    while AtomicWidthWithoutTrailing(t.lines[t.cur].inlines[t.n].atomics[t.m]) > w
      invariant Reflowing(bid, lines0, l0, w, v, t.lines, t.cur) && OnAtomic(t) && Placed(InlineStart(t), t.cumulatedWidth, w)
      invariant t.nextUid >= s.nextUid && t.fuel <= s.fuel
      decreases t.fuel
    {
      if t.fuel == 0 {
        return t, true;
      }
      t := t.(fuel := t.fuel - 1);
      if t.cumulatedWidth > 0 {
        t := CutBefore(t, v, w, bid, lines0, l0);
        assert InlineStart(t) == [];
      }
      t := SliceAtomic(t, v, w, bid, lines0, l0);
      assert InlineStart(t) == [];
    }
    stalled := false;
  }

  /** The glyphs of the first `m + 1` atomic boxes. */
  lemma AtomsGlyphsSnoc(ats: seq<Atomic>, m: nat)
    requires m < |ats|
    ensures AtomsGlyphs(ats[..m + 1]) == AtomsGlyphs(ats[..m]) + ats[m].glyphs
  {
    assert ats[..m + 1] == ats[..m] + [ats[m]];
    AtomsGlyphsAppend(ats[..m], [ats[m]]);
    assert [ats[m]][1..] == [];
  }

  /** Placing atomic box `m` behind the first `m`, when it fits, keeps all of them placed. */
  lemma PlaceAtomic(g: seq<Glyph>, ats: seq<Atomic>, m: nat, cumulatedWidth: nat, w: nat)
    requires m < |ats| && Placed(g + AtomsGlyphs(ats[..m]), cumulatedWidth, w)
    requires cumulatedWidth + AtomicWidthWithoutTrailing(ats[m]) <= w
    ensures Placed(g + AtomsGlyphs(ats[..m + 1]), cumulatedWidth + AtomicWidth(ats[m]), w)
  {
    var p := AtomsGlyphs(ats[..m]);
    assert g + AtomsGlyphs(ats[..m + 1]) == (g + p) + ats[m].glyphs by {
      AtomsGlyphsSnoc(ats, m);
    }
    PlaceMore(g + p, ats[m].glyphs, cumulatedWidth, w);
  }

  /** What is placed before the cursor includes what is placed before its inline box. */
  lemma BackToLineStart(t: LineCursor, w: nat)
    requires Inside(t) && Placed(InlineStart(t), t.cumulatedWidth, w)
    ensures Placed(LineStart(t), t.cumulatedWidth, w)
  {
    PlacedPrefix(LineStart(t), AtomsGlyphs(t.lines[t.cur].inlines[t.n].atomics[..t.m]), t.cumulatedWidth, w);
  }

  /**
   * The `for` loop over the atomic boxes of inline box `n` (lines 374-441):
   * each atomic box, once no wider than the line, is placed if it fits
   * behind what is already placed; at the first that does not, the line is
   * cut before it and the loop ends.
   */
  method ScanAtomics(s: LineCursor, v: int, w: nat, ghost bid: Id, ghost lines0: seq<Line>, ghost l0: nat)
    returns (t: LineCursor, stalled: bool)
    requires Reflowing(bid, lines0, l0, w, v, s.lines, s.cur) && Inside(s) && s.m == 0 && Placed(LineStart(s), s.cumulatedWidth, w)
    ensures Reflowing(bid, lines0, l0, w, v, t.lines, t.cur) && Inside(t) && Placed(LineStart(t), t.cumulatedWidth, w)
    ensures t.nextUid >= s.nextUid && t.fuel <= s.fuel
  {
    t := s;
    assert InlineStart(t) == LineStart(t) by {
      assert t.lines[t.cur].inlines[t.n].atomics[..0] == [];
      assert LineStart(t) + [] == LineStart(t);
    }
    while t.m < |t.lines[t.cur].inlines[t.n].atomics|
      invariant Reflowing(bid, lines0, l0, w, v, t.lines, t.cur) && Inside(t) && Placed(InlineStart(t), t.cumulatedWidth, w)
      invariant t.nextUid >= s.nextUid && t.fuel <= s.fuel
      decreases t.fuel
    {
      if t.fuel == 0 {
        BackToLineStart(t, w);
        return t, true;
      }
      t := t.(fuel := t.fuel - 1);
      t, stalled := SliceOversize(t, v, w, bid, lines0, l0);
      if stalled {
        BackToLineStart(t, w);
        return;
      }
      var ats := t.lines[t.cur].inlines[t.n].atomics;
      var atomicBox := ats[t.m];
      if t.cumulatedWidth + AtomicWidthWithoutTrailing(atomicBox) > w {
        t := CutBefore(t, v, w, bid, lines0, l0);
        t := t.(cumulatedWidth := 0);
        assert LineStart(t) == [];
        return;
      }
      PlaceAtomic(LineStart(t), ats, t.m, t.cumulatedWidth, w);
      t := t.(cumulatedWidth := t.cumulatedWidth + AtomicWidth(atomicBox), m := t.m + 1);
    }
    BackToLineStart(t, w);
    stalled := false;
  }

  /**
   * The loop that runs while inline box `n` does not fit behind what is
   * placed on the line (lines 372-442), each round scanning its atomic
   * boxes from the first.
   */
  method FitInline(s: LineCursor, v: int, w: nat, ghost bid: Id, ghost lines0: seq<Line>, ghost l0: nat)
    returns (t: LineCursor, stalled: bool)
    requires Reflowing(bid, lines0, l0, w, v, s.lines, s.cur) && Inside(s) && Placed(LineStart(s), s.cumulatedWidth, w)
    ensures Reflowing(bid, lines0, l0, w, v, t.lines, t.cur) && Inside(t) && Placed(LineStart(t), t.cumulatedWidth, w)
    ensures !stalled ==> t.cumulatedWidth + InlineWidthWithoutTrailing(t.lines[t.cur].inlines[t.n]) <= w
    ensures t.nextUid >= s.nextUid && t.fuel <= s.fuel
  {
    t := s;
    while t.cumulatedWidth + InlineWidthWithoutTrailing(t.lines[t.cur].inlines[t.n]) > w
      invariant Reflowing(bid, lines0, l0, w, v, t.lines, t.cur) && Inside(t) && Placed(LineStart(t), t.cumulatedWidth, w)
      invariant t.nextUid >= s.nextUid && t.fuel <= s.fuel
      decreases t.fuel
    {
      if t.fuel == 0 {
        return t, true;
      }
      t := t.(fuel := t.fuel - 1, m := 0);
      t, stalled := ScanAtomics(t, v, w, bid, lines0, l0);
      if stalled {
        return;
      }
    }
    stalled := false;
  }

  /** Placing inline box `n` behind the first `n`, when it fits, keeps all of them placed. */
  lemma PlaceInlineBox(ins: seq<Inline>, n: nat, cumulatedWidth: nat, w: nat)
    requires n < |ins| && Placed(InlinesGlyphs(ins[..n]), cumulatedWidth, w)
    requires cumulatedWidth + InlineWidthWithoutTrailing(ins[n]) <= w
    ensures Placed(InlinesGlyphs(ins[..n + 1]), cumulatedWidth + InlineWidth(ins[n]), w)
  {
    assert InlinesGlyphs(ins[..n + 1]) == InlinesGlyphs(ins[..n]) + AtomsGlyphs(ins[n].atomics) by {
      assert ins[..n + 1] == ins[..n] + [ins[n]];
      InlinesGlyphsAppend(ins[..n], [ins[n]]);
      assert [ins[n]][1..] == [];
    }
    PlaceMore(InlinesGlyphs(ins[..n]), AtomsGlyphs(ins[n].atomics), cumulatedWidth, w);
  }

  /**
   * One round of the `while (true)` loop (lines 365-465): inline box `n` is
   * fitted onto the line as FitInline does and placed. When it was the last
   * inline box of the line, the reflow finishes at the block's last line,
   * stops at a next line without an atomic box to measure (`undefined` in
   * the source), merges the next line when its first atomic box fits behind
   * what is placed, and finishes otherwise.
   */
  method PlaceInline(s: LineCursor, v: int, w: nat, ghost bid: Id, ghost lines0: seq<Line>, ghost l0: nat)
    returns (t: LineCursor, stop: Option<Ending>)
    requires Reflowing(bid, lines0, l0, w, v, s.lines, s.cur) && Inside(s) && Placed(LineStart(s), s.cumulatedWidth, w)
    ensures Reflowing(bid, lines0, l0, w, v, t.lines, t.cur)
    ensures stop.None? ==> Inside(t) && Placed(LineStart(t), t.cumulatedWidth, w)
    ensures stop == Some(Finished) ==> Fits(t.lines[t.cur], w)
    ensures t.nextUid >= s.nextUid && t.fuel <= s.fuel
  {
    var stalled;
    t, stalled := FitInline(s, v, w, bid, lines0, l0);
    if stalled {
      return t, Some(OutOfFuel);
    }
    var ins := t.lines[t.cur].inlines;
    var inlineBox := ins[t.n];
    PlaceInlineBox(ins, t.n, t.cumulatedWidth, w);
    t := t.(cumulatedWidth := t.cumulatedWidth + InlineWidth(inlineBox), n := t.n + 1, m := 0);
    stop := None;
    if t.n == |ins| {
      assert ins[..t.n] == ins;
      if t.cur + 1 >= |t.lines| {
        stop := Some(Finished);
      } else {
        var next := t.lines[t.cur + 1];
        if next.inlines == [] || next.inlines[0].atomics == [] {
          stop := Some(Undefined);
        } else if t.cumulatedWidth + AtomicWidth(next.inlines[0].atomics[0]) <= t.lines[t.cur].width {
          t := MergeNext(t, v, w, bid, lines0, l0);
        } else {
          stop := Some(Finished);
        }
      }
    }
  }

  /** The reflow starts at line `l0`, with nothing placed. */
  lemma StartReflowing(bid: Id, lines0: seq<Line>, l0: nat, v: int, t: LineCursor)
    requires l0 < |lines0| && lines0[l0].version == v
    requires t.lines == lines0 && t.cur == l0 && t.n == 0 && t.m == 0 && t.cumulatedWidth == 0
    ensures Reflowing(bid, lines0, l0, lines0[l0].width, v, t.lines, t.cur)
    ensures lines0[l0].inlines != [] ==> Inside(t) && Placed(LineStart(t), 0, lines0[l0].width)
  {
    assert lines0[l0 + 1..] == lines0[|lines0| - |lines0[l0 + 1..]|..];
    assert lines0[l0].inlines[..0] == [];
  }

  /**
   * The `while (true)` loop of `reflowLineFlowBox`: inline boxes are placed
   * one at a time until the reflow ends.
   */
  method PlaceInlines(s: LineCursor, v: int, w: nat, ghost bid: Id, ghost lines0: seq<Line>, ghost l0: nat)
    returns (t: LineCursor, ending: Ending)
    requires Reflowing(bid, lines0, l0, w, v, s.lines, s.cur) && Inside(s) && Placed(LineStart(s), s.cumulatedWidth, w)
    ensures Reflowing(bid, lines0, l0, w, v, t.lines, t.cur)
    ensures ending == Finished ==> Fits(t.lines[t.cur], w)
    ensures t.nextUid >= s.nextUid
  {
    t := s;
    while true
      invariant Reflowing(bid, lines0, l0, w, v, t.lines, t.cur) && Inside(t) && Placed(LineStart(t), t.cumulatedWidth, w)
      invariant t.nextUid >= s.nextUid
      decreases t.fuel
    {
      if t.fuel == 0 {
        return t, OutOfFuel;
      }
      var stop;
      t, stop := PlaceInline(t.(fuel := t.fuel - 1), v, w, bid, lines0, l0);
      if stop.Some? {
        return t, stop.value;
      }
    }
  }

  /** What Reflowing says of the lines, in the terms of ReflowLines' contract. */
  lemma ReflowingFacts(bid: Id, lines0: seq<Line>, l0: nat, w: nat, v: int, lines: seq<Line>, cur: nat)
    requires Reflowing(bid, lines0, l0, w, v, lines, cur)
    ensures l0 <= cur < |lines| && lines[..l0] == lines0[..l0]
    ensures LinesText(bid, lines) == LinesText(bid, lines0)
    ensures IsSuffix(lines[cur + 1..], lines0[l0 + 1..])
    ensures forall j :: l0 <= j <= cur ==> lines[j].version == v
    ensures forall j :: l0 <= j < cur ==> Fits(lines[j], w)
    ensures StampsKept(LineStamps(lines), LineStamps(lines0), v)
  {
  }

  /**
   * `reflowLineFlowBox` on the line boxes `lines0` of a block with id `bid`,
   * from line `l0`, whose version the caller has set to `v` (lines 364-466).
   * The result keeps the text and the lines before `l0`; every line from
   * `l0` to `last` carries version `v`, every one before `last` fits the
   * width of line `l0`, and so does `last` when the reflow finishes; the
   * lines after `last` are the last lines of `lines0`. Every box of the
   * result carries version `v` or has the stamp of a box of `lines0`: the
   * boxes the reflow did not split, move up or create keep their versions.
   * A line `l0` with no
   * inline box stops the reflow at once (`undefined` in the source).
   */
  method ReflowLines(lines0: seq<Line>, l0: nat, bid: Id, v: int, uid0: Uid, fuel0: nat)
    returns (lines: seq<Line>, last: nat, nextUid: Uid, ending: Ending)
    requires l0 < |lines0| && lines0[l0].version == v
    ensures l0 <= last < |lines| && lines[..l0] == lines0[..l0]
    ensures LinesText(bid, lines) == LinesText(bid, lines0)
    ensures IsSuffix(lines[last + 1..], lines0[l0 + 1..])
    ensures forall j :: l0 <= j <= last ==> lines[j].version == v
    ensures forall j :: l0 <= j < last ==> Fits(lines[j], lines0[l0].width)
    ensures ending == Finished ==> Fits(lines[last], lines0[l0].width)
    ensures StampsKept(LineStamps(lines), LineStamps(lines0), v)
    ensures lines0[l0].inlines == [] ==> ending == Undefined && lines == lines0
    ensures nextUid >= uid0
  {
    var w := lines0[l0].width;
    var t := LineCursor(lines0, l0, 0, 0, 0, uid0, fuel0);
    StartReflowing(bid, lines0, l0, v, t);
    ending := Undefined;
    if lines0[l0].inlines != [] {
      t, ending := PlaceInlines(t, v, w, bid, lines0, l0);
    }
    lines, last, nextUid := t.lines, t.cur, t.nextUid;
    ReflowingFacts(bid, lines0, l0, w, v, lines, last);
  }

  // ---------------------------------------------------------------- the running width's over-count

  /** Glyphs each one unit wide measure their number. */
  lemma {:induction false} UnitGlyphsWidth(gs: seq<Glyph>)
    requires forall k :: 0 <= k < |gs| ==> gs[k].width == 1
    ensures GlyphsWidth(gs) == |gs|
  {
    if gs != [] {
      UnitGlyphsWidth(gs[1..]);
    }
  }

  /**
   * The over-counted running width can leave a line box with no inline box.
   * Line 10 of width 10 holds one inline box holding one atomic box of 16
   * glyphs `c` (not a space), each 1 wide; the reflow's next uid is 20.
   * SliceAtomic keeps the 10 glyphs FitCount allows and opens line box 20
   * with inline box 21 holding the remaining 6 glyphs as atomic box 22,
   * with `cumulatedWidth` 0. ScanAtomics places that atomic box
   * (`cumulatedWidth` 6) and its loop ends without a break; FitInline then
   * checks 6 plus the inline box's width, 12, against 10 and scans again.
   * The atomic box, 6 wide, fits the line but not behind 6, so CutBefore
   * cuts the line before atomic box 0 of inline box 0: line box 20, left
   * behind as a finished line, holds no inline box at all.
   */
  lemma OverCountEmptiesLine(c: char, bid: Id, iid: Id, aid: Id, v: int)
    requires c != ' '
    ensures var gs := seq(16, _ => Glyph(c, 1));
      var lines := [Line(10, v, 10, [Inline(11, iid, v, [Atomic(12, aid, v, gs, 1)])])];
      var k := FitCount(gs, 10);
      var rest := Atomic(22, aid, v, gs[k..], 1);
      var sliced := Cut(lines, 0, 0, [Atomic(12, aid, v, gs[..k], 1)], [rest], 20, 21, v);
      var cut := Cut(sliced, 1, 0, [rest][..0], [rest][0..], 23, 24, v);
      && k == 10 && AtomicWidthWithoutTrailing(Atomic(12, aid, v, gs, 1)) > 10
      && sliced[1] == Line(20, v, 10, [Inline(21, iid, v, [rest])])
      && AtomicWidthWithoutTrailing(rest) <= 10 && AtomicWidth(rest) == 6
      && AtomicWidth(rest) + InlineWidthWithoutTrailing(sliced[1].inlines[0]) > 10
      && AtomicWidth(rest) + AtomicWidthWithoutTrailing(rest) > 10
      && |cut| == 3 && cut[1].uid == 20 && cut[1].inlines == []
      && cut[2] == Line(23, v, 10, [Inline(24, iid, v, [rest])])
  {
    var gs := seq(16, _ => Glyph(c, 1));
    UnitGlyphsWidth(gs);
    var k := FitCount(gs, 10);
    UnitGlyphsWidth(gs[..k]);
    if k < |gs| {
      UnitGlyphsWidth(gs[..k + 1]);
    }
    assert k == 10;
    UnitGlyphsWidth(gs[k..]);
    var rest := Atomic(22, aid, v, gs[k..], 1);
    assert [rest][1..] == [];
    assert AtomsGlyphs([rest]) == rest.glyphs;
  }
}
