/** The `moveBackward` cursor command of the editor's cursor package. */
module MoveBackwardCommand {

  import opened Results
  import opened Transformations

  /**
   * `moveBackward`: a collapsed cursor steps one offset to the left unless it
   * is at offset 0; a selection whose head is right of its anchor translates
   * by `anchor - head`, one whose head is left of the anchor by 0.
   */
  function MoveBackward(cursor: Option<Cursor>): (r: seq<CursorOperation>)
    ensures |r| <= 1
    ensures cursor.None? ==> r == []
    ensures cursor.Some? && cursor.value.Collapsed() ==>
      (if cursor.value.head < 1 then r == [] else r == [Translate(-1)])
    ensures cursor.Some? && cursor.value.anchor < cursor.value.head ==>
      r == [Translate(cursor.value.anchor - cursor.value.head)] && r[0].delta < 0
    ensures cursor.Some? && cursor.value.anchor > cursor.value.head ==> r == [Translate(0)]
  {
    match cursor
    case None => []
    case Some(c) =>
      if c.anchor == c.head then
        if c.head < 1 then [] else [Translate(-1)]
      else if c.anchor < c.head then [Translate(c.anchor - c.head)]
      else if c.anchor > c.head then [Translate(0)]
      else []
  }

  /**
   * What the command does to the cursor: a selection collapses at its left end
   * (the head lands on the anchor, or stays where it is); a collapsed cursor
   * moves one left and never below offset 0.
   */
  lemma MoveBackwardEffect(c: Cursor)
    requires c.anchor >= 0 && c.head >= 0
    ensures var c' := ApplyCursor(c, MoveBackward(Some(c)));
      && (!c.Collapsed() ==> c'.Collapsed() && c'.head == c.Min())
      && (c.Collapsed() && c.head >= 1 ==> c'.head == c.head - 1 && c'.Collapsed())
      && (c.Collapsed() ==> c'.head >= 0)
  {
    var ops := MoveBackward(Some(c));
    if ops != [] {
      assert ops[1..] == [];
    }
  }
}
