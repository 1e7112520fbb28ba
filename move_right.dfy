/** The `moveRight` cursor command of the cursor extension. */
module MoveRightCommand {

  import opened Results
  import opened Transformations

  /**
   * `moveRight`: a collapsed cursor steps one offset to the right unless it
   * is already at the last selectable offset; a selection collapses at its
   * right end. `selectableSize` is the document box's selectable size (a
   * query on the layout that is an input here).
   */
  function MoveRight(cursor: Option<Cursor>, selectableSize: int): (r: Transformation)
    ensures r.state == [] && |r.cursor| <= 1
    ensures cursor.None? ==> r.cursor == []
    ensures cursor.Some? && cursor.value.Collapsed() ==>
      (r.cursor == [] <==> cursor.value.head >= selectableSize - 1)
    ensures cursor.Some? && cursor.value.Collapsed() && cursor.value.head < selectableSize - 1 ==>
      r.cursor == [MoveTo(cursor.value.head + 1)] && cursor.value.head + 1 <= selectableSize - 1
    ensures cursor.Some? && !cursor.value.Collapsed() ==> r.cursor == [MoveTo(cursor.value.Max())]
  {
    match cursor
    case None => Transformation([], [])
    case Some(c) =>
      if c.anchor == c.head then
        if c.head >= selectableSize - 1 then Transformation([], [])
        else Transformation([], [MoveTo(c.head + 1)])
      else if c.anchor < c.head then Transformation([], [MoveTo(c.head)])
      else if c.anchor > c.head then Transformation([], [MoveTo(c.anchor)])
      else Transformation([], [])
  }

  /**
   * What the command does to the cursor: it ends collapsed; a collapsed cursor
   * advances by one and stays within the last selectable offset, or stays put
   * at the end; a selection collapses at its maximum.
   */
  lemma MoveRightEffect(c: Cursor, selectableSize: int)
    requires c.head <= selectableSize - 1 || !c.Collapsed()
    ensures var c' := ApplyCursor(c, MoveRight(Some(c), selectableSize).cursor);
      && (c.Collapsed() ==> c'.Collapsed() && c'.head <= selectableSize - 1)
      && (c.Collapsed() && c.head < selectableSize - 1 ==> c'.head == c.head + 1)
      && (c.Collapsed() && c.head == selectableSize - 1 ==> c' == c)
      && (!c.Collapsed() ==> c'.Collapsed() && c'.head == c.Max())
  {
    var ops := MoveRight(Some(c), selectableSize).cursor;
    if ops != [] {
      assert ops[1..] == [];
    }
  }
}
