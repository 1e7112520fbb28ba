/** The `breakLine` edit command of the edit extension. */
module BreakLineCommand {

  import opened Results
  import opened Transformations

  /** The five tokens that split the current paragraph in two. */
  function BreakTokens(paragraphId: string, textId: string): seq<Token>
  {
    [Char('\n'), CloseTag, CloseTag, OpenTag("Paragraph", paragraphId), OpenTag("Text", textId)]
  }

  /**
   * `breakLine`. `anchor` and `head` are the model offsets that
   * `convertSelectableOffsetToModelOffset` gives for the cursor's selectable
   * offsets `cursorAnchor` and `cursorHead`; `paragraphId` and `textId` are the
   * two values `generateID` returns. A selection is deleted first (the range
   * from its minimum to one before its maximum), then the break tokens are
   * inserted at the minimum, and the cursor moves to one past the selection's start.
   */
  function BreakLine(cursorAnchor: int, cursorHead: int, anchor: int, head: int,
                     paragraphId: string, textId: string): (r: Transformation)
    ensures anchor != head ==>
      |r.state| == 2 && r.state[0] == Delete(Cursor(anchor, head).Min(), Cursor(anchor, head).Max() - 1)
    ensures anchor == head ==> |r.state| == 1
    ensures r.state[|r.state| - 1] == Insert(Cursor(anchor, head).Min(), BreakTokens(paragraphId, textId))
    ensures |r.state[|r.state| - 1].tokens| == 5
    ensures r.cursor == [MoveTo(Cursor(cursorAnchor, cursorHead).Min() + 1)]
  {
    var deletes := if anchor != head
      then [Delete(if anchor <= head then anchor else head, (if anchor <= head then head else anchor) - 1)]
      else [];
    var insertAt := if anchor <= head then anchor else head;
    var cursorAt := if cursorAnchor <= cursorHead then cursorAnchor else cursorHead;
    Transformation(deletes + [Insert(insertAt, BreakTokens(paragraphId, textId))], [MoveTo(cursorAt + 1)])
  }

  /** Swapping anchor and head (and their selectable offsets) gives the same operations. */
  lemma BreakLineSymmetric(cursorAnchor: int, cursorHead: int, anchor: int, head: int,
                           paragraphId: string, textId: string)
    ensures BreakLine(cursorAnchor, cursorHead, anchor, head, paragraphId, textId)
         == BreakLine(cursorHead, cursorAnchor, head, anchor, paragraphId, textId)
  {
  }

  /**
   * Applied to a document, the operations replace the selected tokens
   * (from the selection's minimum up to, not including, its maximum) by the
   * break tokens.
   */
  lemma BreakLineEffect(doc: seq<Token>, cursorAnchor: int, cursorHead: int, anchor: int, head: int,
                        paragraphId: string, textId: string)
    requires 0 <= anchor <= |doc| && 0 <= head <= |doc|
    ensures var lo := Cursor(anchor, head).Min();
            var hi := Cursor(anchor, head).Max();
            ApplyState(doc, BreakLine(cursorAnchor, cursorHead, anchor, head, paragraphId, textId).state)
            == Some(doc[..lo] + BreakTokens(paragraphId, textId) + doc[hi..])
  {
    var lo := Cursor(anchor, head).Min();
    var hi := Cursor(anchor, head).Max();
    var ops := BreakLine(cursorAnchor, cursorHead, anchor, head, paragraphId, textId).state;
    var ins := Insert(lo, BreakTokens(paragraphId, textId));
    if anchor == head {
      assert ops == [ins];
      assert ApplyState(doc, ops) == ApplyState(doc[..lo] + BreakTokens(paragraphId, textId) + doc[lo..], []);
    } else {
      var rest := doc[..lo] + doc[hi..];
      assert ops[1..] == [ins];
      assert ApplyState(doc, ops) == ApplyState(rest, [ins]);
      assert rest[..lo] == doc[..lo] && rest[lo..] == doc[hi..];
      assert ApplyState(rest, [ins]) == ApplyState(rest[..lo] + BreakTokens(paragraphId, textId) + rest[lo..], []);
    }
  }
}
