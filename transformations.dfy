/**
 * The operations that editor commands emit, and what applying them means.
 *
 * Commands return a state transformation (edits to the document's token
 * sequence) and a cursor transformation. The operation classes themselves
 * are not part of this model; `ApplyState` and `ApplyCursor` give the
 * meaning the commands rely on.
 */
module Transformations {

  import opened Results

  /** A document token: a character, a closing tag, or an opening tag with its type and id. */
  datatype Token = Char(c: char) | CloseTag | OpenTag(tagType: string, id: string)

  /** `Delete(from, to)` removes the tokens at offsets from..to, both included. */
  datatype StateOperation = Delete(from: int, to: int) | Insert(at: int, tokens: seq<Token>)

  /** `MoveTo(o)` puts a collapsed cursor at o; `Translate(d)` collapses it at head + d. */
  datatype CursorOperation = MoveTo(offset: int) | Translate(delta: int)

  /** The cursor: anchor and head offsets; collapsed when they are equal. */
  datatype Cursor = Cursor(anchor: int, head: int)
  {
    predicate Collapsed() { anchor == head }
    function Min(): int { if anchor <= head then anchor else head }
    function Max(): int { if anchor <= head then head else anchor }
  }

  datatype Transformation = Transformation(state: seq<StateOperation>, cursor: seq<CursorOperation>)

  /** Applies state operations in order; an operation whose offsets do not fit the document is an error. */
  function ApplyState(doc: seq<Token>, ops: seq<StateOperation>): (r: Option<seq<Token>>)
    decreases |ops|
  {
    if ops == [] then Some(doc)
    else
      match ops[0]
      case Delete(from, to) =>
        if 0 <= from <= to + 1 <= |doc| then ApplyState(doc[..from] + doc[to + 1..], ops[1..]) else None
      case Insert(at, tokens) =>
        if 0 <= at <= |doc| then ApplyState(doc[..at] + tokens + doc[at..], ops[1..]) else None
  }

  /** Applies cursor operations in order. */
  function ApplyCursor(c: Cursor, ops: seq<CursorOperation>): Cursor
    decreases |ops|
  {
    if ops == [] then c
    else
      match ops[0]
      case MoveTo(o) => ApplyCursor(Cursor(o, o), ops[1..])
      case Translate(d) => ApplyCursor(Cursor(c.head + d, c.head + d), ops[1..])
  }
}
