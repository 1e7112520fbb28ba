/**
 * The render tree the layout engine mirrors: document, block, inline and
 * atomic render nodes, each with a stable id and a version. It is built
 * elsewhere; the layout engine only reads it.
 */
module RenderNodes {

  import opened Boxes

  datatype RenderKind = DocNode | BlockNode | InlineNode | AtomicNode

  /**
   * A render node. `elementType` selects the box class in the element
   * registry; `glyphs` and `height` are the measured content of an atomic
   * node (empty for the other kinds).
   */
  datatype RenderNode = RenderNode(
    kind: RenderKind,
    id: Id,
    version: int,
    elementType: string,
    children: seq<RenderNode>,
    glyphs: seq<Glyph>,
    height: nat)

  /** The box kind the element registry builds for an element type. */
  datatype BoxKind = BlockKind | InlineKind | AtomicKind | OtherKind
}
