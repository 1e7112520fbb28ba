/**
 * `BranchNode` of the document model: a node with a parent and an ordered
 * child list that it updates in place.
 */
module BranchNodes {

  import opened Results
  import opened Seqs

  /** Where `splice(offset, …)` starts: negative offsets count from the end, large ones are clamped. */
  function SpliceStart(offset: int, length: nat): (k: nat)
    ensures k <= length
    ensures 0 <= offset <= length ==> k == offset
    ensures offset > length ==> k == length
    ensures offset < 0 ==> k == if length + offset < 0 then 0 else length + offset
  {
    if offset < 0 then (if length + offset < 0 then 0 else length + offset)
    else if offset > length then length
    else offset
  }

  class BranchNode<P, C(==)> {
    var parent: P
    var children: seq<C>

    /** A new node has the given parent and no children. */
    constructor (parent: P)
      ensures this.parent == parent && children == []
    {
      this.parent := parent;
      children := [];
    }

    function GetParent(): P
      reads this
    {
      parent
    }

    function GetChildren(): seq<C>
      reads this
    {
      children
    }

    /** `insertChild`: splices `child` in at `offset`; nothing else changes. */
    method InsertChild(child: C, offset: int)
      modifies this`children
      ensures children == InsertAt(old(children), SpliceStart(offset, |old(children)|), child)
    {
      children := InsertAt(children, SpliceStart(offset, |children|), child);
    }

    /**
     * `deleteChild`: removes the first occurrence of `child`, keeping the
     * order of the others; a child that is not there is an error and leaves
     * the children as they were.
     */
    method DeleteChild(child: C) returns (o: Outcome)
      modifies this`children
      ensures child in old(children) ==>
        o == Pass && children == RemoveAt(old(children), IndexOf(old(children), child))
      ensures child !in old(children) ==> o == Fail(ChildNotFound) && children == old(children)
    {
      var childOffset := IndexOf(children, child);
      if childOffset < 0 {
        return Fail(ChildNotFound);
      }
      children := RemoveAt(children, childOffset);
      return Pass;
    }
  }

  /**
   * Deleting a child removes one occurrence: the length drops by one, the
   * remaining children keep their order and lose exactly that child.
   */
  lemma DeleteRemovesOne<C>(s: seq<C>, c: C)
    requires c in s
    ensures var r := RemoveAt(s, IndexOf(s, c));
      |r| == |s| - 1 && multiset(r) == multiset(s) - multiset{c}
      && r == s[..IndexOf(s, c)] + s[IndexOf(s, c) + 1..]
  {
    var i := IndexOf(s, c);
    var r := RemoveAt(s, i);
    assert r == s[..i] + s[i + 1..];
    assert s == s[..i] + [c] + s[i + 1..];
    assert multiset(s) == multiset(s[..i]) + multiset{c} + multiset(s[i + 1..]);
    assert multiset(r) == multiset(s[..i]) + multiset(s[i + 1..]);
  }

  /** Inserting a child that was not there and then deleting it restores the child list. */
  lemma DeleteUndoesInsert<C>(s: seq<C>, c: C, offset: int)
    requires c !in s
    ensures var t := InsertAt(s, SpliceStart(offset, |s|), c);
      c in t && RemoveAt(t, IndexOf(t, c)) == s
  {
    var k := SpliceStart(offset, |s|);
    IndexOfInserted(s, k, c);
    RemoveInserted(s, k, c);
  }

  /** The same round trip on a node: its children end as they began. */
  method InsertThenDelete<P, C(==)>(node: BranchNode<P, C>, c: C, offset: int) returns (o: Outcome)
    requires c !in node.children
    modifies node
    ensures o == Pass && node.children == old(node.children)
  {
    node.InsertChild(c, offset);
    DeleteUndoesInsert(old(node.children), c, offset);
    o := node.DeleteChild(c);
  }
}
