/**
 * WrapperCellNode: the collection-view cell around a block's display node,
 * whose link delegate is a proxy for the wrapped node's.
 */
module WrapperCellNodes {
  import opened Foundation
  import opened Nodes

  class WrapperCellNode {
    /** The wrapped node. */
    const node: DisplayNodeObject

    /** A node that is not Linkable has no link delegate to hold. */
    predicate Valid()
      reads this, node
    {
      !Linkable(node.element) ==> node.linkDelegate == None
    }

    constructor(node: DisplayNodeObject)
      requires !Linkable(node.element) ==> node.linkDelegate == None
      ensures this.node == node && Valid()
    {
      this.node := node;
    }

    /** The getter: the wrapped node's link delegate when it is Linkable, nil otherwise. */
    function LinkDelegate(): (d: Option<DelegateRef>)
      reads this, node
      ensures Linkable(node.element) ==> d == node.linkDelegate
      ensures !Linkable(node.element) ==> d == None
    {
      if Linkable(node.element) then node.linkDelegate else None
    }

    /**
     * The setter: written through to the wrapped node when it is Linkable,
     * dropped otherwise; reading it back gives what was written, or nil.
     */
    method SetLinkDelegate(d: Option<DelegateRef>)
      requires Valid()
      modifies node
      ensures Valid()
      ensures LinkDelegate() == if Linkable(node.element) then d else None
      ensures !Linkable(node.element) ==> node.linkDelegate == old(node.linkDelegate)
    {
      if Linkable(node.element) {
        node.linkDelegate := d;
      }
    }

    /** layoutSpecThatFits: the wrapped node as it is. */
    function LayoutSpecThatFits(): (l: Layout)
      reads this
      ensures l.Wrapper? && l.child.Node? && l.child.leaf.ChildNode? && l.child.leaf.element == node.element
    {
      Wrapper(Node(ChildNode(node.element, false)))
    }
  }
}
