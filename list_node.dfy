/** ListNode: an ordered or unordered list, one marker-and-item row per item. */
module ListNodes {
  import opened Foundation
  import opened Markdown
  import opened DocumentStyles
  import opened Nodes
  import opened BlockDispatch

  /** The spacing between the rows of a list, a list item or a quote. */
  const RowSpacing: real := 5.0

  /** layoutSpecThatFits: the rows stacked 5 apart, within the effective insets. */
  function ListLayout(e: Element): (l: Layout)
    requires e.ListNode?
    ensures l == Inset(NestedInsets(e.insets, e.nested), Stack(Vertical, RowSpacing, e.rows))
  {
    Inset(NestedInsets(e.insets, e.nested), Stack(Vertical, RowSpacing, e.rows))
  }

  class ListNode {
    const insets: Insets
    const nested: bool
    var children: seq<Layout>
    var linkDelegate: Option<DelegateRef>

    function Element(): Element
      reads this
    {
      Nodes.ListNode(insets, nested, children)
    }

    /** init(list:style:nested:) and setupList: numbered or bulleted rows, one per item. */
    constructor(list: Block, style: DocumentStyle, nested: bool, env: Env)
      requires list.UnorderedList? || list.OrderedList?
      ensures Element() == DisplayNode(list, style, nested, env).value
      ensures linkDelegate == None
    {
      insets := style.insets.list;
      this.nested := nested;
      children := [];
      linkDelegate := None;
      new;
      var ordered := list.OrderedList?;
      ghost var all := ListRows(list.items, ordered, style, env);
      var index := 0;
      while index < |list.items|
        invariant 0 <= index <= |list.items|
        invariant children == all[..index]
        invariant linkDelegate == None
      {
        var item := list.items[index];
        ListRowsPrefixStep(list.items, ordered, style, env, index);
        var listNum := if ordered then DecimalString(index + 1) + "." else style.values.unorderedListSymbol;
        var valueNode: Layout;
        var displayNode := DisplayNode(item, style, true, env);
        if displayNode.Some? {
          valueNode := Node(ChildNode(displayNode.value, Linkable(displayNode.value)));
        } else {
          valueNode := Node(TextNode(MaakuText(item, style.maakuStyle)));
        }
        children := children + [Stack(Horizontal, 0.0, [Node(LabelNode(listNum, LabelBasis)), valueNode])];
        index := index + 1;
      }
      assert children == all;
    }

    /** linkTapped(_:) from a child, and a tapped URL in a fallback text node: passed up. */
    method LinkTapped(url: Url) returns (tap: Option<LinkTap>)
      ensures tap == ForwardLink(linkDelegate, url)
    {
      tap := if linkDelegate.Some? then Some(LinkTap(linkDelegate.value, url)) else None;
    }

    function LayoutSpecThatFits(): Layout
      reads this
    {
      ListLayout(Element())
    }
  }
}
