/** ListItemNode: the blocks of one list item, stacked. */
module ListItemNodes {
  import opened Foundation
  import opened Markdown
  import opened DocumentStyles
  import opened Nodes
  import opened BlockDispatch
  import opened ListNodes

  /** layoutSpecThatFits: the children stacked 5 apart, with no insets of its own. */
  function ListItemLayout(e: Element): (l: Layout)
    requires e.ListItemNode?
    ensures l == Stack(Vertical, RowSpacing, e.children)
  {
    Stack(Vertical, RowSpacing, e.children)
  }

  class ListItemNode {
    const nested: bool
    var children: seq<Layout>
    var linkDelegate: Option<DelegateRef>

    function Element(): Element
      reads this
    {
      Nodes.ListItemNode(nested, children)
    }

    /**
     * init(listItem:style:nested:) and setupListItem: each child is built
     * nested, with the inset of its own kind zeroed for paragraphs, quotes
     * and headings.
     */
    constructor(listItem: Block, style: DocumentStyle, nested: bool, env: Env)
      requires listItem.ListItem?
      ensures Element() == DisplayNode(listItem, style, nested, env).value
      ensures linkDelegate == None
    {
      this.nested := nested;
      children := [];
      linkDelegate := None;
      new;
      ghost var all := Children(ListItemContainer, listItem.items, style, env);
      var i := 0;
      while i < |listItem.items|
        invariant 0 <= i <= |listItem.items|
        invariant children == all[..i]
        invariant linkDelegate == None
      {
        var item := listItem.items[i];
        ChildrenPrefixStep(ListItemContainer, listItem.items, style, env, i);
        var itemStyle := style;
        if item.Paragraph? {
          itemStyle := itemStyle.(insets := itemStyle.insets.(paragraph := ZeroInsets));
        } else if item.BlockQuote? {
          itemStyle := itemStyle.(insets := itemStyle.insets.(blockQuote := ZeroInsets));
        } else if item.Heading? {
          itemStyle := itemStyle.(insets := itemStyle.insets.(heading := ZeroInsets));
        }
        assert itemStyle == ChildStyle(ListItemContainer, item, style);
        var displayNode := DisplayNode(item, itemStyle, true, env);
        if displayNode.Some? {
          children := children + [Node(ChildNode(displayNode.value, Linkable(displayNode.value)))];
        } else {
          children := children + [Node(TextNode(MaakuText(item, style.maakuStyle)))];
        }
        i := i + 1;
      }
      assert children == all;
    }

    /** linkTapped(_:) from a child, and a tapped URL in a fallback text node: passed up. */
    method LinkTapped(url: Url) returns (tap: Option<LinkTap>)
      ensures tap == ForwardLink(linkDelegate, url)
    {
      tap := if linkDelegate.Some? then Some(LinkTap(linkDelegate.value, url)) else None;
    }

    function LayoutSpecThatFits(): Layout
      reads this
    {
      ListItemLayout(Element())
    }
  }
}
