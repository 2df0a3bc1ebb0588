/** BlockQuoteNode: a vertical line beside the quoted blocks. */
module BlockQuoteNodes {
  import opened Foundation
  import opened Markdown
  import opened DocumentStyles
  import opened Nodes
  import opened BlockDispatch
  import opened ListNodes

  /** layoutSpecThatFits: the line, then the children stacked 5 apart, within the effective insets. */
  function BlockQuoteLayout(e: Element): (l: Layout)
    requires e.BlockQuoteNode?
    ensures l == Inset(NestedInsets(e.insets, e.nested),
      Stack(Horizontal, 0.0, [Node(Bar(e.lineWidth, 0.0, e.lineColor)), Stack(Vertical, RowSpacing, e.children)]))
  {
    Inset(NestedInsets(e.insets, e.nested),
      Stack(Horizontal, 0.0, [Node(Bar(e.lineWidth, 0.0, e.lineColor)), Stack(Vertical, RowSpacing, e.children)]))
  }

  class BlockQuoteNode {
    const lineWidth: real
    const lineColor: Color
    const insets: Insets
    const nested: bool
    var children: seq<Layout>
    var linkDelegate: Option<DelegateRef>

    function Element(): Element
      reads this
    {
      Nodes.BlockQuoteNode(lineWidth, lineColor, insets, nested, children)
    }

    /**
     * init(blockQuote:style:nested:) and setupBlockQuote: each child is built
     * nested, with the block-quote inset narrowed to its left part.
     */
    constructor(blockQuote: Block, style: DocumentStyle, nested: bool, env: Env)
      requires blockQuote.BlockQuote?
      ensures Element() == DisplayNode(blockQuote, style, nested, env).value
      ensures linkDelegate == None
    {
      lineWidth := style.values.blockQuoteLineWidth;
      insets := style.insets.blockQuote;
      this.nested := nested;
      lineColor := style.colors.blockQuoteLine;
      children := [];
      linkDelegate := None;
      new;
      var quoteInsets := Insets(0.0, style.insets.blockQuote.left, 0.0, 0.0);
      var itemStyle := style.(insets := style.insets.(blockQuote := quoteInsets));
      ghost var all := Children(QuoteContainer, blockQuote.items, style, env);
      var i := 0;
      while i < |blockQuote.items|
        invariant 0 <= i <= |blockQuote.items|
        invariant children == all[..i]
        invariant linkDelegate == None
      {
        var item := blockQuote.items[i];
        ChildrenPrefixStep(QuoteContainer, blockQuote.items, style, env, i);
        assert itemStyle == ChildStyle(QuoteContainer, item, style);
        var displayNode := DisplayNode(item, itemStyle, true, env);
        if displayNode.Some? {
          children := children + [Node(ChildNode(displayNode.value, Linkable(displayNode.value)))];
        } else {
          children := children + [Node(TextNode(MaakuText(item, style.maakuStyle)))];
        }
        i := i + 1;
      }
      assert children == all;
    }

    /** linkTapped(_:) from a child, and a tapped URL in a fallback text node: passed up. */
    method LinkTapped(url: Url) returns (tap: Option<LinkTap>)
      ensures tap == ForwardLink(linkDelegate, url)
    {
      tap := if linkDelegate.Some? then Some(LinkTap(linkDelegate.value, url)) else None;
    }

    function LayoutSpecThatFits(): Layout
      reads this
    {
      BlockQuoteLayout(Element())
    }
  }
}
