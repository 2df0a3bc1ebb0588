/** FootnoteDefinitionNode: the footnote's number beside its blocks. */
module FootnoteDefinitionNodes {
  import opened Foundation
  import opened Markdown
  import opened DocumentStyles
  import opened Nodes
  import opened BlockDispatch
  import opened ListNodes

  /** layoutSpecThatFits: the number, then the children stacked 5 apart, within the effective insets. */
  function FootnoteLayout(e: Element): (l: Layout)
    requires e.FootnoteDefinitionNode?
    ensures l == Inset(NestedInsets(e.insets, e.nested),
      Stack(Horizontal, 0.0, [Node(LabelNode(e.caption, LabelBasis)), Stack(Vertical, RowSpacing, e.children)]))
  {
    var nodeInsets := if e.nested then e.insets.(top := 0.0, bottom := 0.0, right := 0.0) else e.insets;
    Inset(nodeInsets, Stack(Horizontal, 0.0, [Node(LabelNode(e.caption, LabelBasis)), Stack(Vertical, RowSpacing, e.children)]))
  }

  class FootnoteDefinitionNode {
    const insets: Insets
    const nested: bool
    var caption: string
    var children: seq<Layout>
    var linkDelegate: Option<DelegateRef>

    function Element(): Element
      reads this
    {
      Nodes.FootnoteDefinitionNode(insets, nested, caption, children)
    }

    /**
     * init(footnoteDefinition:style:nested:) and setupFootnoteDefinition: the
     * caption "n." and each child built nested with no paragraph inset. The
     * dispatcher always passes `nested` false.
     */
    constructor(footnote: Block, style: DocumentStyle, env: Env)
      requires footnote.FootnoteDefinition?
      ensures Element() == DisplayNode(footnote, style, false, env).value
      ensures linkDelegate == None
    {
      insets := style.insets.list;
      this.nested := false;
      caption := "";
      children := [];
      linkDelegate := None;
      new;
      caption := DecimalString(footnote.number) + ".";
      var itemStyle := style.(insets := style.insets.(paragraph := ZeroInsets));
      ghost var all := Children(FootnoteContainer, footnote.items, style, env);
      var i := 0;
      while i < |footnote.items|
        invariant 0 <= i <= |footnote.items|
        invariant children == all[..i]
        invariant linkDelegate == None
        invariant caption == DecimalString(footnote.number) + "."
      {
        var item := footnote.items[i];
        ChildrenPrefixStep(FootnoteContainer, footnote.items, style, env, i);
        assert itemStyle == ChildStyle(FootnoteContainer, item, style);
        var displayNode := DisplayNode(item, itemStyle, true, env);
        if displayNode.Some? {
          children := children + [Node(ChildNode(displayNode.value, Linkable(displayNode.value)))];
        } else {
          children := children + [Node(TextNode(MaakuText(item, style.maakuStyle)))];
        }
        i := i + 1;
      }
      assert children == all;
    }

    /** linkTapped(_:) from a child, and a tapped URL in a fallback text node: passed up. */
    method LinkTapped(url: Url) returns (tap: Option<LinkTap>)
      ensures tap == ForwardLink(linkDelegate, url)
    {
      tap := if linkDelegate.Some? then Some(LinkTap(linkDelegate.value, url)) else None;
    }

    function LayoutSpecThatFits(): Layout
      reads this
    {
      FootnoteLayout(Element())
    }
  }
}
