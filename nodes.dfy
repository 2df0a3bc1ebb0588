/**
 * The display nodes the renderers build, as values: each `Element` variant
 * is one node class and carries the fields that class keeps after setup.
 * Layout specs are values too (`Layout`): inset, stack and background specs
 * over leaves, where a leaf is a child display node, a text node or one of
 * the small decorative nodes.
 */
module Nodes {
  import opened Foundation
  import opened Markdown

  /** The attributed text a text node shows. */
  datatype StyledText =
      /** `block.attributedText(style: theme)`, rendered by the theme. */
    | MaakuText(block: Block, theme: MaakuStyle)
      /** A table cell's content rendered by the theme, with `alignment` over the whole text. */
    | CellText(cell: TableCell, theme: MaakuStyle, alignment: TextAlignment)
      /** Attributed text produced and adjusted by the core itself. */
    | Attributed(units: AttributedText)

  datatype Direction = Horizontal | Vertical

  /** ASLayoutSpec */
  datatype Layout =
    | Inset(insets: Insets, child: Layout)
    | Stack(direction: Direction, spacing: real, children: seq<Layout>)
    | Background(child: Layout, background: Layout)
    | Wrapper(child: Layout)
    | Node(leaf: Leaf)

  /** The layout elements that are not specs. */
  datatype Leaf =
      /** A child display node; `delegatedToParent` records that its link delegate was set to the parent. */
    | ChildNode(element: Element, delegatedToParent: bool)
    | TextNode(text: StyledText)
      /** A text node whose width the layout pass fixed, when it did. */
    | SizedTextNode(text: StyledText, width: Option<real>)
      /** A one-line label with a fixed flex basis: list numbers and bullets, footnote numbers. */
    | LabelNode(caption: string, basis: real)
      /** A coloured bar: the rule, the table separator, the quote line. */
    | Bar(basis: real, spacingBefore: real, color: Color)
    | CircleHeaderNode(badge: string)
    | ImageNode(url: Url, preferredSize: Size)
    | FlexibleSpacer
    | PlayerNode(videoId: Option<string>, preferredSize: Size)
    | RoundedBackground(color: Color)
      /** The collection node that lists a document's cells, one per top-level block. */
    | CollectionNode

  /** What a paragraph shows: an inline image loaded from a URL, or its text. */
  datatype ParagraphContent = ImageContent(url: Url) | TextContent(text: StyledText)

  /** One variant per display-node class, with the state it keeps after setup. */
  datatype Element =
    | ParagraphNode(insets: Insets, nested: bool, content: ParagraphContent)
    | HeadingNode(insets: Insets, nested: bool, circleHeader: Option<string>, text: StyledText)
    | ListNode(insets: Insets, nested: bool, rows: seq<Layout>)
    | ListItemNode(nested: bool, children: seq<Layout>)
    | BlockQuoteNode(lineWidth: real, lineColor: Color, insets: Insets, nested: bool, children: seq<Layout>)
    | TableNode(insets: Insets, nested: bool, rows: seq<Layout>)
    | TableRowNode(cells: seq<Layout>)
    | TableCellNode(cell: TableCell, theme: MaakuStyle, alignment: TextAlignment, widthFraction: real)
    | CodeBlockNode(insets: Insets, nested: bool, text: StyledText, background: Color)
    | HorizontalRuleNode(insets: Insets, nested: bool, spec: Layout)
    | FootnoteDefinitionNode(insets: Insets, nested: bool, caption: string, children: seq<Layout>)
    | YoutubeNode(insets: Insets, nested: bool, videoId: Option<string>)

  /** The node classes that adopt Linkable: all but the code block, the rule and the player. */
  predicate Linkable(e: Element) {
    !(e.CodeBlockNode? || e.HorizontalRuleNode? || e.YoutubeNode?)
  }

  /**
   * A container's child: the display node, with the container as its link
   * delegate when the node is Linkable.
   */
  function DelegatingChild(e: Element): (l: Layout)
    ensures l.Node? && l.leaf.ChildNode? && l.leaf.element == e
    ensures l.leaf.delegatedToParent <==> Linkable(e)
  {
    Node(ChildNode(e, Linkable(e)))
  }

  // ---------------------------------------------------------------------
  // Link taps

  /** A link delegate, identified by reference. */
  datatype DelegateRef = DelegateRef(id: nat)

  /** The value of a tapped link attribute. */
  datatype TapValue = UrlValue(url: Url) | OtherValue(description: string)

  /** A call `delegate.linkTapped(url)`. */
  datatype LinkTap = LinkTap(delegate: DelegateRef, url: Url)

  /**
   * `linkTapped(url)` of a LinkDelegate container: the same URL goes to the
   * container's own link delegate, if it has one.
   */
  function ForwardLink(linkDelegate: Option<DelegateRef>, url: Url): (r: Option<LinkTap>)
    ensures r.Some? <==> linkDelegate.Some?
    ensures r.Some? ==> r.value.delegate == linkDelegate.value && r.value.url == url
  {
    if linkDelegate.Some? then Some(LinkTap(linkDelegate.value, url)) else None
  }

  /**
   * The text-node callback for a tapped link: a value that is a URL is
   * forwarded unchanged to the link delegate; any other value is ignored.
   */
  function TappedLinkAttribute(linkDelegate: Option<DelegateRef>, value: TapValue): (r: Option<LinkTap>)
    ensures r.Some? <==> linkDelegate.Some? && value.UrlValue?
    ensures r.Some? ==> r.value == LinkTap(linkDelegate.value, value.url)
  {
    if value.UrlValue? then ForwardLink(linkDelegate, value.url) else None
  }

  /** The text-node callback asking whether a link may be highlighted: always. */
  function ShouldHighlightLinkAttribute(value: TapValue): (r: bool)
    ensures r
  {
    true
  }

  /** A URL tapped in a text node reaches the delegate exactly as a direct `linkTapped` would. */
  lemma TapForwardsLikeLinkTapped(linkDelegate: Option<DelegateRef>, url: Url)
    ensures TappedLinkAttribute(linkDelegate, UrlValue(url)) == ForwardLink(linkDelegate, url)
  {
  }

  /**
   * A display-node instance: the node it is, and its mutable link delegate
   * (weak in the source; here an optional reference).
   */
  class DisplayNodeObject {
    const element: Element
    var linkDelegate: Option<DelegateRef>

    constructor(e: Element)
      ensures element == e && linkDelegate == None
    {
      element := e;
      linkDelegate := None;
    }
  }
}
