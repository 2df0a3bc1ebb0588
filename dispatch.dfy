/**
 * Block.displayNode(style:nested:): the dispatcher from a markdown block to
 * the display node that renders it, and the child building of the
 * container nodes (lists, list items, block quotes, footnote definitions),
 * which call back into the dispatcher for each child block.
 */
module BlockDispatch {
  import opened Foundation
  import opened Markdown
  import opened DocumentStyles
  import opened Nodes
  import opened NodePlugins
  import opened StringExtensions
  import opened ParagraphNodes
  import opened HeadingNodes
  import opened CodeBlockNodes
  import opened HorizontalRuleNodes
  import opened TableNodes
  import opened WrapperCellNodes
  import opened YoutubeNodes

  /**
   * What the dispatcher needs besides the block and the style: the plugin
   * registry (static state in the source), the character classes of the
   * header pattern, and the code highlighter when one is available.
   */
  datatype Env = Env(plugins: Registry, classes: CharClasses, highlighter: Option<Highlighter>)

  /** The container nodes that build children through the dispatcher. */
  datatype Container = ListContainer | ListItemContainer | QuoteContainer | FootnoteContainer

  /** The flex basis of list numbers, bullets and footnote numbers. */
  const LabelBasis: real := 30.0

  /** The left-only inset a block quote gives to block quotes inside it. */
  function QuoteChildInset(style: DocumentStyle): (i: Insets)
    ensures i == NestedInsets(style.insets.blockQuote, true)
  {
    Insets(0.0, style.insets.blockQuote.left, 0.0, 0.0)
  }

  /**
   * The style a container passes to a child block. A list passes its own; a
   * list item zeroes the paragraph, block-quote or heading inset of a child
   * of that kind; a block quote narrows the block-quote inset to its left
   * part; a footnote definition zeroes the paragraph inset.
   */
  function ChildStyle(c: Container, item: Block, style: DocumentStyle): (s: DocumentStyle)
    ensures s.colors == style.colors && s.values == style.values && s.maakuStyle == style.maakuStyle
    ensures c.ListContainer? ==> s == style
    ensures c.ListItemContainer? && item.Paragraph? ==> s == WithStyleInset(style, ParagraphInset, ZeroInsets)
    ensures c.ListItemContainer? && item.BlockQuote? ==> s == WithStyleInset(style, QuoteInset, ZeroInsets)
    ensures c.ListItemContainer? && item.Heading? ==> s == WithStyleInset(style, HeadingInset, ZeroInsets)
    ensures c.ListItemContainer? && !(item.Paragraph? || item.BlockQuote? || item.Heading?) ==> s == style
    ensures c.QuoteContainer? ==> s == WithStyleInset(style, QuoteInset, NestedInsets(style.insets.blockQuote, true))
    ensures c.FootnoteContainer? ==> s == WithStyleInset(style, ParagraphInset, ZeroInsets)
  {
    match c
    case ListContainer => style
    case ListItemContainer =>
      if item.Paragraph? then WithStyleInset(style, ParagraphInset, ZeroInsets)
      else if item.BlockQuote? then WithStyleInset(style, QuoteInset, ZeroInsets)
      else if item.Heading? then WithStyleInset(style, HeadingInset, ZeroInsets)
      else style
    case QuoteContainer => WithStyleInset(style, QuoteInset, QuoteChildInset(style))
    case FootnoteContainer => WithStyleInset(style, ParagraphInset, ZeroInsets)
  }

  /**
   * The kind of node a block is rendered by: the node class named after it;
   * both kinds of list share ListNode; a plugin block may be rendered by any
   * node its map builds.
   */
  predicate RendersAs(b: Block, e: Element) {
    match b
    case Paragraph(_) => e.ParagraphNode?
    case Heading(_, _) => e.HeadingNode?
    case UnorderedList(_) => e.ListNode?
    case OrderedList(_) => e.ListNode?
    case ListItem(_) => e.ListItemNode?
    case BlockQuote(_) => e.BlockQuoteNode?
    case Table(_, _, _) => e.TableNode?
    case CodeBlock(_, _) => e.CodeBlockNode?
    case HorizontalRule => e.HorizontalRuleNode?
    case FootnoteDefinition(_, _) => e.FootnoteDefinitionNode?
    case PluginBlock(_) => true
  }

  /**
   * displayNode(style:nested:): every block but a plugin block gets the node
   * of its kind; a plugin block gets whatever the registry builds for it,
   * which may be nothing. A footnote definition is never built nested.
   */
  function DisplayNode(b: Block, style: DocumentStyle, nested: bool, env: Env): (r: Option<Element>)
    ensures !b.PluginBlock? ==> r.Some?
    ensures r.Some? ==> RendersAs(b, r.value)
    ensures b.PluginBlock? ==> r == DisplayNodeFor(env.plugins, b.plugin, style, nested)
    decreases b, 0
  {
    match b
    case Paragraph(_) => Some(ParagraphNodeInit(b, style, nested))
    case Heading(_, _) => Some(HeadingNodeInit(b, style, nested, env.classes))
    case UnorderedList(items) => Some(ListNode(style.insets.list, nested, ListRows(items, false, style, env)))
    case OrderedList(items) => Some(ListNode(style.insets.list, nested, ListRows(items, true, style, env)))
    case BlockQuote(items) =>
      Some(BlockQuoteNode(style.values.blockQuoteLineWidth, style.colors.blockQuoteLine, style.insets.blockQuote, nested,
        Children(QuoteContainer, items, style, env)))
    case Table(_, _, _) => Some(TableNodeInit(b, style, nested))
    case CodeBlock(_, _) => Some(CodeBlockNodeInit(b, style, nested, env.highlighter))
    case HorizontalRule => Some(HorizontalRuleNodeInit(style, nested))
    case FootnoteDefinition(number, items) =>
      Some(FootnoteDefinitionNode(style.insets.list, false, DecimalString(number) + ".",
        Children(FootnoteContainer, items, style, env)))
    case ListItem(items) => Some(ListItemNode(nested, Children(ListItemContainer, items, style, env)))
    case PluginBlock(plugin) => DisplayNodeFor(env.plugins, plugin, style, nested)
  }

  /**
   * A container's node for one child block: the child's display node, built
   * nested with the child style and delegating to the container when
   * Linkable; when the dispatcher gives nothing, a text node with the
   * block's text in the container's own theme.
   */
  function ChildLayout(c: Container, item: Block, style: DocumentStyle, env: Env): (l: Layout)
    ensures DisplayNode(item, ChildStyle(c, item, style), true, env).Some? ==>
      l == DelegatingChild(DisplayNode(item, ChildStyle(c, item, style), true, env).value)
    ensures DisplayNode(item, ChildStyle(c, item, style), true, env).None? ==>
      l == Node(TextNode(MaakuText(item, style.maakuStyle)))
    decreases item, 1
  {
    var d := DisplayNode(item, ChildStyle(c, item, style), true, env);
    if d.Some? then DelegatingChild(d.value) else Node(TextNode(MaakuText(item, style.maakuStyle)))
  }

  /** The children of a list item, block quote or footnote definition: one per child block, in order. */
  function Children(c: Container, items: seq<Block>, style: DocumentStyle, env: Env): (r: seq<Layout>)
    ensures |r| == |items|
    ensures forall i :: 0 <= i < |items| ==> r[i] == ChildLayout(c, items[i], style, env)
    decreases items, 2
  {
    seq(|items|, i requires 0 <= i < |items| => ChildLayout(c, items[i], style, env))
  }

  /** A list's marker: "n." for the n-th item of an ordered list, the bullet symbol otherwise. */
  function ListMarker(index: nat, ordered: bool, style: DocumentStyle): string {
    if ordered then DecimalString(index + 1) + "." else style.values.unorderedListSymbol
  }

  /** One list row: the marker, 30 wide, beside the item's node. */
  function ListRow(index: nat, item: Block, ordered: bool, style: DocumentStyle, env: Env): (l: Layout)
    ensures l == Stack(Horizontal, 0.0, [Node(LabelNode(ListMarker(index, ordered, style), LabelBasis)),
      ChildLayout(ListContainer, item, style, env)])
    decreases item, 2
  {
    Stack(Horizontal, 0.0, [Node(LabelNode(ListMarker(index, ordered, style), LabelBasis)),
      ChildLayout(ListContainer, item, style, env)])
  }

  /** setupList: one row per item, in order. */
  function ListRows(items: seq<Block>, ordered: bool, style: DocumentStyle, env: Env): (r: seq<Layout>)
    ensures |r| == |items|
    ensures forall i :: 0 <= i < |items| ==> r[i] == ListRow(i, items[i], ordered, style, env)
    decreases items, 3
  {
    seq(|items|, i requires 0 <= i < |items| => ListRow(i, items[i], ordered, style, env))
  }

  /**
   * A child's style differs from its container's in at most one inset kind,
   * the one its container narrows; every other inset is the container's own.
   */
  lemma ChildStyleChangesOneInset(c: Container, item: Block, style: DocumentStyle, k: InsetKind)
    requires !(c.QuoteContainer? && k == QuoteInset)
    requires !(c.FootnoteContainer? && k == ParagraphInset)
    requires !(c.ListItemContainer? && item.Paragraph? && k == ParagraphInset)
    requires !(c.ListItemContainer? && item.BlockQuote? && k == QuoteInset)
    requires !(c.ListItemContainer? && item.Heading? && k == HeadingInset)
    ensures InsetFor(ChildStyle(c, item, style).insets, k) == InsetFor(style.insets, k)
  {
  }

  /** Each pass of a container's setup loop extends the children built so far by the next child. */
  lemma ChildrenPrefixStep(c: Container, items: seq<Block>, style: DocumentStyle, env: Env, i: nat)
    requires i < |items|
    ensures Children(c, items, style, env)[..i + 1]
         == Children(c, items, style, env)[..i] + [ChildLayout(c, items[i], style, env)]
  {
    var all := Children(c, items, style, env);
    assert all[..i + 1] == all[..i] + [all[i]];
  }

  /** Each pass of setupList's loop extends the rows built so far by the next row. */
  lemma ListRowsPrefixStep(items: seq<Block>, ordered: bool, style: DocumentStyle, env: Env, i: nat)
    requires i < |items|
    ensures ListRows(items, ordered, style, env)[..i + 1]
         == ListRows(items, ordered, style, env)[..i] + [ListRow(i, items[i], ordered, style, env)]
  {
    var all := ListRows(items, ordered, style, env);
    assert all[..i + 1] == all[..i] + [all[i]];
  }

  // ---------------------------------------------------------------------
  // Properties of the dispatch

  /** The n-th marker of an ordered list reads back as the number n followed by a dot. */
  lemma OrderedMarkersCount(index: nat, style: DocumentStyle)
    ensures var m := ListMarker(index, true, style);
      |m| > 0 && m[|m| - 1] == '.' && ParseInteger(m[..|m| - 1]) == Some(index + 1)
  {
    var m := ListMarker(index, true, style);
    assert m[..|m| - 1] == DecimalString(index + 1);
    DecimalRoundTrip(index + 1);
  }

  /** Two items of one ordered list never get the same marker. */
  lemma OrderedMarkersDistinct(i: nat, j: nat, style: DocumentStyle)
    requires i != j
    ensures ListMarker(i, true, style) != ListMarker(j, true, style)
  {
    OrderedMarkersCount(i, style);
    OrderedMarkersCount(j, style);
  }

  /** Every marker of an unordered list is the style's bullet. */
  lemma UnorderedMarkersAreBullets(items: seq<Block>, style: DocumentStyle, env: Env, i: nat)
    requires i < |items|
    ensures ListRows(items, false, style, env)[i].children[0] == Node(LabelNode(style.values.unorderedListSymbol, LabelBasis))
  {
  }

  /**
   * A child display node of any container is delegating to the container
   * exactly when it is Linkable, and it was built nested with the child style.
   */
  lemma ChildDelegation(c: Container, item: Block, style: DocumentStyle, env: Env)
    ensures var l := ChildLayout(c, item, style, env);
      l.Node? && l.leaf.ChildNode? ==>
        && Some(l.leaf.element) == DisplayNode(item, ChildStyle(c, item, style), true, env)
        && (l.leaf.delegatedToParent <==> Linkable(l.leaf.element))
  {
  }

  /** A paragraph in a list item is laid out with no insets at all. */
  lemma ListItemParagraphHasNoInsets(inlines: seq<Inline>, style: DocumentStyle, env: Env)
    ensures var l := ChildLayout(ListItemContainer, Paragraph(inlines), style, env);
      l.leaf.element.ParagraphNode? && NestedInsets(l.leaf.element.insets, l.leaf.element.nested) == ZeroInsets
  {
  }

  /**
   * A block quote inside a block quote keeps only the outer quote's left
   * inset, however often quotes are nested.
   */
  lemma QuoteInQuoteKeepsLeftInset(items: seq<Block>, style: DocumentStyle, env: Env)
    ensures var l := ChildLayout(QuoteContainer, BlockQuote(items), style, env);
      && l.leaf.element.BlockQuoteNode?
      && l.leaf.element.insets == Insets(0.0, style.insets.blockQuote.left, 0.0, 0.0)
      && NestedInsets(l.leaf.element.insets, l.leaf.element.nested) == l.leaf.element.insets
  {
  }

  /** A footnote definition is built non-nested even as a child, so it keeps all of its insets. */
  lemma FootnoteNeverNested(number: int, items: seq<Block>, style: DocumentStyle, nested: bool, env: Env)
    ensures var r := DisplayNode(FootnoteDefinition(number, items), style, nested, env);
      !r.value.nested && NestedInsets(r.value.insets, r.value.nested) == style.insets.list
  {
  }

  /**
   * A plugin block nobody registered a map for renders, in a container, as
   * a text node in the container's theme.
   */
  lemma UnregisteredPluginFallsBackToText(c: Container, plugin: Plugin, style: DocumentStyle, env: Env)
    requires plugin.TypePluginName() !in env.plugins
    ensures ChildLayout(c, PluginBlock(plugin), style, env) == Node(TextNode(MaakuText(PluginBlock(plugin), style.maakuStyle)))
  {
  }

  /**
   * With the YouTube map registered under its name, a YouTube plugin block
   * becomes a player node with the paragraph insets and the block's video id.
   */
  lemma RegisteredYoutubeRendersPlayer(videoId: Option<string>, style: DocumentStyle, nested: bool, env: Env)
    requires YoutubePluginName in env.plugins && env.plugins[YoutubePluginName] == YoutubeNodePluginMap
    ensures DisplayNode(PluginBlock(YoutubePlugin(videoId)), style, nested, env)
         == Some(YoutubeNode(style.insets.paragraph, nested, videoId))
  {
    YoutubeMapIsInit(YoutubePlugin(videoId), style, nested);
  }

  /** Registering the YouTube map, as the host application does at launch, satisfies the lemma above. */
  lemma RegisteringYoutubeMap(m: Registry)
    ensures var r := Registered(m, [YoutubeNodePluginMap]);
      YoutubePluginName in r && r[YoutubePluginName] == YoutubeNodePluginMap
  {
    RegisteredLastWins(m, [YoutubeNodePluginMap], 0);
  }

  // ---------------------------------------------------------------------
  // Cell nodes

  /**
   * cellNode(style:nested:): a new wrapper cell around a new instance of the
   * block's display node, or nil when there is none.
   */
  method CellNode(b: Block, style: DocumentStyle, nested: bool, env: Env) returns (cell: WrapperCellNode?)
    ensures cell == null <==> DisplayNode(b, style, nested, env).None?
    ensures cell != null ==>
      && fresh(cell) && fresh(cell.node) && cell.Valid()
      && cell.node.element == DisplayNode(b, style, nested, env).value
      && cell.LinkDelegate() == None
  {
    var displayNode := DisplayNode(b, style, nested, env);
    if displayNode.None? {
      return null;
    }
    var node := new DisplayNodeObject(displayNode.value);
    cell := new WrapperCellNode(node);
  }
}
