/**
 * The layout pass of every node kind in one place, to state what all of
 * them share: the nested-inset rule.
 */
module NodeLayouts {
  import opened Foundation
  import opened DocumentStyles
  import opened Nodes
  import opened ParagraphNodes
  import opened HeadingNodes
  import opened CodeBlockNodes
  import opened HorizontalRuleNodes
  import opened TableCellNodes
  import opened TableRowNodes
  import opened TableNodes
  import opened YoutubeNodes
  import opened ListNodes
  import opened ListItemNodes
  import opened BlockQuoteNodes
  import opened FootnoteDefinitionNodes

  /**
   * What a layout pass uses besides the node's setup: the constrained
   * maximum size, and the state some nodes keep between passes (a
   * paragraph's image size, a code block's text width).
   */
  datatype LayoutContext = LayoutContext(constrainedMax: Size, imageSize: Size, textWidth: Option<real>)

  /** layoutSpecThatFits(_:) of each node class. */
  function LayoutOf(e: Element, ctx: LayoutContext): Layout {
    match e
    case ParagraphNode(_, _, _) => ParagraphLayout(e, ctx.imageSize, ctx.constrainedMax)
    case HeadingNode(_, _, _, _) => HeadingLayout(e)
    case ListNode(_, _, _) => ListLayout(e)
    case ListItemNode(_, _) => ListItemLayout(e)
    case BlockQuoteNode(_, _, _, _, _) => BlockQuoteLayout(e)
    case TableNode(_, _, _) => TableLayout(e)
    case TableRowNode(_) => TableRowLayout(e)
    case TableCellNode(_, _, _, _) => TableCellLayout(e)
    case CodeBlockNode(_, _, _, _) => CodeBlockLayout(e, NextTextWidth(ctx.textWidth, ctx.constrainedMax.width))
    case HorizontalRuleNode(_, _, _) => HorizontalRuleLayout(e, ctx.constrainedMax)
    case FootnoteDefinitionNode(_, _, _, _) => FootnoteLayout(e)
    case YoutubeNode(_, _, _) => YoutubeLayout(e, ctx.constrainedMax.width)
  }

  /** The node classes that keep insets from the document style. */
  predicate HasStyleInsets(e: Element) {
    e.ParagraphNode? || e.HeadingNode? || e.ListNode? || e.BlockQuoteNode? || e.TableNode?
    || e.CodeBlockNode? || e.HorizontalRuleNode? || e.FootnoteDefinitionNode? || e.YoutubeNode?
  }

  /**
   * Every node with style insets lays itself out within them when it stands
   * at the top level, and within their left part only when nested.
   */
  lemma NestedInsetRule(e: Element, ctx: LayoutContext)
    requires HasStyleInsets(e)
    ensures LayoutOf(e, ctx).Inset?
    ensures !e.nested ==> LayoutOf(e, ctx).insets == e.insets
    ensures e.nested ==> LayoutOf(e, ctx).insets == Insets(0.0, e.insets.left, 0.0, 0.0)
  {
  }

  /**
   * The nodes without style insets: a list item adds none, a table row
   * only its 5-point top gap, and a table cell just wraps its text.
   */
  lemma NodesWithoutStyleInsets(e: Element, ctx: LayoutContext)
    requires !HasStyleInsets(e)
    ensures e.ListItemNode? ==> LayoutOf(e, ctx).Stack?
    ensures e.TableRowNode? ==> LayoutOf(e, ctx).Inset? && LayoutOf(e, ctx).insets == Insets(5.0, 0.0, 0.0, 0.0)
    ensures e.TableCellNode? ==> LayoutOf(e, ctx).Wrapper?
  {
  }
}
