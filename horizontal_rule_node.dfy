/** HorizontalRuleNode: a thematic break drawn as one bar. */
module HorizontalRuleNodes {
  import opened Foundation
  import opened DocumentStyles
  import opened Nodes

  /**
   * HorizontalRuleNode.init(style:nested:): the horizontal-rule insets and
   * a spec holding exactly one bar, as high as the style's rule height.
   */
  function HorizontalRuleNodeInit(style: DocumentStyle, nested: bool): (e: Element)
    ensures e.HorizontalRuleNode? && e.insets == style.insets.horizontalRule && e.nested == nested
    ensures e.spec.Stack? && e.spec.direction == Vertical && |e.spec.children| == 1
    ensures e.spec.children[0] == Node(Bar(style.values.horizontalRuleHeight, 0.0, style.colors.horizontalRule))
  {
    HorizontalRuleNode(style.insets.horizontalRule, nested,
      Stack(Vertical, 0.0, [Node(Bar(style.values.horizontalRuleHeight, 0.0, style.colors.horizontalRule))]))
  }

  /** layoutSpecThatFits: the fixed spec within the effective insets, whatever the constrained size. */
  function HorizontalRuleLayout(e: Element, constrainedMax: Size): (l: Layout)
    requires e.HorizontalRuleNode?
    ensures l == Inset(NestedInsets(e.insets, e.nested), e.spec)
  {
    Inset(NestedInsets(e.insets, e.nested), e.spec)
  }

  /** The layout does not depend on the constrained size. */
  lemma RuleLayoutIgnoresSize(e: Element, a: Size, b: Size)
    requires e.HorizontalRuleNode?
    ensures HorizontalRuleLayout(e, a) == HorizontalRuleLayout(e, b)
  {
  }
}
