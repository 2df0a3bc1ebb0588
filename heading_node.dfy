/**
 * HeadingNode: a heading, optionally led by a circle badge taken from a
 * "1. ", "22. " or "A. " prefix of its first text.
 */
module HeadingNodes {
  import opened Foundation
  import opened Markdown
  import opened DocumentStyles
  import opened Nodes
  import opened StringExtensions

  /** Space between the badge and the heading text. */
  const BadgeSpacing: real := 14.0

  /** `m` cut before its first ".", or all of `m` when it has none. */
  function BadgeText(m: string): (r: string)
    ensures HasPrefix(m, r)
    ensures '.' !in r
    ensures |r| < |m| ==> m[|r|] == '.'
  {
    if |m| == 0 || m[0] == '.' then ""
    else [m[0]] + BadgeText(m[1..])
  }

  /** The result of the circle-header check: the badge, if any, and the heading's inlines after it. */
  datatype CircleHeaderSplit = CircleHeaderSplit(badge: Option<string>, items: seq<Inline>)

  /** The header match the badge is taken from, when circle headers apply. */
  function HeaderMatchOf(items: seq<Inline>, enabled: bool, cc: CharClasses): Option<string> {
    if enabled && |items| > 0 && items[0].Text? then CharacterHeaderMatch(items[0].text, cc) else None
  }

  /**
   * setupHeading's circle-header extraction. When circle headers are on and
   * the first inline is text starting with a header match `m`, the badge is
   * `m` before its first "."; the first inline keeps the rest of its text, or
   * is removed when nothing is left. In every other case there is no badge
   * and the inlines are untouched.
   */
  function ExtractCircleHeader(items: seq<Inline>, enabled: bool, cc: CharClasses): (r: CircleHeaderSplit)
    ensures HeaderMatchOf(items, enabled, cc).None? ==> r == CircleHeaderSplit(None, items)
    ensures HeaderMatchOf(items, enabled, cc).Some? ==>
      var m := HeaderMatchOf(items, enabled, cc).value;
      var text := items[0].text;
      && r.badge == Some(BadgeText(m))
      && (|text| > |m| ==> r.items == [Text(text[|m|..])] + items[1..])
      && (|text| <= |m| ==> r.items == items[1..])
  {
    var found := HeaderMatchOf(items, enabled, cc);
    if found.None? then CircleHeaderSplit(None, items)
    else
      var m := found.value;
      var text := items[0].text;
      if |text| > |m| then CircleHeaderSplit(Some(BadgeText(m)), [Text(text[|m|..])] + items[1..])
      else CircleHeaderSplit(Some(BadgeText(m)), items[1..])
  }

  /**
   * Nothing is lost: the match followed by what is left of the first text is
   * the original first text, and the inlines after the first are unchanged.
   */
  lemma ExtractionRoundTrip(items: seq<Inline>, enabled: bool, cc: CharClasses)
    requires HeaderMatchOf(items, enabled, cc).Some?
    ensures var m := HeaderMatchOf(items, enabled, cc).value;
      var r := ExtractCircleHeader(items, enabled, cc);
      && (|items[0].text| > |m| ==> m + r.items[0].text == items[0].text && r.items[1..] == items[1..])
      && (|items[0].text| <= |m| ==> m == items[0].text && r.items == items[1..])
  {
    var m := HeaderMatchOf(items, enabled, cc).value;
    var text := items[0].text;
    assert HasPrefix(text, m);
    if |text| > |m| {
      assert m + text[|m|..] == text;
    } else {
      assert text[..|m|] == text;
    }
  }

  /** With '.' not a digit, a numbered heading's badge is its number. */
  lemma NumberBadgeExample(cc: CharClasses)
    requires cc.isDigit('1') && cc.isSpace(' ') && !cc.isDigit('.') && !cc.isExtend('I')
    ensures ExtractCircleHeader([Text("1. Intro"), SoftBreak], true, cc)
         == CircleHeaderSplit(Some("1"), [Text("Intro"), SoftBreak])
  {
    var text := "1. Intro";
    assert text[1] == '.' && text[2] == ' ' && text[3] == 'I' && text[..3] == "1. ";
    assert text[..3][..1] == "1";
    CharacterHeaderIsTheWholePrefix(text, cc, 3);
    assert BadgeText("1. ") == "1";
    assert text[3..] == "Intro";
  }

  /** A heading whose number is followed by a combining mark keeps its text and gets no badge. */
  lemma CombiningMarkHeadingExample(cc: CharClasses)
    requires cc.isDigit('1') && cc.isSpace(' ') && !cc.isControl(' ') && cc.isExtend('\U{0301}')
    ensures ExtractCircleHeader([Text("1. \U{0301}Intro")], true, cc)
         == CircleHeaderSplit(None, [Text("1. \U{0301}Intro")])
  {
    CombiningMarkExample(cc);
  }

  /** HeadingNode.init(heading:style:nested:) */
  function HeadingNodeInit(h: Block, style: DocumentStyle, nested: bool, cc: CharClasses): (e: Element)
    requires h.Heading?
    ensures e.HeadingNode? && e.insets == style.insets.heading && e.nested == nested
    ensures e.circleHeader == ExtractCircleHeader(h.inlines, style.values.circleHeadersEnabled, cc).badge
    ensures e.text == MaakuText(Heading(h.level, ExtractCircleHeader(h.inlines, style.values.circleHeadersEnabled, cc).items),
      style.maakuStyle)
  {
    var split := ExtractCircleHeader(h.inlines, style.values.circleHeadersEnabled, cc);
    HeadingNode(style.insets.heading, nested, split.badge, MaakuText(Heading(h.level, split.items), style.maakuStyle))
  }

  /**
   * layoutSpecThatFits: the badge and the text side by side, 14 apart, when
   * there is a badge; the text alone otherwise; within the effective insets.
   */
  function HeadingLayout(e: Element): (l: Layout)
    requires e.HeadingNode?
    ensures l.Inset? && l.insets == NestedInsets(e.insets, e.nested)
    ensures e.circleHeader.Some? ==>
      l.child == Stack(Horizontal, BadgeSpacing, [Node(CircleHeaderNode(e.circleHeader.value)), Node(TextNode(e.text))])
    ensures e.circleHeader.None? ==> l.child == Node(TextNode(e.text))
  {
    var headingInsets := NestedInsets(e.insets, e.nested);
    if e.circleHeader.Some? then
      Inset(headingInsets, Stack(Horizontal, BadgeSpacing, [Node(CircleHeaderNode(e.circleHeader.value)), Node(TextNode(e.text))]))
    else Inset(headingInsets, Node(TextNode(e.text)))
  }

  /** A heading node: its badge and text are set up once, from the heading block. */
  class HeadingNode {
    const insets: Insets
    const nested: bool
    var circleHeaderNode: Option<string>
    var text: StyledText

    constructor(heading: Block, style: DocumentStyle, nested: bool, cc: CharClasses)
      requires heading.Heading?
      ensures Element() == HeadingNodeInit(heading, style, nested, cc)
    {
      this.insets := style.insets.heading;
      this.nested := nested;
      var items := heading.inlines;
      var badge: Option<string> := None;
      if style.values.circleHeadersEnabled && |items| > 0 && items[0].Text? {
        var numHeader := CharacterHeaderMatch(items[0].text, cc);
        if numHeader.Some? {
          var numberHeaderText := BadgeText(numHeader.value);
          var markdownText := items[0].text;
          if |markdownText| > |numHeader.value| {
            items := items[0 := Text(markdownText[|numHeader.value|..])];
            assert items == [Text(markdownText[|numHeader.value|..])] + heading.inlines[1..];
          } else {
            items := items[1..];
          }
          badge := Some(numberHeaderText);
        }
      }
      assert CircleHeaderSplit(badge, items) == ExtractCircleHeader(heading.inlines, style.values.circleHeadersEnabled, cc);
      circleHeaderNode := badge;
      text := MaakuText(Heading(heading.level, items), style.maakuStyle);
    }

    function Element(): Element
      reads this
    {
      Nodes.HeadingNode(insets, nested, circleHeaderNode, text)
    }

    function LayoutSpecThatFits(): Layout
      reads this
    {
      HeadingLayout(Element())
    }
  }
}
