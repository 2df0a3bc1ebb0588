/**
 * DocumentStyle: the colours, insets and values a document is drawn with,
 * their defaults, and the copy-and-narrow operations renderers apply to a
 * style before handing it to their children. Every record is a value, so a
 * narrowed copy never changes the style it came from.
 */
module DocumentStyles {
  import opened Foundation
  import opened Markdown

  datatype DocumentColors = DocumentColors(
    background: Color,
    blockQuoteLine: Color,
    circleHeaderBackground: Color,
    circleHeaderForeground: Color,
    codeBlockBackground: Color,
    horizontalRule: Color)

  /** DefaultDocumentColors.init() */
  const DefaultDocumentColors := DocumentColors(
    background := White,
    blockQuoteLine := Gray(0.52, 1.0),
    circleHeaderBackground := Black,
    circleHeaderForeground := White,
    codeBlockBackground := Gray(0.95, 1.0),
    horizontalRule := Gray(0.28, 1.0))

  datatype DocumentInsets = DocumentInsets(
    blockQuote: Insets,
    codeBlock: Insets,
    document: Insets,
    footNoteDefinition: Insets,
    heading: Insets,
    horizontalRule: Insets,
    list: Insets,
    paragraph: Insets,
    table: Insets)

  /** The inset every block kind starts with: 10 above and below, 24 at the sides. */
  const StandardInsets := Insets(10.0, 24.0, 10.0, 24.0)

  /** DefaultDocumentInsets.init() */
  const DefaultDocumentInsets := DocumentInsets(
    blockQuote := StandardInsets,
    codeBlock := StandardInsets,
    document := ZeroInsets,
    footNoteDefinition := StandardInsets,
    heading := StandardInsets,
    horizontalRule := StandardInsets,
    list := StandardInsets,
    paragraph := StandardInsets,
    table := StandardInsets)

  /**
   * DocumentValues. The source declares `codeHighlighterTheme` and `codeFont`
   * only when built with TEXTURED_MAAKU_SYNTAX_COLORS; here they are always
   * present and are read only when a highlighter is available.
   */
  datatype DocumentValues = DocumentValues(
    blockQuoteLineWidth: real,
    horizontalRuleHeight: real,
    circleHeaderRadius: real,
    circleHeaderFont: Font,
    unorderedListSymbol: string,
    circleHeadersEnabled: bool,
    codeHighlighterTheme: string,
    codeFont: Font)

  /**
   * DefaultDocumentValues.init(). The rule is one device pixel high, so its
   * height depends on the screen's scale, which is a parameter here.
   */
  function DefaultDocumentValues(screenScale: real): (v: DocumentValues)
    requires screenScale > 0.0
    ensures v.horizontalRuleHeight * screenScale == 1.0
    ensures v.unorderedListSymbol == "•" && v.circleHeadersEnabled
    ensures v.blockQuoteLineWidth == 3.0 && v.circleHeaderRadius == 15.5
    ensures v.circleHeaderFont == SystemFont(14.0, HeavyWeight)
    ensures v.codeHighlighterTheme == "xcode" && v.codeFont == PreferredBodyFont
  {
    DocumentValues(
      blockQuoteLineWidth := 3.0,
      horizontalRuleHeight := 1.0 / screenScale,
      circleHeaderRadius := 15.5,
      circleHeaderFont := SystemFont(14.0, HeavyWeight),
      unorderedListSymbol := "•",
      circleHeadersEnabled := true,
      codeHighlighterTheme := "xcode",
      codeFont := PreferredBodyFont)
  }

  /** A document style; the datatype constructor is the memberwise initializer. */
  datatype DocumentStyle = DocumentStyle(
    colors: DocumentColors,
    insets: DocumentInsets,
    maakuStyle: MaakuStyle,
    values: DocumentValues)

  /** DefaultDocumentStyle.init() */
  function DefaultDocumentStyle(screenScale: real): (s: DocumentStyle)
    requires screenScale > 0.0
    ensures s.colors == DefaultDocumentColors
    ensures s.insets == DefaultDocumentInsets
    ensures s.maakuStyle == DefaultMaakuStyle
    ensures s.values == DefaultDocumentValues(screenScale)
  {
    DocumentStyle(DefaultDocumentColors, DefaultDocumentInsets, DefaultMaakuStyle, DefaultDocumentValues(screenScale))
  }

  // ---------------------------------------------------------------------
  // Narrowing one inset on a copy

  /** The nine inset properties of DocumentInsets. */
  datatype InsetKind =
    | QuoteInset | CodeInset | DocumentInset | FootnoteInset | HeadingInset
    | RuleInset | ListInset | ParagraphInset | TableInset

  function InsetFor(i: DocumentInsets, k: InsetKind): Insets {
    match k
    case QuoteInset => i.blockQuote
    case CodeInset => i.codeBlock
    case DocumentInset => i.document
    case FootnoteInset => i.footNoteDefinition
    case HeadingInset => i.heading
    case RuleInset => i.horizontalRule
    case ListInset => i.list
    case ParagraphInset => i.paragraph
    case TableInset => i.table
  }

  /** `insets.<k> = v` on a copy: kind `k` becomes `v`, every other kind keeps its value. */
  function WithInset(i: DocumentInsets, k: InsetKind, v: Insets): (r: DocumentInsets)
    ensures InsetFor(r, k) == v
    ensures forall k' :: k' != k ==> InsetFor(r, k') == InsetFor(i, k')
  {
    match k
    case QuoteInset => i.(blockQuote := v)
    case CodeInset => i.(codeBlock := v)
    case DocumentInset => i.(document := v)
    case FootnoteInset => i.(footNoteDefinition := v)
    case HeadingInset => i.(heading := v)
    case RuleInset => i.(horizontalRule := v)
    case ListInset => i.(list := v)
    case ParagraphInset => i.(paragraph := v)
    case TableInset => i.(table := v)
  }

  /** Insets are determined by their nine kinds. */
  lemma InsetsExtensionality(a: DocumentInsets, b: DocumentInsets)
    requires forall k :: InsetFor(a, k) == InsetFor(b, k)
    ensures a == b
  {
    assert InsetFor(a, QuoteInset) == InsetFor(b, QuoteInset);
    assert InsetFor(a, CodeInset) == InsetFor(b, CodeInset);
    assert InsetFor(a, DocumentInset) == InsetFor(b, DocumentInset);
    assert InsetFor(a, FootnoteInset) == InsetFor(b, FootnoteInset);
    assert InsetFor(a, HeadingInset) == InsetFor(b, HeadingInset);
    assert InsetFor(a, RuleInset) == InsetFor(b, RuleInset);
    assert InsetFor(a, ListInset) == InsetFor(b, ListInset);
    assert InsetFor(a, ParagraphInset) == InsetFor(b, ParagraphInset);
    assert InsetFor(a, TableInset) == InsetFor(b, TableInset);
  }

  /** Writing back the value an inset already has gives the same insets. */
  lemma WithInsetOwnValue(i: DocumentInsets, k: InsetKind)
    ensures WithInset(i, k, InsetFor(i, k)) == i
  {
    InsetsExtensionality(WithInset(i, k, InsetFor(i, k)), i);
  }

  /** The second of two writes to the same inset wins. */
  lemma WithInsetLastWriteWins(i: DocumentInsets, k: InsetKind, v: Insets, w: Insets)
    ensures WithInset(WithInset(i, k, v), k, w) == WithInset(i, k, w)
  {
    InsetsExtensionality(WithInset(WithInset(i, k, v), k, w), WithInset(i, k, w));
  }

  /** Writes to two different insets commute. */
  lemma WithInsetCommutes(i: DocumentInsets, k1: InsetKind, v1: Insets, k2: InsetKind, v2: Insets)
    requires k1 != k2
    ensures WithInset(WithInset(i, k1, v1), k2, v2) == WithInset(WithInset(i, k2, v2), k1, v1)
  {
    InsetsExtensionality(WithInset(WithInset(i, k1, v1), k2, v2), WithInset(WithInset(i, k2, v2), k1, v1));
  }

  /**
   * `var s2 = s; s2.insets.<k> = v`: the copy differs from `s` in that one
   * inset only; colours, values and the text theme are those of `s`.
   */
  function WithStyleInset(s: DocumentStyle, k: InsetKind, v: Insets): (r: DocumentStyle)
    ensures r.colors == s.colors && r.values == s.values && r.maakuStyle == s.maakuStyle
    ensures InsetFor(r.insets, k) == v
    ensures forall k' :: k' != k ==> InsetFor(r.insets, k') == InsetFor(s.insets, k')
  {
    s.(insets := WithInset(s.insets, k, v))
  }

  /** The default document inset is zero and the other eight kinds are all the standard inset. */
  lemma DefaultInsetsByKind(k: InsetKind)
    ensures InsetFor(DefaultDocumentInsets, k) == if k == DocumentInset then ZeroInsets else StandardInsets
  {
  }

  // ---------------------------------------------------------------------
  // The nested-inset rule

  /**
   * The insets a node uses for its layout: its own insets when it stands at
   * the top level; when nested in another block only the left inset is kept
   * and top, bottom and right become zero.
   */
  function NestedInsets(i: Insets, nested: bool): (r: Insets)
    ensures r.left == i.left
    ensures !nested ==> r == i
    ensures nested ==> r.top == 0.0 && r.bottom == 0.0 && r.right == 0.0
  {
    if nested then Insets(0.0, i.left, 0.0, 0.0) else i
  }

  /** Applying the rule again changes nothing. */
  lemma NestedInsetsIdempotent(i: Insets, nested: bool)
    ensures NestedInsets(NestedInsets(i, nested), nested) == NestedInsets(i, nested)
  {
  }

  /** Nested insets depend only on the left inset. */
  lemma NestedInsetsOnlyLeftMatters(i: Insets, j: Insets)
    requires i.left == j.left
    ensures NestedInsets(i, true) == NestedInsets(j, true)
  {
  }
}
