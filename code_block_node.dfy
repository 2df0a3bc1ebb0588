/**
 * CodeBlockNode: a fenced or indented code block on a rounded background,
 * with its text highlighted when a highlighter is available.
 */
module CodeBlockNodes {
  import opened Foundation
  import opened Markdown
  import opened DocumentStyles
  import opened Nodes

  /**
   * `code.hasSuffix("\n")` on a Swift string, which compares whole
   * characters: a final "\r\n" is one character, so it does not count.
   */
  predicate EndsWithNewline(code: string) {
    |code| > 0 && code[|code| - 1] == '\n' && !(|code| >= 2 && code[|code| - 2] == '\r')
  }

  /** setupCodeBlock: exactly one trailing newline is removed, if there is one. */
  function StripTrailingNewline(code: string): (r: string)
    ensures EndsWithNewline(code) ==> r + "\n" == code
    ensures !EndsWithNewline(code) ==> r == code
  {
    if EndsWithNewline(code) then code[..|code| - 1] else code
  }

  lemma StripExamples()
    ensures StripTrailingNewline("a\n\n") == "a\n"
    ensures StripTrailingNewline("a") == "a"
    ensures StripTrailingNewline("a\r\n") == "a\r\n"
  {
    assert "a\n\n"[..2] == "a\n";
  }

  /**
   * A syntax highlighter with its theme set: given the theme, the code and
   * an optional language, it may produce attributed text.
   */
  datatype Highlighter = Highlighter(highlight: (string, string, Option<string>) -> Option<AttributedText>)

  /**
   * The highlighted code, if any: with a non-empty language hint the hinted
   * highlighting is tried first; when it gives nothing, unhinted highlighting.
   */
  function Highlighted(h: Highlighter, theme: string, code: string, info: Option<string>): (r: Option<AttributedText>)
    ensures info.Some? && info.value != "" && h.highlight(theme, code, info).Some? ==> r == h.highlight(theme, code, info)
    ensures !(info.Some? && info.value != "" && h.highlight(theme, code, info).Some?) ==> r == h.highlight(theme, code, None)
  {
    if info.Some? && info.value != "" && h.highlight(theme, code, info).Some? then h.highlight(theme, code, info)
    else h.highlight(theme, code, None)
  }

  /**
   * The code's text: highlighted text in the code font over its whole range;
   * when there is no highlighter or highlighting gave no (or empty) text, the
   * theme's rendering of the code block.
   */
  function CodeText(code: string, info: Option<string>, style: DocumentStyle, highlighter: Option<Highlighter>): (t: StyledText)
    ensures t.Attributed? ==> forall i :: 0 <= i < |t.units| ==> t.units[i].font == Some(style.values.codeFont)
    ensures highlighter.None? ==> t == MaakuText(CodeBlock(code, info), style.maakuStyle)
    ensures highlighter.Some? ==>
      var h := Highlighted(highlighter.value, style.values.codeHighlighterTheme, code, info);
      && (h.None? || |h.value| == 0 <==> t.MaakuText?)
      && (t.MaakuText? ==> t == MaakuText(CodeBlock(code, info), style.maakuStyle))
      && (t.Attributed? ==> |t.units| == |h.value|)
      && (t.Attributed? ==> forall i :: 0 <= i < |t.units| ==>
            t.units[i].unit == h.value[i].unit && t.units[i].alignment == h.value[i].alignment)
  {
    var attributedCode :=
      if highlighter.Some? then Highlighted(highlighter.value, style.values.codeHighlighterTheme, code, info).GetOr([])
      else [];
    if |attributedCode| == 0 then MaakuText(CodeBlock(code, info), style.maakuStyle)
    else Attributed(AddFont(attributedCode, style.values.codeFont, 0, |attributedCode|))
  }

  /** CodeBlockNode.init(codeBlock:style:nested:) */
  function CodeBlockNodeInit(b: Block, style: DocumentStyle, nested: bool, highlighter: Option<Highlighter>): (e: Element)
    requires b.CodeBlock?
    ensures e.CodeBlockNode? && e.insets == style.insets.codeBlock && e.nested == nested
    ensures e.text == CodeText(StripTrailingNewline(b.code), b.info, style, highlighter)
    ensures e.background == style.colors.codeBlockBackground
  {
    CodeBlockNode(style.insets.codeBlock, nested, CodeText(StripTrailingNewline(b.code), b.info, style, highlighter),
      style.colors.codeBlockBackground)
  }

  /** The inset between the background's edge and the code: 10 on every side. */
  const TextInsets := Insets(10.0, 10.0, 10.0, 10.0)

  /**
   * The width a layout pass gives the text: the constrained width less the
   * text insets when that width is positive and finite; otherwise the width
   * set by an earlier pass stays.
   */
  function NextTextWidth(current: Option<real>, maxWidth: real): (w: Option<real>)
    ensures 0.0 < maxWidth < GreatestFiniteMagnitude ==> w == Some(maxWidth - 20.0)
    ensures !(0.0 < maxWidth < GreatestFiniteMagnitude) ==> w == current
  {
    if 0.0 < maxWidth && maxWidth < GreatestFiniteMagnitude then Some(maxWidth - TextInsets.left - TextInsets.right)
    else current
  }

  /** An unbounded width never changes the text width. */
  lemma UnboundedWidthKeepsTextWidth(current: Option<real>)
    ensures NextTextWidth(current, GreatestFiniteMagnitude) == current
    ensures NextTextWidth(current, 0.0) == current
  {
  }

  /** The code inside the text insets on its background, within the effective insets. */
  function CodeBlockLayout(e: Element, textWidth: Option<real>): (l: Layout)
    requires e.CodeBlockNode?
    ensures l.Inset? && l.insets == NestedInsets(e.insets, e.nested)
    ensures l.child == Background(Inset(TextInsets, Node(SizedTextNode(e.text, textWidth))), Node(RoundedBackground(e.background)))
  {
    Inset(NestedInsets(e.insets, e.nested),
      Background(Inset(TextInsets, Node(SizedTextNode(e.text, textWidth))), Node(RoundedBackground(e.background))))
  }

  /** A code block node. Its text width is set by the layout pass and kept between passes. */
  class CodeBlockNode {
    const insets: Insets
    const nested: bool
    const text: StyledText
    const background: Color
    var textWidth: Option<real>

    constructor(b: Block, style: DocumentStyle, nested: bool, highlighter: Option<Highlighter>)
      requires b.CodeBlock?
      ensures Element() == CodeBlockNodeInit(b, style, nested, highlighter)
      ensures textWidth == None
    {
      this.insets := style.insets.codeBlock;
      this.nested := nested;
      var code := b.code;
      if EndsWithNewline(code) {
        code := code[..|code| - 1];
      }
      this.text := CodeText(code, b.info, style, highlighter);
      this.background := style.colors.codeBlockBackground;
      textWidth := None;
    }

    function Element(): Element {
      Nodes.CodeBlockNode(insets, nested, text, background)
    }

    /** layoutSpecThatFits: fixes the text width when the constrained width is usable, then lays out. */
    method LayoutSpecThatFits(constrainedMax: Size) returns (l: Layout)
      modifies this
      ensures textWidth == NextTextWidth(old(textWidth), constrainedMax.width)
      ensures l == CodeBlockLayout(Element(), textWidth)
    {
      if 0.0 < constrainedMax.width && constrainedMax.width < GreatestFiniteMagnitude {
        textWidth := Some(constrainedMax.width - TextInsets.left - TextInsets.right);
      }
      l := CodeBlockLayout(Element(), textWidth);
    }
  }
}
