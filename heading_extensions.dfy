/** Heading+TexturedMaaku: the plain text a heading is found by. */
module HeadingExtensions {
  import opened Foundation
  import opened Markdown

  /**
   * stringValue: the text of the heading's first inline when that inline is
   * plain text, and the empty string otherwise (no inline, or a first inline
   * of another kind; nested text is not searched).
   */
  function StringValue(h: Block): (r: string)
    requires h.Heading?
    ensures |h.inlines| > 0 && h.inlines[0].Text? ==> r == h.inlines[0].text
    ensures |h.inlines| == 0 || !h.inlines[0].Text? ==> r == ""
  {
    if |h.inlines| > 0 && h.inlines[0].Text? then h.inlines[0].text else ""
  }

  /** Only the first inline matters: whatever follows it never changes the value. */
  lemma StringValueReadsFirstInlineOnly(level: nat, first: Inline, rest1: seq<Inline>, rest2: seq<Inline>)
    ensures StringValue(Heading(level, [first] + rest1)) == StringValue(Heading(level, [first] + rest2))
  {
  }

  lemma StringValueExamples()
    ensures StringValue(Heading(1, [Text("test test")])) == "test test"
    ensures StringValue(Heading(1, [])) == ""
    ensures StringValue(Heading(1, [Emphasis([Text("test")])])) == ""
  {
  }
}
