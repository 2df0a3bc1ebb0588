/** TableAlignment+TexturedMaaku: the paragraph alignment of a table column. */
module TableAlignmentExtensions {
  import opened Foundation
  import opened Markdown

  /**
   * paragraphStyle: the paragraph alignment for a column alignment. Left and
   * unspecified columns are left-aligned; the result is always left, center
   * or right.
   */
  function ParagraphAlignment(a: TableAlignment): (r: TextAlignment)
    ensures r == LeftText <==> a == Left || a == NoAlignment
    ensures r == CenterText <==> a == Center
    ensures r == RightText <==> a == Right
  {
    match a
    case Center => CenterText
    case Left => LeftText
    case NoAlignment => LeftText
    case Right => RightText
  }

  /** Two column alignments give the same paragraph alignment exactly when they are equal or both left/unspecified. */
  lemma ParagraphAlignmentIdentifiesOnlyLeftAndNone(a: TableAlignment, b: TableAlignment)
    ensures ParagraphAlignment(a) == ParagraphAlignment(b)
        <==> a == b || (a in {Left, NoAlignment} && b in {Left, NoAlignment})
  {
  }
}
