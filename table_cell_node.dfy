/** TableCellNode: one cell of a table, its text aligned as its column says. */
module TableCellNodes {
  import opened Foundation
  import opened Markdown
  import opened DocumentStyles
  import opened Nodes
  import opened TableAlignmentExtensions

  /** The theme a cell is rendered with: the strong variant in the header row. */
  function CellTheme(row: TableLine, theme: MaakuStyle): (t: MaakuStyle)
    ensures row.TableHeader? ==> t == StrongStyle(theme)
    ensures row.TableRow? ==> t == theme
  {
    if row.TableHeader? then StrongStyle(theme) else theme
  }

  /**
   * TableCellNode.init(cell:row:alignment:style:), with the width fraction
   * the row then gives it. The alignment is the one passed in.
   */
  function TableCellNodeInit(cell: TableCell, row: TableLine, alignment: TableAlignment, style: DocumentStyle, widthFraction: real): (e: Element)
    ensures e.TableCellNode? && e.cell == cell && e.widthFraction == widthFraction
    ensures e.theme == CellTheme(row, style.maakuStyle)
    ensures e.alignment == ParagraphAlignment(alignment)
  {
    TableCellNode(cell, CellTheme(row, style.maakuStyle), ParagraphAlignment(alignment), widthFraction)
  }

  /**
   * setupTable: renders the cell with the (possibly strong) theme and sets
   * the column's paragraph alignment over the whole text. `render` is the
   * theme's rendering of inline content.
   */
  method SetupCellText(cell: TableCell, row: TableLine, alignment: TableAlignment, style: DocumentStyle,
                       render: (TableCell, MaakuStyle) -> AttributedText) returns (text: AttributedText)
    ensures var rendered := render(cell, CellTheme(row, style.maakuStyle));
      && |text| == |rendered|
      && (forall i :: 0 <= i < |text| ==> text[i].unit == rendered[i].unit && text[i].font == rendered[i].font)
      && (forall i :: 0 <= i < |text| ==> text[i].alignment == Some(ParagraphAlignment(alignment)))
  {
    var cellStyle := style.maakuStyle;
    if row.TableHeader? {
      cellStyle := StrongStyle(cellStyle);
    }
    text := render(cell, cellStyle);
    text := AddAlignment(text, ParagraphAlignment(alignment), 0, |text|);
  }

  /** layoutSpecThatFits: the text node, wrapped. */
  function TableCellLayout(e: Element): (l: Layout)
    requires e.TableCellNode?
    ensures l == Wrapper(Node(TextNode(CellText(e.cell, e.theme, e.alignment))))
  {
    Wrapper(Node(TextNode(CellText(e.cell, e.theme, e.alignment))))
  }
}
