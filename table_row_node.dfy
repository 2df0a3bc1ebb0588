/** TableRowNode: one line of a table, its cells side by side in equal widths. */
module TableRowNodes {
  import opened Foundation
  import opened Markdown
  import opened DocumentStyles
  import opened Nodes
  import opened CollectionExtensions
  import opened TableCellNodes
  import opened TableAlignmentExtensions

  /** The alignment of column `column`: the table's, or none past the alignments given. */
  function ColumnAlignment(alignments: seq<TableAlignment>, column: nat): (a: TableAlignment)
    ensures column < |alignments| ==> a == alignments[column]
    ensures column >= |alignments| ==> a == NoAlignment
  {
    SafeAt(alignments, column).GetOr(NoAlignment)
  }

  /**
   * The cell node of column `c`: the cell itself, the row's theme, the
   * column's alignment (left when the table gives none) and a 1/n share of
   * the width.
   */
  function CellAt(row: TableLine, alignments: seq<TableAlignment>, style: DocumentStyle, c: nat): (l: Layout)
    requires c < |row.cells|
    ensures l.Node? && l.leaf.ChildNode? && !l.leaf.delegatedToParent
    ensures l.leaf.element.TableCellNode? && l.leaf.element.cell == row.cells[c]
    ensures l.leaf.element.widthFraction * (|row.cells| as real) == 1.0
    ensures l.leaf.element.alignment == ParagraphAlignment(ColumnAlignment(alignments, c))
    ensures l.leaf.element.theme == CellTheme(row, style.maakuStyle)
  {
    Node(ChildNode(TableCellNodeInit(row.cells[c], row, ColumnAlignment(alignments, c), style, 1.0 / (|row.cells| as real)), false))
  }

  /** setupTable: one cell node per cell, in column order. */
  function RowCells(row: TableLine, alignments: seq<TableAlignment>, style: DocumentStyle): (cells: seq<Layout>)
    ensures |cells| == |row.cells|
    ensures forall c :: 0 <= c < |cells| ==> cells[c] == CellAt(row, alignments, style, c)
  {
    seq(|row.cells|, c requires 0 <= c < |row.cells| => CellAt(row, alignments, style, c))
  }

  /** TableRowNode.init(row:table:style:) */
  function TableRowNodeInit(row: TableLine, table: Block, style: DocumentStyle): (e: Element)
    requires table.Table?
    ensures e == TableRowNode(RowCells(row, table.alignments, style))
  {
    TableRowNode(RowCells(row, table.alignments, style))
  }

  /** The row's insets: 5 above, nothing elsewhere. */
  const RowInsets := Insets(5.0, 0.0, 0.0, 0.0)

  /** layoutSpecThatFits: the cells side by side, below a 5-point gap. */
  function TableRowLayout(e: Element): (l: Layout)
    requires e.TableRowNode?
    ensures l == Inset(RowInsets, Stack(Horizontal, 0.0, e.cells))
  {
    Inset(RowInsets, Stack(Horizontal, 0.0, e.cells))
  }

  /** A table row node, its cells appended one column at a time. */
  class TableRowNode {
    var tableCells: seq<Layout>

    constructor(row: TableLine, table: Block, style: DocumentStyle)
      requires table.Table?
      ensures Element() == TableRowNodeInit(row, table, style)
    {
      tableCells := [];
      new;
      var column := 0;
      while column < |row.cells|
        invariant 0 <= column <= |row.cells|
        invariant tableCells == RowCells(row, table.alignments, style)[..column]
      {
        var alignment := SafeAt(table.alignments, column).GetOr(NoAlignment);
        var cellNode := TableCellNodeInit(row.cells[column], row, alignment, style, 1.0 / (|row.cells| as real));
        tableCells := tableCells + [Node(ChildNode(cellNode, false))];
        column := column + 1;
      }
    }

    function Element(): Element
      reads this
    {
      Nodes.TableRowNode(tableCells)
    }
  }
}
