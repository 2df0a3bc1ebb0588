/** TableNode: a table as its header row, a separator and its body rows, stacked. */
module TableNodes {
  import opened Foundation
  import opened Markdown
  import opened DocumentStyles
  import opened Nodes
  import opened TableRowNodes
  import opened TableAlignmentExtensions
  import opened TableCellNodes

  /** The separator under the header: a rule-high bar, 5 points below the header. */
  function Separator(style: DocumentStyle): Layout {
    Node(Bar(style.values.horizontalRuleHeight, 5.0, style.colors.horizontalRule))
  }

  /** A row node of the table, built from the same table and style as every other row. */
  function RowOf(row: TableLine, table: Block, style: DocumentStyle): Layout
    requires table.Table?
  {
    Node(ChildNode(TableRowNodeInit(row, table, style), false))
  }

  /** setupTable: the header row, the separator, then the body rows in order. */
  function TableRows(table: Block, style: DocumentStyle): (rows: seq<Layout>)
    requires table.Table?
    ensures |rows| == |table.rows| + 2
    ensures rows[0] == RowOf(table.header, table, style)
    ensures rows[1] == Separator(style)
    ensures forall i :: 0 <= i < |table.rows| ==> rows[i + 2] == RowOf(table.rows[i], table, style)
  {
    [RowOf(table.header, table, style), Separator(style)]
      + seq(|table.rows|, i requires 0 <= i < |table.rows| => RowOf(table.rows[i], table, style))
  }

  /** Each pass of setupTable's loop extends the rows built so far by the next body row. */
  lemma TableRowsPrefixStep(table: Block, style: DocumentStyle, i: nat)
    requires table.Table? && i < |table.rows|
    ensures TableRows(table, style)[..i + 3] == TableRows(table, style)[..i + 2] + [RowOf(table.rows[i], table, style)]
  {
    var all := TableRows(table, style);
    assert all[i + 2] == RowOf(table.rows[i], table, style);
    assert all[..i + 3] == all[..i + 2] + [all[i + 2]];
  }

  /** No row of a table is given the table as its link delegate. */
  lemma TableRowsAreNotDelegated(table: Block, style: DocumentStyle)
    requires table.Table?
    ensures forall i :: 0 <= i < |TableRows(table, style)| && TableRows(table, style)[i].leaf.ChildNode? ==>
      !TableRows(table, style)[i].leaf.delegatedToParent
  {
  }

  /**
   * Every cell of every row, header included, is aligned as its column says
   * (left for a column the table gives no alignment), and is drawn in its
   * row's theme: the strong one in the header.
   */
  lemma TableCellsFollowColumnAlignment(table: Block, style: DocumentStyle, r: nat, c: nat)
    requires table.Table? && r < |TableRows(table, style)| && r != 1
    ensures var row := if r == 0 then table.header else table.rows[r - 2];
      c < |row.cells| ==>
        && TableRows(table, style)[r].leaf.element.cells[c].leaf.element.alignment
           == ParagraphAlignment(ColumnAlignment(table.alignments, c))
        && (c >= |table.alignments| ==> TableRows(table, style)[r].leaf.element.cells[c].leaf.element.alignment == LeftText)
        && TableRows(table, style)[r].leaf.element.cells[c].leaf.element.theme == CellTheme(row, style.maakuStyle)
  {
  }

  /** TableNode.init(table:style:nested:) */
  function TableNodeInit(table: Block, style: DocumentStyle, nested: bool): (e: Element)
    requires table.Table?
    ensures e == TableNode(style.insets.table, nested, TableRows(table, style))
  {
    TableNode(style.insets.table, nested, TableRows(table, style))
  }

  /** layoutSpecThatFits: the rows stacked without spacing, within the effective insets. */
  function TableLayout(e: Element): (l: Layout)
    requires e.TableNode?
    ensures l == Inset(NestedInsets(e.insets, e.nested), Stack(Vertical, 0.0, e.rows))
  {
    Inset(NestedInsets(e.insets, e.nested), Stack(Vertical, 0.0, e.rows))
  }

  /** A table node, its rows appended during setup. */
  class TableNode {
    const insets: Insets
    const nested: bool
    var tableRows: seq<Layout>

    constructor(table: Block, style: DocumentStyle, nested: bool)
      requires table.Table?
      ensures Element() == TableNodeInit(table, style, nested)
    {
      this.insets := style.insets.table;
      this.nested := nested;
      tableRows := [];
      new;
      ghost var all := TableRows(table, style);
      tableRows := tableRows + [RowOf(table.header, table, style)];
      tableRows := tableRows + [Separator(style)];
      assert tableRows == all[..2];
      var i := 0;
      while i < |table.rows|
        invariant 0 <= i <= |table.rows|
        invariant tableRows == all[..i + 2]
      {
        TableRowsPrefixStep(table, style, i);
        tableRows := tableRows + [RowOf(table.rows[i], table, style)];
        i := i + 1;
      }
      assert all[..|all|] == all;
    }

    function Element(): Element
      reads this
    {
      Nodes.TableNode(insets, nested, tableRows)
    }
  }
}
