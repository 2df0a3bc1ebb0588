/**
 * DocumentNode: a markdown document shown as a vertical collection with one
 * cell per top-level block; it scrolls to headings and footnotes on request
 * and passes tapped links to its delegate.
 */
module DocumentNodes {
  import opened Foundation
  import opened Markdown
  import opened DocumentStyles
  import opened Nodes
  import opened HeadingExtensions
  import opened WrapperCellNodes
  import opened BlockDispatch

  /** A parsed document: its top-level blocks. */
  datatype Document = Document(items: seq<Block>)

  /** The first index whose block satisfies `p`, searching from the start. */
  function FirstIndex(items: seq<Block>, p: Block -> bool): (r: Option<nat>)
    ensures r.Some? ==> r.value < |items| && p(items[r.value])
    ensures r.Some? ==> forall j :: 0 <= j < r.value ==> !p(items[j])
    ensures r.None? <==> forall j :: 0 <= j < |items| ==> !p(items[j])
    decreases |items|
  {
    if |items| == 0 then None
    else if p(items[0]) then Some(0)
    else
      var rest := FirstIndex(items[1..], p);
      if rest.Some? then Some(rest.value + 1) else None
  }

  /** Two tests that agree on every block find the same first index. */
  lemma {:induction false} FirstIndexAgrees(items: seq<Block>, p: Block -> bool, q: Block -> bool)
    requires forall j :: 0 <= j < |items| ==> p(items[j]) == q(items[j])
    ensures FirstIndex(items, p) == FirstIndex(items, q)
    decreases |items|
  {
    if |items| > 0 {
      assert forall j :: 0 <= j < |items| - 1 ==> items[1..][j] == items[j + 1];
      FirstIndexAgrees(items[1..], p, q);
    }
  }

  /** A heading whose string value equals the title, ignoring case. */
  predicate HeadingMatches(item: Block, title: string) {
    item.Heading? && Lowercased(StringValue(item)) == Lowercased(title)
  }

  function HeadingTest(title: string): Block -> bool {
    (item: Block) => HeadingMatches(item, title)
  }

  /** A footnote definition with the given number. */
  function FootnoteTest(number: int): Block -> bool {
    (item: Block) => item.FootnoteDefinition? && item.number == number
  }

  /** Lower-casing twice is lower-casing once. */
  lemma LowercasedIdempotent(s: string)
    ensures Lowercased(Lowercased(s)) == Lowercased(s)
  {
  }

  /** The search ignores the title's case: a title finds what its lower-cased form finds. */
  lemma HeadingSearchIgnoresCase(items: seq<Block>, title: string)
    ensures FirstIndex(items, HeadingTest(title)) == FirstIndex(items, HeadingTest(Lowercased(title)))
  {
    LowercasedIdempotent(title);
    FirstIndexAgrees(items, HeadingTest(title), HeadingTest(Lowercased(title)));
  }

  /**
   * A footnote link whose host is the number a footnote definition shows
   * ("n." without the dot) finds the first definition with that number.
   */
  lemma FootnoteNumberRoundTrip(items: seq<Block>, k: nat)
    requires k < |items| && items[k].FootnoteDefinition?
    requires forall j :: 0 <= j < k ==> !(items[j].FootnoteDefinition? && items[j].number == items[k].number)
    ensures ParseInteger(DecimalString(items[k].number)) == Some(items[k].number)
    ensures FirstIndex(items, FootnoteTest(items[k].number)) == Some(k)
  {
    DecimalRoundTrip(items[k].number);
    assert FootnoteTest(items[k].number)(items[k]);
  }

  /** The number a footnote URL names: its host read as an integer, if both exist. */
  function FootnoteNumber(url: Url): (r: Option<int>)
    ensures url.host.None? ==> r.None?
    ensures url.host.Some? ==> r == ParseInteger(url.host.value)
  {
    if url.host.Some? then ParseInteger(url.host.value) else None
  }

  /** The index `scrollToFootnote` scrolls to, if any. */
  function FootnoteTarget(items: seq<Block>, url: Url): (r: Option<nat>)
    ensures FootnoteNumber(url).None? ==> r.None?
    ensures FootnoteNumber(url).Some? ==> r == FirstIndex(items, FootnoteTest(FootnoteNumber(url).value))
  {
    var n := FootnoteNumber(url);
    if n.Some? then FirstIndex(items, FootnoteTest(n.value)) else None
  }

  /**
   * A document node. Scrolling is recorded as the sequence of indices
   * scrolled to, and reloading as a count of reloads.
   */
  class DocumentNode {
    const document: Document
    const env: Env
    /** This node as a link delegate, given to the cells it creates. */
    const selfRef: DelegateRef
    const backgroundColor: Color
    var documentStyle: DocumentStyle
    var delegate: Option<DelegateRef>
    var reloads: nat
    var scrolledTo: seq<nat>

    constructor(document: Document, style: DocumentStyle, env: Env, selfRef: DelegateRef)
      ensures this.document == document && this.env == env && this.selfRef == selfRef
      ensures documentStyle == style && backgroundColor == style.colors.background
      ensures delegate == None && reloads == 0 && scrolledTo == []
    {
      this.document := document;
      this.env := env;
      this.selfRef := selfRef;
      documentStyle := style;
      backgroundColor := style.colors.background;
      delegate := None;
      reloads := 0;
      scrolledTo := [];
    }

    /** reload(): the collection reloads its data. */
    method Reload()
      modifies this
      ensures reloads == old(reloads) + 1
      ensures documentStyle == old(documentStyle) && delegate == old(delegate) && scrolledTo == old(scrolledTo)
    {
      reloads := reloads + 1;
    }

    /** Setting `documentStyle` always reloads, even to the same value. */
    method SetDocumentStyle(style: DocumentStyle)
      modifies this
      ensures documentStyle == style && reloads == old(reloads) + 1
      ensures delegate == old(delegate) && scrolledTo == old(scrolledTo)
    {
      documentStyle := style;
      Reload();
    }

    /** layoutSpecThatFits: the collection within the document inset. */
    function LayoutSpecThatFits(): (l: Layout)
      reads this
      ensures l == Inset(documentStyle.insets.document, Node(CollectionNode))
    {
      Inset(documentStyle.insets.document, Node(CollectionNode))
    }

    /**
     * scrollToFootnote(_:): when the URL's host is a number, scrolls to the
     * first top-level footnote definition with that number, if there is one;
     * otherwise nothing happens.
     */
    method ScrollToFootnote(url: Url)
      modifies this
      ensures scrolledTo == old(scrolledTo) + (if FootnoteTarget(document.items, url).Some? then [FootnoteTarget(document.items, url).value] else [])
      ensures documentStyle == old(documentStyle) && delegate == old(delegate) && reloads == old(reloads)
    {
      if url.host.None? {
        return;
      }
      var footnoteNumber := ParseInteger(url.host.value);
      if footnoteNumber.None? {
        return;
      }
      var index := 0;
      while index < |document.items|
        invariant 0 <= index <= |document.items|
        invariant forall j :: 0 <= j < index ==> !FootnoteTest(footnoteNumber.value)(document.items[j])
        invariant unchanged(this)
      {
        var item := document.items[index];
        if item.FootnoteDefinition? && item.number == footnoteNumber.value {
          scrolledTo := scrolledTo + [index];
          break;
        }
        index := index + 1;
      }
    }

    /**
     * scrollToHeading(_:): scrolls to the first top-level heading whose
     * string value equals the title ignoring case, and says whether there was one.
     */
    method ScrollToHeading(title: string) returns (found: bool)
      modifies this
      ensures found <==> FirstIndex(document.items, HeadingTest(title)).Some?
      ensures scrolledTo == old(scrolledTo) + (if found then [FirstIndex(document.items, HeadingTest(title)).value] else [])
      ensures documentStyle == old(documentStyle) && delegate == old(delegate) && reloads == old(reloads)
    {
      var index := 0;
      while index < |document.items|
        invariant 0 <= index <= |document.items|
        invariant forall j :: 0 <= j < index ==> !HeadingTest(title)(document.items[j])
        invariant unchanged(this)
      {
        var item := document.items[index];
        if item.Heading? && Lowercased(StringValue(item)) == Lowercased(title) {
          scrolledTo := scrolledTo + [index];
          return true;
        }
        index := index + 1;
      }
      return false;
    }

    /** collectionView(_:numberOfItemsInSection:): one item per top-level block. */
    function NumberOfItems(): (n: nat)
      reads this
      ensures n == |document.items|
    {
      |document.items|
    }

    /**
     * collectionView(_:nodeForItemAt:): the block's cell node, with this node
     * as its link delegate; `null` stands for the empty cell returned when
     * the index is out of range or the block has no display node.
     */
    method NodeForItemAt(index: nat) returns (cell: WrapperCellNode?)
      ensures cell == null <==> index >= |document.items| || DisplayNode(document.items[index], documentStyle, false, env).None?
      ensures cell != null ==>
        && fresh(cell) && fresh(cell.node) && cell.Valid()
        && Some(cell.node.element) == DisplayNode(document.items[index], documentStyle, false, env)
        && cell.LinkDelegate() == if Linkable(cell.node.element) then Some(selfRef) else None
    {
      if index >= |document.items| {
        return null;
      }
      var item := document.items[index];
      cell := CellNode(item, documentStyle, false, env);
      if cell == null {
        return null;
      }
      cell.SetLinkDelegate(Some(selfRef));
    }

    /** linkTapped(_:): the URL goes to the delegate, if there is one. */
    method LinkTapped(url: Url) returns (tap: Option<LinkTap>)
      ensures tap == ForwardLink(delegate, url)
    {
      tap := if delegate.Some? then Some(LinkTap(delegate.value, url)) else None;
    }
  }
}
