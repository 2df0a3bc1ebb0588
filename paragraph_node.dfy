/**
 * ParagraphNode: a paragraph shown as text, or, when it consists of a
 * single linked image, as that image sized to fit the available width.
 */
module ParagraphNodes {
  import opened Foundation
  import opened Markdown
  import opened DocumentStyles
  import opened Nodes

  /**
   * setupParagraph: image mode exactly when the paragraph has one inline and
   * it is an image with a URL; otherwise the paragraph's text.
   */
  function ParagraphContentFor(inlines: seq<Inline>, theme: MaakuStyle): (c: ParagraphContent)
    ensures c.ImageContent? <==> |inlines| == 1 && inlines[0].Image? && inlines[0].url.Some?
    ensures c.ImageContent? ==> c.url == inlines[0].url.value
    ensures c.TextContent? ==> c.text == MaakuText(Paragraph(inlines), theme)
  {
    if |inlines| == 1 && inlines[0].Image? && inlines[0].url.Some? then ImageContent(inlines[0].url.value)
    else TextContent(MaakuText(Paragraph(inlines), theme))
  }

  /** ParagraphNode.init(paragraph:style:nested:) */
  function ParagraphNodeInit(p: Block, style: DocumentStyle, nested: bool): (e: Element)
    requires p.Paragraph?
    ensures e.ParagraphNode? && e.insets == style.insets.paragraph && e.nested == nested
    ensures e.content == ParagraphContentFor(p.inlines, style.maakuStyle)
  {
    ParagraphNode(style.insets.paragraph, nested, ParagraphContentFor(p.inlines, style.maakuStyle))
  }

  /** The placeholder size of an image whose size is not known yet. */
  const PlaceholderSize := Size(50.0, 50.0)

  /**
   * The image's preferred size inside `maxWidth`: 50 by 50 while its size is
   * unknown (zero width); once loaded, its own width capped at `maxWidth`,
   * with the height scaled to keep the aspect ratio.
   */
  function ImageFrame(imageSize: Size, maxWidth: real): (f: Size)
    ensures imageSize.width <= 0.0 ==> f == PlaceholderSize
    ensures imageSize.width > 0.0 ==> f.width == (if imageSize.width < maxWidth then imageSize.width else maxWidth)
    ensures imageSize.width > 0.0 ==> f.height * imageSize.width == imageSize.height * f.width
  {
    if imageSize.width > 0.0 then
      var width := if imageSize.width < maxWidth then imageSize.width else maxWidth;
      Size(width, (imageSize.height / imageSize.width) * width)
    else PlaceholderSize
  }

  /**
   * layoutSpecThatFits: the effective insets around the text, or around the
   * image, which is followed by a flexible spacer when narrower than the
   * available width. The available width is computed from the paragraph's
   * own insets, nested or not.
   */
  function ParagraphLayout(e: Element, imageSize: Size, constrainedMax: Size): (l: Layout)
    requires e.ParagraphNode?
    ensures l.Inset? && l.insets == NestedInsets(e.insets, e.nested)
    ensures e.content.TextContent? ==> l.child == Node(TextNode(e.content.text))
  {
    var paragraphInsets := NestedInsets(e.insets, e.nested);
    match e.content
    case TextContent(text) => Inset(paragraphInsets, Node(TextNode(text)))
    case ImageContent(url) =>
      var maxWidth := constrainedMax.width - e.insets.left - e.insets.right;
      var frame := ImageFrame(imageSize, maxWidth);
      var image := Node(ImageNode(url, frame));
      if frame.width < maxWidth then Inset(paragraphInsets, Stack(Horizontal, 0.0, [image, Node(FlexibleSpacer)]))
      else Inset(paragraphInsets, image)
  }

  /** The image's width in the layout. */
  function LaidOutImageWidth(l: Layout): real {
    if l.Inset? && l.child.Node? && l.child.leaf.ImageNode? then l.child.leaf.preferredSize.width
    else if l.Inset? && l.child.Stack? && |l.child.children| == 2 && l.child.children[0].Node?
      && l.child.children[0].leaf.ImageNode? then l.child.children[0].leaf.preferredSize.width
    else 0.0
  }

  /**
   * An image paragraph lays out the image alone or followed by a spacer, and
   * the spacer is there exactly when the image is narrower than the width
   * available inside the non-nested insets; a loaded image never exceeds it.
   */
  lemma ImageLayoutShape(e: Element, imageSize: Size, constrainedMax: Size)
    requires e.ParagraphNode? && e.content.ImageContent?
    ensures var l := ParagraphLayout(e, imageSize, constrainedMax);
      var maxWidth := constrainedMax.width - e.insets.left - e.insets.right;
      var w := ImageFrame(imageSize, maxWidth).width;
      && (l.child.Stack? <==> w < maxWidth)
      && (l.child.Stack? ==> l.child.children[1] == Node(FlexibleSpacer))
      && LaidOutImageWidth(l) == w
      && (imageSize.width > 0.0 ==> w <= maxWidth)
  {
  }

  /**
   * A paragraph node. The image size becomes known when the image loads;
   * setting it asks for a new layout only when the value actually changes.
   */
  class ParagraphNode {
    const insets: Insets
    const nested: bool
    const content: ParagraphContent
    var imageSize: Size
    /** How many times the node (and its image node) were asked to lay out again. */
    var layoutRequests: nat

    constructor(p: Block, style: DocumentStyle, nested: bool)
      requires p.Paragraph?
      ensures Element() == ParagraphNodeInit(p, style, nested)
      ensures imageSize == ZeroSize && layoutRequests == 0
    {
      this.insets := style.insets.paragraph;
      this.nested := nested;
      if |p.inlines| == 1 && p.inlines[0].Image? && p.inlines[0].url.Some? {
        this.content := ImageContent(p.inlines[0].url.value);
      } else {
        this.content := TextContent(MaakuText(p, style.maakuStyle));
      }
      imageSize := ZeroSize;
      layoutRequests := 0;
    }

    function Element(): Element {
      Nodes.ParagraphNode(insets, nested, content)
    }

    /** The `imageSize` property's observer. */
    method SetImageSize(size: Size)
      modifies this
      ensures imageSize == size
      ensures layoutRequests == old(layoutRequests) + (if old(imageSize) != size then 1 else 0)
    {
      var oldValue := imageSize;
      imageSize := size;
      if oldValue != imageSize {
        layoutRequests := layoutRequests + 1;
      }
    }

    /** imageNode(_:didLoad:) */
    method DidLoadImage(size: Size)
      modifies this
      ensures imageSize == size
      ensures layoutRequests == old(layoutRequests) + (if old(imageSize) != size then 1 else 0)
    {
      SetImageSize(size);
    }

    function LayoutSpecThatFits(constrainedMax: Size): Layout
      reads this
    {
      ParagraphLayout(Element(), imageSize, constrainedMax)
    }
  }
}
