/**
 * DocumentViewController: hosts a document node, keeps its style in step
 * with the node's, and decides what a tapped link does.
 */
module DocumentViewControllers {
  import opened Foundation
  import opened Markdown
  import opened DocumentStyles
  import opened Nodes
  import opened StringExtensions
  import opened BlockDispatch
  import opened DocumentNodes

  /** What a tapped link leads to. */
  datatype Route =
      /** Shown in a Safari view controller. */
    | WebRoute
      /** Handed to the node's footnote scrolling. */
    | FootnoteRoute
      /** A heading with this (decoded) title was found and scrolled to. */
    | HeadingRoute(title: string)
      /** Opened by the application. */
    | ExternalRoute
      /** Nothing happens. */
    | NoRoute

  /** The URL's scheme, the empty string when it has none. */
  function Scheme(url: Url): string {
    url.scheme.GetOr("")
  }

  /** The decoded fragment of a "#…" URL: the heading title it asks for. */
  function HeadingTitle(url: Url, utf8: seq<Byte> -> Option<string>): (r: Option<string>)
    ensures r.Some? <==> HasPrefix(url.absoluteString, "#") && url.fragment.Some?
    ensures r.Some? ==> r.value == UrlSpaceDecoded(url.fragment.value, utf8)
  {
    if HasPrefix(url.absoluteString, "#") && url.fragment.Some? then Some(UrlSpaceDecoded(url.fragment.value, utf8)) else None
  }

  /**
   * linkTapped(_:)'s decision, in order: web schemes, footnote schemes, a
   * "#…" link to a heading the document has, then anything the
   * application can open. The first branch that applies decides.
   */
  function LinkRoute(url: Url, items: seq<Block>, canOpen: bool, utf8: seq<Byte> -> Option<string>): (r: Route)
    ensures r == WebRoute <==> HasPrefix(Scheme(url), "http")
    ensures r == FootnoteRoute <==> !HasPrefix(Scheme(url), "http") && HasPrefix(Scheme(url), "footnote")
    ensures r.HeadingRoute? <==>
      && !HasPrefix(Scheme(url), "http") && !HasPrefix(Scheme(url), "footnote")
      && HeadingTitle(url, utf8).Some? && FirstIndex(items, HeadingTest(HeadingTitle(url, utf8).value)).Some?
    ensures r.HeadingRoute? ==> r.title == HeadingTitle(url, utf8).value
    ensures r == ExternalRoute <==>
      && canOpen
      && !HasPrefix(Scheme(url), "http") && !HasPrefix(Scheme(url), "footnote")
      && !(HeadingTitle(url, utf8).Some? && FirstIndex(items, HeadingTest(HeadingTitle(url, utf8).value)).Some?)
  {
    var scheme := Scheme(url);
    var title := HeadingTitle(url, utf8);
    if HasPrefix(scheme, "http") then WebRoute
    else if HasPrefix(scheme, "footnote") then FootnoteRoute
    else if title.Some? && FirstIndex(items, HeadingTest(title.value)).Some? then HeadingRoute(title.value)
    else if canOpen then ExternalRoute
    else NoRoute
  }

  /** A URL without a scheme is never a web or footnote link. */
  lemma MissingSchemeIsNeitherWebNorFootnote(url: Url, items: seq<Block>, canOpen: bool, utf8: seq<Byte> -> Option<string>)
    requires url.scheme.None?
    ensures LinkRoute(url, items, canOpen, utf8) != WebRoute
    ensures LinkRoute(url, items, canOpen, utf8) != FootnoteRoute
  {
  }

  /** "https" links are web links too, whatever else the URL holds. */
  lemma HttpsIsWeb(url: Url, items: seq<Block>, canOpen: bool, utf8: seq<Byte> -> Option<string>)
    requires url.scheme == Some("https")
    ensures LinkRoute(url, items, canOpen, utf8) == WebRoute
  {
    assert "https"[..4] == "http";
  }

  /** A "#…" link to a heading the document lacks falls through to opening, when that is possible. */
  lemma MissingHeadingFallsThrough(url: Url, items: seq<Block>, canOpen: bool, utf8: seq<Byte> -> Option<string>)
    requires url.scheme.None? && HeadingTitle(url, utf8).Some?
    requires FirstIndex(items, HeadingTest(HeadingTitle(url, utf8).value)).None?
    ensures LinkRoute(url, items, canOpen, utf8) == if canOpen then ExternalRoute else NoRoute
  {
  }

  /** contentSizeCategoryChange(_:): the style with Maaku's fonts reset to the defaults. */
  function WithDefaultFonts(s: DocumentStyle): (r: DocumentStyle)
    ensures r.colors == s.colors && r.insets == s.insets && r.values == s.values
    ensures r.maakuStyle.colors == s.maakuStyle.colors && r.maakuStyle.strong == s.maakuStyle.strong
    ensures r.maakuStyle.fonts == DefaultFontStyle
  {
    s.(maakuStyle := s.maakuStyle.(fonts := DefaultFontStyle))
  }

  /** Resetting the fonts twice is resetting them once. */
  lemma WithDefaultFontsIdempotent(s: DocumentStyle)
    ensures WithDefaultFonts(WithDefaultFonts(s)) == WithDefaultFonts(s)
  {
  }

  /**
   * A document view controller: its node, and the web pages it presented
   * and the URLs it opened, in order.
   */
  class DocumentViewController {
    var documentStyle: DocumentStyle
    const node: DocumentNode
    var presentedUrls: seq<Url>
    var openedUrls: seq<Url>

    /** init(document:style:): a new node for the document, with this controller as its delegate. */
    constructor(document: Document, style: DocumentStyle, env: Env, nodeRef: DelegateRef, selfRef: DelegateRef)
      ensures documentStyle == style && fresh(node)
      ensures node.document == document && node.documentStyle == style && node.env == env
      ensures node.delegate == Some(selfRef) && node.reloads == 0 && node.scrolledTo == []
      ensures presentedUrls == [] && openedUrls == []
    {
      documentStyle := style;
      var n := new DocumentNode(document, style, env, nodeRef);
      n.delegate := Some(selfRef);
      node := n;
      presentedUrls := [];
      openedUrls := [];
    }

    /** Setting `documentStyle` hands the same value to the node, which reloads. */
    method SetDocumentStyle(style: DocumentStyle)
      modifies this, node
      ensures documentStyle == style && node.documentStyle == style
      ensures node.reloads == old(node.reloads) + 1
      ensures node.scrolledTo == old(node.scrolledTo) && node.delegate == old(node.delegate)
      ensures presentedUrls == old(presentedUrls) && openedUrls == old(openedUrls)
    {
      documentStyle := style;
      node.SetDocumentStyle(style);
    }

    /** reload(): the node reloads. */
    method Reload()
      modifies node
      ensures node.reloads == old(node.reloads) + 1
      ensures node.documentStyle == old(node.documentStyle) && node.scrolledTo == old(node.scrolledTo)
      ensures node.delegate == old(node.delegate)
    {
      node.Reload();
    }

    /**
     * linkTapped(_:): follows the route. `canOpen` is the application's
     * answer to whether it can open the URL; `utf8` decodes percent-escaped bytes.
     */
    method LinkTapped(url: Url, canOpen: bool, utf8: seq<Byte> -> Option<string>)
      modifies this, node
      ensures var r := LinkRoute(url, node.document.items, canOpen, utf8);
        && presentedUrls == old(presentedUrls) + (if r == WebRoute then [url] else [])
        && openedUrls == old(openedUrls) + (if r == ExternalRoute then [url] else [])
        && node.scrolledTo == old(node.scrolledTo) + (
          if r == FootnoteRoute && FootnoteTarget(node.document.items, url).Some? then [FootnoteTarget(node.document.items, url).value]
          else if r.HeadingRoute? then [FirstIndex(node.document.items, HeadingTest(r.title)).value]
          else [])
      ensures documentStyle == old(documentStyle) && node.documentStyle == old(node.documentStyle)
      ensures node.reloads == old(node.reloads) && node.delegate == old(node.delegate)
    {
      var scheme := url.scheme.GetOr("");
      if HasPrefix(scheme, "http") {
        presentedUrls := presentedUrls + [url];
      } else if HasPrefix(scheme, "footnote") {
        node.ScrollToFootnote(url);
      } else {
        var found := false;
        if HasPrefix(url.absoluteString, "#") && url.fragment.Some? {
          var fragment := UrlSpaceDecoded(url.fragment.value, utf8);
          found := node.ScrollToHeading(fragment);
        }
        if !found && canOpen {
          openedUrls := openedUrls + [url];
        }
      }
    }

    /** contentSizeCategoryChange(_:): Maaku's fonts go back to the defaults, and the node follows. */
    method ContentSizeCategoryChange()
      modifies this, node
      ensures documentStyle == WithDefaultFonts(old(documentStyle))
      ensures node.documentStyle == documentStyle && node.reloads == old(node.reloads) + 1
      ensures node.scrolledTo == old(node.scrolledTo) && presentedUrls == old(presentedUrls) && openedUrls == old(openedUrls)
      ensures node.delegate == old(node.delegate)
    {
      var style := documentStyle.maakuStyle;
      style := style.(fonts := DefaultFontStyle);
      SetDocumentStyle(documentStyle.(maakuStyle := style));
    }
  }
}
