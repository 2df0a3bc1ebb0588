# TexturedMaaku, modelled in Dafny

TexturedMaaku renders a parsed CommonMark document (Maaku's `Document` of
`Block`s) as a scrolling list of Texture (AsyncDisplayKit) display nodes.

This project models the core of TexturedMaaku:

- **The dispatcher.** `Block.displayNode(style:nested:)` picks the display
  node for each kind of block. Plugin blocks go to a registry of node-plugin
  maps.
- **Every node class.** Each class's setup is modelled: what it keeps and
  what it hands to its children. So is its layout spec: insets, stacks,
  sizes, and the "nested" rule, under which a nested node keeps only its
  left inset.
- **The style records.** The colours, insets and values a document is drawn
  with, and their defaults.
- **The string helpers.** These are the circle-header matcher
  `^(\d{1,2}|\w)\.\s` and the `+`/percent decoder for URL fragments.
- **The document node.** It provides the cells, scrolls to headings and
  footnotes, reloads, and forwards links.
- **The view controller.** It routes a tapped link to the web, to a
  footnote, to a heading or to the system.

How the pieces are built:

- **Values.** Display nodes are described by the datatype `Nodes.Element`
  (one variant per node class). Layout specs are the datatype
  `Nodes.Layout`.
- **Classes.** Nodes whose source builds state step by step are `class`es:
  lists, list items, quotes, footnotes, tables, table rows, headings, code
  blocks, paragraphs, the document node, the view controller, the wrapper
  cell and the plugin manager. Each constructor or setup loop is proved to
  produce exactly the `Element` the dispatcher's pure functions describe.
- **Parameters.** Foreign behaviour is passed in:
  - the regex character classes `\d`, `\w`, `\s`;
  - UTF-8 decoding of percent-escaped bytes;
  - the syntax highlighter;
  - the theme's rendering of inline content;
  - `canOpenURL`;
  - the screen scale.

Modules, in dependency order:

| file | module | models |
|---|---|---|
| foundation.dfy | Foundation | options, insets, sizes, URLs, colours, fonts, attributed text, prefix and case helpers, integer formatting and parsing |
| markdown.dfy | Markdown | the Maaku block, inline and plugin values, Maaku's `Style` |
| document_style.dfy | DocumentStyles | DocumentStyle.swift |
| string_extensions.dfy | StringExtensions | String+TexturedMaaku.swift |
| collection_extensions.dfy | CollectionExtensions | Collection+TexturedMaaku.swift |
| table_alignment_extensions.dfy | TableAlignmentExtensions | TableAlignment+TexturedMaaku.swift |
| heading_extensions.dfy | HeadingExtensions | Heading+TexturedMaaku.swift |
| nodes.dfy | Nodes | node and layout values, the Linkable/LinkDelegate link forwarding |
| node_plugin.dfy | NodePlugins | NodePlugin.swift |
| youtube_node.dfy | YoutubeNodes | YoutubeNode.swift |
| paragraph_node.dfy, heading_node.dfy, code_block_node.dfy, horizontal_rule_node.dfy, table_cell_node.dfy, table_row_node.dfy, table_node.dfy | one module each | the leaf node classes |
| wrapper_cell_node.dfy | WrapperCellNodes | WrapperCellNode.swift |
| dispatch.dfy | BlockDispatch | Block+TexturedMaaku.swift and the child building of the container nodes |
| list_node.dfy, list_item_node.dfy, block_quote_node.dfy, footnote_definition_node.dfy | one module each | the container node classes |
| node_layouts.dfy | NodeLayouts | the layout pass of every node kind together |
| document_node.dfy | DocumentNodes | DocumentNode.swift |
| document_view_controller.dfy | DocumentViewControllers | DocumentViewController.swift |

## Model

| member | source | states |
|---|---|---|
| DocumentStyles.DefaultDocumentValues | Sources/Core/DocumentStyle.swift:229-240 | default values: rule height times screen scale is 1, bullet "•", circle headers on, quote line 3, radius 15.5, heavy 14-point badge font, "xcode" theme, body code font |
| DocumentStyles.DefaultDocumentStyle | Sources/Core/DocumentStyle.swift:262-267 | the default style is made of the default colours, insets, Maaku style and values |
| DocumentStyles.DefaultInsetsByKind | Sources/Core/DocumentStyle.swift:183-193 | the document inset is zero; every other kind is (10, 24, 10, 24) |
| DocumentStyles.WithInset | Sources/Core/DocumentStyle.swift:36-65 | assigning one inset on a copy sets that kind and leaves the other eight unchanged |
| DocumentStyles.WithStyleInset | Sources/Core/DocumentStyle.swift:98-112 | narrowing one inset of a style copy keeps its colours, values and Maaku style |
| DocumentStyles.InsetsExtensionality | Sources/Core/DocumentStyle.swift:36-65 | two inset records that agree on all nine kinds are equal |
| DocumentStyles.WithInsetOwnValue | Sources/Core/DocumentStyle.swift:36-65 | writing back an inset's own value changes nothing |
| DocumentStyles.WithInsetLastWriteWins | Sources/Core/DocumentStyle.swift:36-65 | of two writes to one inset, the second wins |
| DocumentStyles.WithInsetCommutes | Sources/Core/DocumentStyle.swift:36-65 | writes to different insets commute |
| DocumentStyles.NestedInsets | Sources/Core/Nodes/ParagraphNode.swift:82-87 | the nested rule: top-level insets unchanged; nested keeps left only, top, bottom and right zero |
| DocumentStyles.NestedInsetsIdempotent | Sources/Core/Nodes/ListNode.swift:94-99 | applying the nested rule twice is applying it once |
| DocumentStyles.NestedInsetsOnlyLeftMatters | Sources/Core/Nodes/TableNode.swift:65-70 | nested insets depend only on the left inset |
| StringExtensions.HeaderRegexMatch | Sources/Core/Extensions/String+TexturedMaaku.swift:11-12 | the regular expression's first match: a prefix of the string that is a whole `(\d{1,2}\|\w)\.\s` token; no match means no prefix is such a token |
| StringExtensions.CharacterHeaderMatch | Sources/Core/Extensions/String+TexturedMaaku.swift:27-35 | a result is the regular expression's match and ends where a Swift Character begins; when the match ends inside a Character (before a combining mark, or between CR and LF) the range conversion fails and there is no header |
| StringExtensions.NoHeaderPrefix | Sources/Core/Extensions/String+TexturedMaaku.swift:11-12 | when none of the three alternatives applies at the start, no prefix is a header token |
| StringExtensions.MatchIsTheHeaderPrefix | Sources/Core/Extensions/String+TexturedMaaku.swift:11-12 | when '.' is not a digit, any header-token prefix is exactly the regular expression's match |
| StringExtensions.CharacterHeaderIsTheWholePrefix | Sources/Core/Extensions/String+TexturedMaaku.swift:27-35 | when '.' is not a digit and a prefix is a header token, characterHeaderMatch returns that prefix if a Character begins after it, and nothing otherwise |
| StringExtensions.MatchShape | Sources/Core/Extensions/String+TexturedMaaku.swift:12-34 | a match has 3 or 4 characters and ends with a dot and one whitespace |
| StringExtensions.ThreeDigitsNeverMatch | Sources/Core/Extensions/String+TexturedMaaku.swift:12 | a leading run of three digits never matches |
| StringExtensions.SingleDigitExample | Tests/Core/Extensions/StringExtensionSpec.swift:19-22 | "1. heading text" matches "1. " |
| StringExtensions.DoubleDigitExample | Tests/Core/Extensions/StringExtensionSpec.swift:24-27 | "22. heading text" matches "22. " |
| StringExtensions.KanjiExample | Tests/Core/Extensions/StringExtensionSpec.swift:29-32 | "雪. heading text" matches "雪. " |
| StringExtensions.NoSpaceAfterDotExample | Tests/Core/Extensions/StringExtensionSpec.swift:34-37 | without whitespace after the dot there is no match |
| StringExtensions.CombiningMarkExample | Sources/Core/Extensions/String+TexturedMaaku.swift:29-31 | "1. " followed by a combining mark is no header, since the mark joins the space into one Character |
| StringExtensions.CrLfExample | Sources/Core/Extensions/String+TexturedMaaku.swift:29-31 | "1.\r\n…" is no header, since "\r\n" is one Character |
| StringExtensions.ReplacePlus | Sources/Core/Extensions/String+TexturedMaaku.swift:39 | every '+' becomes a space and nothing else changes |
| StringExtensions.UrlSpaceDecoded | Sources/Core/Extensions/String+TexturedMaaku.swift:38-41 | '+' is replaced first; the result is the percent decoding of that string when it succeeds, and the '+'-replaced string when it fails; a string with no '+' or '%' is returned as it is |
| StringExtensions.PlainPrefixDecodes | Sources/Core/Extensions/String+TexturedMaaku.swift:40 | percent decoding passes a text without '%' through unchanged and goes on after it |
| StringExtensions.NoEscapeDecodesToItself | Sources/Core/Extensions/String+TexturedMaaku.swift:40 | a string without '%' decodes to itself |
| StringExtensions.AsciiEscapeDecodes | Sources/Core/Extensions/String+TexturedMaaku.swift:40 | an escape of an ASCII byte decodes to that character |
| StringExtensions.EscapedSpaceDecodes | Sources/Core/Extensions/String+TexturedMaaku.swift:40 | "%20" decodes to a space between plain texts |
| StringExtensions.ReplacePlusExample | Tests/Core/Extensions/StringExtensionSpec.swift:53-56 | "test%20test+test" has its '+' replaced |
| StringExtensions.PercentAndPlusExample | Tests/Core/Extensions/StringExtensionSpec.swift:53-56 | "test%20test+test" decodes to "test test test" |
| StringExtensions.SpacesDecoded | Sources/Core/Extensions/String+TexturedMaaku.swift:38-41 | reference reading of a fragment: every '+' and every "%20" is a space; the result never contains '+' and is no longer than the input |
| StringExtensions.SpaceEscapesDecode | Sources/Core/Extensions/String+TexturedMaaku.swift:39-40 | for any fragment whose every '%' starts "%20", percent-decoding the '+'-replaced fragment succeeds and gives the reference reading, whatever the UTF-8 decoder |
| StringExtensions.UrlSpaceDecodedSpaces | Sources/Core/Extensions/String+TexturedMaaku.swift:38-41 | for any such fragment, urlSpaceDecoded turns every '+' and every "%20" into a space |
| StringExtensions.SpaceEscapeStep | Sources/Core/Extensions/String+TexturedMaaku.swift:40 | plain text followed by "%20" decodes to that text and a space, and decoding continues after it |
| StringExtensions.NoPlusUnchanged | Sources/Core/Extensions/String+TexturedMaaku.swift:39 | a string without '+' is left unchanged by the '+' replacement |
| StringExtensions.TwoSpaceEscapes | Sources/Core/Extensions/String+TexturedMaaku.swift:38-41 | two "%20" escapes between plain texts both become spaces |
| StringExtensions.PercentSpacesExample | Tests/Core/Extensions/StringExtensionSpec.swift:43-46 | "test%20test%20test" decodes to "test test test" |
| StringExtensions.PlusSpacesExample | Tests/Core/Extensions/StringExtensionSpec.swift:48-51 | "test+test+test" decodes to "test test test" |
| CollectionExtensions.SafeAt | Sources/Core/Extensions/Collection+TexturedMaaku.swift:18-20 | a value exactly at valid indices, and then the element there |
| CollectionExtensions.SafeAtAgreesWithIndexing | Sources/Core/Extensions/Collection+TexturedMaaku.swift:18-20 | safe subscripting equals plain subscripting on every valid index and is nil on every other |
| CollectionExtensions.SafeAtExamples | Tests/Core/Extensions/CollectionExtensionSpec.swift:17-38 | in-range, past-the-end and negative indices of [1, 2, 3] |
| TableAlignmentExtensions.ParagraphAlignment | Sources/Core/Extensions/TableAlignment+TexturedMaaku.swift:15-28 | left exactly for .left and .none, center exactly for .center, right exactly for .right |
| TableAlignmentExtensions.ParagraphAlignmentIdentifiesOnlyLeftAndNone | Sources/Core/Extensions/TableAlignment+TexturedMaaku.swift:18-25 | two alignments look the same exactly when equal or both left/none |
| HeadingExtensions.StringValue | Sources/Core/Extensions/Heading+TexturedMaaku.swift:14-20 | the first inline's text when it is plain text, "" otherwise |
| HeadingExtensions.StringValueReadsFirstInlineOnly | Sources/Core/Extensions/Heading+TexturedMaaku.swift:15-16 | inlines after the first never change the value |
| HeadingExtensions.StringValueExamples | Tests/Core/Extensions/HeadingExtensionSpec.swift:18-32 | plain text, no inlines, and emphasised text |
| Nodes.DelegatingChild | Sources/Core/Nodes/ListItemNode.swift:58-61 | a child node delegates its links to its container exactly when it is Linkable |
| Nodes.ForwardLink | Sources/Core/Nodes/ListNode.swift:113-115 | a container's linkTapped reaches its own delegate with the same URL, and only when there is one |
| Nodes.TappedLinkAttribute | Sources/Core/Nodes/TableCellNode.swift:65-72 | a tapped URL value is forwarded unchanged; other values are ignored |
| Nodes.ShouldHighlightLinkAttribute | Sources/Core/Nodes/TableCellNode.swift:74-79 | highlighting is always allowed |
| Nodes.TapForwardsLikeLinkTapped | Sources/Core/Nodes/ParagraphNode.swift:123-130 | a tapped URL reaches the delegate exactly as a direct linkTapped would |
| NodePlugins.RegisteredKeys | Sources/Core/NodePlugin.swift:45-49 | after registration the names are the old ones plus those registered |
| NodePlugins.RegisteredLastWins | Sources/Core/NodePlugin.swift:45-49 | a name maps to the last map registered under it |
| NodePlugins.RegisteredKeepsOthers | Sources/Core/NodePlugin.swift:45-49 | names not registered keep their previous mapping, or lack of one |
| NodePlugins.RegisteredConcat | Sources/Core/NodePlugin.swift:45-49 | registering two lists in turn is registering their concatenation |
| NodePlugins.DisplayNodeFor | Sources/Core/NodePlugin.swift:59-65 | nil for an unregistered plugin name; otherwise exactly what the registered map builds |
| NodePlugins.LookupAfterRegistration | Sources/Core/NodePlugin.swift:45-65 | after registration a plugin is built by the last map registered under its name, with style and nested passed through |
| NodePlugins.NodePluginManager.RegisterMappings | Sources/Core/NodePlugin.swift:45-49 | the loop leaves the registry equal to the in-order registration of the maps |
| YoutubeNodes.YoutubeNodeInit | Sources/Plugins/YoutubeNode.swift:61-81 | a node exactly for YouTube plugins, with paragraph insets and the video id |
| YoutubeNodes.YoutubeMapIsInit | Sources/Plugins/YoutubeNode.swift:15-30 | the map is registered under the YouTube plugin name and builds exactly what the initializer builds |
| YoutubeNodes.PlayerSize | Sources/Plugins/YoutubeNode.swift:91-92 | player width is at most 600 and at most the width inside the insets, equal to one of them; height is 9/16 of it |
| YoutubeNodes.YoutubeLayout | Sources/Plugins/YoutubeNode.swift:83-102 | the player alone in a horizontal stack within the effective insets, sized from those insets |
| YoutubeNodes.WideScreenPlayer | Sources/Plugins/YoutubeNode.swift:91-92 | with 600 or more available the player is 600 by 337.5 |
| YoutubeNodes.NestedPlayerWidth | Sources/Plugins/YoutubeNode.swift:84-91 | a nested player gives up only the left inset |
| ParagraphNodes.ParagraphContentFor | Sources/Core/Nodes/ParagraphNode.swift:63-79 | image mode exactly when the only inline is an image with a URL; otherwise the paragraph's text |
| ParagraphNodes.ParagraphNodeInit | Sources/Core/Nodes/ParagraphNode.swift:49-79 | paragraph insets and the nested flag are kept, and the content is ParagraphContentFor: the lone linked image, or the paragraph text |
| ParagraphNodes.ImageFrame | Sources/Core/Nodes/ParagraphNode.swift:90-102 | 50×50 before the size is known; afterwards width min(image, available) and the image's aspect ratio |
| ParagraphNodes.ParagraphLayout | Sources/Core/Nodes/ParagraphNode.swift:81-121 | the effective insets; a text paragraph is its text node |
| ParagraphNodes.ImageLayoutShape | Sources/Core/Nodes/ParagraphNode.swift:89-117 | a spacer follows the image exactly when the image is narrower than the available width; a loaded image never exceeds it |
| ParagraphNodes.ParagraphNode.constructor | Sources/Core/Nodes/ParagraphNode.swift:49-79 | setup produces the dispatcher's paragraph node, with no image size yet |
| ParagraphNodes.ParagraphNode.SetImageSize | Sources/Core/Nodes/ParagraphNode.swift:26-33 | a new layout is requested only when the size actually changes |
| ParagraphNodes.ParagraphNode.DidLoadImage | Sources/Core/Nodes/ParagraphNode.swift:142-144 | a loaded image's size goes through the same observer |
| HeadingNodes.BadgeText | Sources/Core/Nodes/HeadingNode.swift:59-63 | the match cut before its first '.', a prefix containing no '.' |
| HeadingNodes.ExtractCircleHeader | Sources/Core/Nodes/HeadingNode.swift:54-74 | with circle headers on and a leading text match: the badge, and the first text shortened or removed; otherwise no badge and the inlines unchanged |
| HeadingNodes.ExtractionRoundTrip | Sources/Core/Nodes/HeadingNode.swift:65-71 | the match followed by what is left of the first text is the original text; later inlines are unchanged |
| HeadingNodes.NumberBadgeExample | Sources/Core/Nodes/HeadingNode.swift:57-73 | "1. Intro" gives badge "1" and the text "Intro" |
| HeadingNodes.CombiningMarkHeadingExample | Sources/Core/Nodes/HeadingNode.swift:57-59 | a heading "1. " followed by a combining mark gets no badge and keeps its text |
| HeadingNodes.HeadingNodeInit | Sources/Core/Nodes/HeadingNode.swift:39-80 | heading insets and nested flag; the badge and the rendered heading are those of ExtractCircleHeader, the heading's level kept |
| HeadingNodes.HeadingLayout | Sources/Core/Nodes/HeadingNode.swift:82-100 | badge and text 14 apart when there is a badge, the text alone otherwise, within the effective insets |
| HeadingNodes.HeadingNode.constructor | Sources/Core/Nodes/HeadingNode.swift:53-80 | the in-place edits of the inlines produce exactly the extraction |
| CodeBlockNodes.StripTrailingNewline | Sources/Core/Nodes/CodeBlockNode.swift:62-67 | one trailing newline is removed when present (stripped text plus "\n" is the code); otherwise the code is unchanged |
| CodeBlockNodes.StripExamples | Sources/Core/Nodes/CodeBlockNode.swift:65-67 | "a\n\n" becomes "a\n"; "a" and "a\r\n" stay |
| CodeBlockNodes.Highlighted | Sources/Core/Nodes/CodeBlockNode.swift:76-83 | a non-empty language hint is tried first, then unhinted highlighting |
| CodeBlockNodes.CodeText | Sources/Core/Nodes/CodeBlockNode.swift:73-98 | no or empty highlighting falls back to the theme's rendering; otherwise the highlighter's characters and alignments, with the code font over all of it |
| CodeBlockNodes.CodeBlockNodeInit | Sources/Core/Nodes/CodeBlockNode.swift:44-103 | code-block insets, nested flag, the text of the stripped code, the background colour |
| CodeBlockNodes.NextTextWidth | Sources/Core/Nodes/CodeBlockNode.swift:114-116 | width minus 20 only when 0 < width < greatestFiniteMagnitude; otherwise the earlier width stays |
| CodeBlockNodes.UnboundedWidthKeepsTextWidth | Sources/Core/Nodes/CodeBlockNode.swift:114 | an unbounded or zero width leaves the text width alone |
| CodeBlockNodes.CodeBlockLayout | Sources/Core/Nodes/CodeBlockNode.swift:105-122 | the text inside 10-point insets on its background, within the effective insets |
| CodeBlockNodes.CodeBlockNode.constructor | Sources/Core/Nodes/CodeBlockNode.swift:44-67 | the in-place strip produces the dispatcher's code-block node |
| CodeBlockNodes.CodeBlockNode.LayoutSpecThatFits | Sources/Core/Nodes/CodeBlockNode.swift:105-122 | the text width is updated as NextTextWidth says, then laid out |
| HorizontalRuleNodes.HorizontalRuleNodeInit | Sources/Core/Nodes/HorizontalRuleNode.swift:31-47 | rule insets and a spec holding exactly one bar of the rule height and colour |
| HorizontalRuleNodes.HorizontalRuleLayout | Sources/Core/Nodes/HorizontalRuleNode.swift:49-59 | the spec within the effective insets |
| HorizontalRuleNodes.RuleLayoutIgnoresSize | Sources/Core/Nodes/HorizontalRuleNode.swift:49-59 | the layout does not depend on the constrained size |
| TableCellNodes.CellTheme | Sources/Core/Nodes/TableCellNode.swift:46-49 | the strong theme in the header row, the theme unchanged in body rows |
| TableCellNodes.TableCellNodeInit | Sources/Core/Nodes/TableCellNode.swift:31-36 | the cell, its theme, the paragraph alignment of the alignment passed in, and its width share |
| TableCellNodes.SetupCellText | Sources/Core/Nodes/TableCellNode.swift:45-58 | the rendered text keeps its characters and fonts and gets the column's alignment over the entire range |
| TableCellNodes.TableCellLayout | Sources/Core/Nodes/TableCellNode.swift:61-63 | the text node, wrapped |
| TableRowNodes.ColumnAlignment | Sources/Core/Nodes/TableRowNode.swift:46 | alignments[c] in range, .none past the end |
| TableRowNodes.CellAt | Sources/Core/Nodes/TableRowNode.swift:46-49 | column c's cell node holds cell c, in the row's theme and with the paragraph alignment of column c (left when the table gives none); width fraction times the cell count is 1; not delegated |
| TableRowNodes.RowCells | Sources/Core/Nodes/TableRowNode.swift:44-51 | one cell node per cell, in column order |
| TableRowNodes.TableRowNodeInit | Sources/Core/Nodes/TableRowNode.swift:31-36 | a row node holding the row's cell nodes |
| TableRowNodes.TableRowLayout | Sources/Core/Nodes/TableRowNode.swift:53-61 | the cells side by side below a 5-point top inset |
| TableRowNodes.TableRowNode.constructor | Sources/Core/Nodes/TableRowNode.swift:44-51 | the enumerating loop appends exactly RowCells |
| TableNodes.TableRows | Sources/Core/Nodes/TableNode.swift:50-62 | header row, separator, then the body rows in order: rows + 2 entries, all built from the same table and style |
| TableNodes.TableCellsFollowColumnAlignment | Sources/Core/Nodes/TableNode.swift:50-62 | in the header and every body row, cell c has column c's paragraph alignment (left past the table's alignments) and the row's theme, strong in the header |
| TableNodes.TableRowsAreNotDelegated | Sources/Core/Nodes/TableNode.swift:50-62 | no row is given the table as its link delegate |
| TableNodes.TableNodeInit | Sources/Core/Nodes/TableNode.swift:36-43 | table insets, nested flag, TableRows |
| TableNodes.TableLayout | Sources/Core/Nodes/TableNode.swift:64-81 | the rows stacked with no spacing within the effective insets |
| TableNodes.TableNode.constructor | Sources/Core/Nodes/TableNode.swift:50-62 | the appends produce exactly TableRows |
| WrapperCellNodes.WrapperCellNode.constructor | Sources/Core/Nodes/WrapperCellNode.swift:38-44 | the wrapped node is fixed at init |
| WrapperCellNodes.WrapperCellNode.LinkDelegate | Sources/Core/Nodes/WrapperCellNode.swift:19-22 | the wrapped node's delegate when it is Linkable, nil otherwise |
| WrapperCellNodes.WrapperCellNode.SetLinkDelegate | Sources/Core/Nodes/WrapperCellNode.swift:23-27 | written through when Linkable, so reading back gives the value; no effect otherwise |
| WrapperCellNodes.WrapperCellNode.LayoutSpecThatFits | Sources/Core/Nodes/WrapperCellNode.swift:46-48 | the layout just wraps the node |
| BlockDispatch.ChildStyle | Sources/Core/Nodes/ListItemNode.swift:47-56 | a list passes its style unchanged; a list item zeroes exactly the paragraph, quote or heading inset of a child of that kind and passes any other child the style unchanged; a quote narrows its quote inset to the left part; a footnote zeroes the paragraph inset; colours, values and theme always kept |
| BlockDispatch.ChildStyleChangesOneInset | Sources/Core/Nodes/FootnoteDefinitionNode.swift:62-63 | every inset kind other than the one the container narrows for that child is the container's own |
| BlockDispatch.QuoteChildInset | Sources/Core/Nodes/BlockQuoteNode.swift:61-63 | a quote's children see the quote inset narrowed by the nested rule |
| BlockDispatch.DisplayNode | Sources/Core/Extensions/Block+TexturedMaaku.swift:22-48 | every non-plugin block gets a node of its own kind; a plugin block gets exactly what the registry builds |
| BlockDispatch.ChildLayout | Sources/Core/Nodes/ListItemNode.swift:58-76 | the child's nested display node with the child style, delegating when Linkable; a text node in the container's theme when there is none |
| BlockDispatch.Children | Sources/Core/Nodes/BlockQuoteNode.swift:65-82 | one child per child block, in order |
| BlockDispatch.ListRow | Sources/Core/Nodes/ListNode.swift:80-89 | the marker, 30 wide, beside the item's node |
| BlockDispatch.ListRows | Sources/Core/Nodes/ListNode.swift:59-90 | one row per item, in order |
| BlockDispatch.OrderedMarkersCount | Sources/Core/Nodes/ListNode.swift:60 | the n-th marker of an ordered list is the number n followed by "." |
| BlockDispatch.OrderedMarkersDistinct | Sources/Core/Nodes/ListNode.swift:60 | two items of an ordered list never share a marker |
| BlockDispatch.UnorderedMarkersAreBullets | Sources/Core/Nodes/ListNode.swift:60 | every unordered marker is the style's bullet |
| BlockDispatch.ChildDelegation | Sources/Core/Nodes/BlockQuoteNode.swift:66-69 | a child display node is the dispatcher's nested node, delegating exactly when Linkable |
| BlockDispatch.ListItemParagraphHasNoInsets | Sources/Core/Nodes/ListItemNode.swift:50-51 | a paragraph in a list item is laid out with zero insets |
| BlockDispatch.QuoteInQuoteKeepsLeftInset | Sources/Core/Nodes/BlockQuoteNode.swift:61-66 | a quote inside a quote keeps only the outer left inset |
| BlockDispatch.FootnoteNeverNested | Sources/Core/Extensions/Block+TexturedMaaku.swift:39-40 | a footnote definition is built non-nested, with the list insets, even inside a container |
| BlockDispatch.UnregisteredPluginFallsBackToText | Sources/Core/Nodes/ListNode.swift:70-78 | a child plugin block without a registered map becomes a text node in the container's theme |
| BlockDispatch.RegisteredYoutubeRendersPlayer | Sources/Core/Extensions/Block+TexturedMaaku.swift:43-44 | with the YouTube map registered, a YouTube block becomes its player node |
| BlockDispatch.RegisteringYoutubeMap | Sources/Core/NodePlugin.swift:45-49 | registering the YouTube map puts it under its name |
| BlockDispatch.CellNode | Sources/Core/Extensions/Block+TexturedMaaku.swift:57-63 | nil exactly when there is no display node; otherwise a new wrapper around it, with no delegate yet |
| ListNodes.ListLayout | Sources/Core/Nodes/ListNode.swift:93-111 | the rows stacked 5 apart within the effective insets |
| ListNodes.ListNode.constructor | Sources/Core/Nodes/ListNode.swift:36-91 | the enumerating loop builds exactly the dispatcher's list rows |
| ListNodes.ListNode.LinkTapped | Sources/Core/Nodes/ListNode.swift:113-124 | the URL goes to the list's own delegate |
| ListItemNodes.ListItemLayout | Sources/Core/Nodes/ListItemNode.swift:80-89 | the children stacked 5 apart, with no insets of its own |
| ListItemNodes.ListItemNode.constructor | Sources/Core/Nodes/ListItemNode.swift:33-78 | the per-item style edits and appends build exactly the dispatcher's children |
| ListItemNodes.ListItemNode.LinkTapped | Sources/Core/Nodes/ListItemNode.swift:91-102 | the URL goes to the item's own delegate |
| BlockQuoteNodes.BlockQuoteLayout | Sources/Core/Nodes/BlockQuoteNode.swift:85-109 | the line beside the children, within the effective insets |
| BlockQuoteNodes.BlockQuoteNode.constructor | Sources/Core/Nodes/BlockQuoteNode.swift:42-83 | line width and colour from the style; the loop builds exactly the dispatcher's children |
| BlockQuoteNodes.BlockQuoteNode.LinkTapped | Sources/Core/Nodes/BlockQuoteNode.swift:111-129 | the URL goes to the quote's own delegate |
| FootnoteDefinitionNodes.FootnoteLayout | Sources/Core/Nodes/FootnoteDefinitionNode.swift:82-105 | the number beside the children; when nested, top, bottom and right are zeroed |
| FootnoteDefinitionNodes.FootnoteDefinitionNode.constructor | Sources/Core/Nodes/FootnoteDefinitionNode.swift:39-80 | list insets, the caption "n.", and a loop that builds exactly the dispatcher's children |
| FootnoteDefinitionNodes.FootnoteDefinitionNode.LinkTapped | Sources/Core/Nodes/FootnoteDefinitionNode.swift:107-118 | the URL goes to the footnote's own delegate |
| NodeLayouts.NestedInsetRule | Sources/Core/Nodes/CodeBlockNode.swift:106-121 | every node with style insets lays out within them at the top level and within (0, left, 0, 0) when nested |
| NodeLayouts.NodesWithoutStyleInsets | Sources/Core/Nodes/TableRowNode.swift:53-61 | a list item adds no insets, a table row only its 5-point top gap, a table cell none |
| DocumentNodes.FirstIndex | Sources/Core/Nodes/DocumentNode.swift:133-139 | the first index whose block passes the test: it passes and none before does; none exactly when no block passes |
| DocumentNodes.FirstIndexAgrees | Sources/Core/Nodes/DocumentNode.swift:149-155 | two tests that agree on every block find the same index |
| DocumentNodes.LowercasedIdempotent | Sources/Core/Nodes/DocumentNode.swift:150 | lower-casing twice is lower-casing once |
| DocumentNodes.HeadingSearchIgnoresCase | Sources/Core/Nodes/DocumentNode.swift:150 | a title finds the same heading as its lower-cased form |
| DocumentNodes.FootnoteNumberRoundTrip | Sources/Core/Nodes/DocumentNode.swift:129-139 | a footnote's printed number parses back and finds the first definition with that number |
| DocumentNodes.FootnoteNumber | Sources/Core/Nodes/DocumentNode.swift:129-131 | nothing without a host; otherwise the host read as an integer |
| DocumentNodes.FootnoteTarget | Sources/Core/Nodes/DocumentNode.swift:129-139 | no target without a number; otherwise the first footnote definition with that number |
| DocumentNodes.DocumentNode.constructor | Sources/Core/Nodes/DocumentNode.swift:67-77 | document and style kept, background from the style, no delegate, nothing scrolled or reloaded |
| DocumentNodes.DocumentNode.Reload | Sources/Core/Nodes/DocumentNode.swift:99-101 | one more reload, nothing else changes |
| DocumentNodes.DocumentNode.SetDocumentStyle | Sources/Core/Nodes/DocumentNode.swift:56-60 | setting the style always reloads |
| DocumentNodes.DocumentNode.LayoutSpecThatFits | Sources/Core/Nodes/DocumentNode.swift:120-122 | the collection within the document inset |
| DocumentNodes.DocumentNode.ScrollToFootnote | Sources/Core/Nodes/DocumentNode.swift:128-140 | scrolls to FootnoteTarget when there is one; otherwise nothing happens |
| DocumentNodes.DocumentNode.ScrollToHeading | Sources/Core/Nodes/DocumentNode.swift:148-158 | true exactly when some heading matches ignoring case, scrolling to the first; false with no scroll otherwise |
| DocumentNodes.DocumentNode.NumberOfItems | Sources/Core/Nodes/DocumentNode.swift:163-165 | one item per top-level block |
| DocumentNodes.DocumentNode.NodeForItemAt | Sources/Core/Nodes/DocumentNode.swift:167-182 | the empty cell when out of range or without a display node; otherwise the block's cell, delegating to the document node exactly when Linkable |
| DocumentNodes.DocumentNode.LinkTapped | Sources/Core/Nodes/DocumentNode.swift:203-205 | the URL goes to the delegate |
| DocumentViewControllers.HeadingTitle | Sources/Core/ViewControllers/DocumentViewController.swift:61 | a title exactly for "#…" URLs with a fragment: the decoded fragment |
| DocumentViewControllers.LinkRoute | Sources/Core/ViewControllers/DocumentViewController.swift:53-70 | http schemes go to the web; then footnote schemes; then a "#" link to an existing heading; then opening when possible; each only when no earlier branch applies |
| DocumentViewControllers.MissingSchemeIsNeitherWebNorFootnote | Sources/Core/ViewControllers/DocumentViewController.swift:54 | a URL without a scheme is neither a web nor a footnote link |
| DocumentViewControllers.HttpsIsWeb | Sources/Core/ViewControllers/DocumentViewController.swift:56 | "https" links are web links |
| DocumentViewControllers.MissingHeadingFallsThrough | Sources/Core/ViewControllers/DocumentViewController.swift:61-63 | a "#" link to a missing heading falls through to opening, when possible |
| DocumentViewControllers.WithDefaultFonts | Sources/Core/ViewControllers/DocumentViewController.swift:80-84 | only the Maaku fonts change, to the defaults |
| DocumentViewControllers.WithDefaultFontsIdempotent | Sources/Core/ViewControllers/DocumentViewController.swift:80-84 | resetting the fonts twice is resetting once |
| DocumentViewControllers.DocumentViewController.constructor | Sources/Core/ViewControllers/DocumentViewController.swift:31-35 | a new node for the document with the style, and the controller as its delegate |
| DocumentViewControllers.DocumentViewController.SetDocumentStyle | Sources/Core/ViewControllers/DocumentViewController.swift:18-22 | the same style is pushed to the node, which reloads |
| DocumentViewControllers.DocumentViewController.Reload | Sources/Core/ViewControllers/DocumentViewController.swift:73-75 | the node reloads once; its style, scroll history and delegate are unchanged |
| DocumentViewControllers.DocumentViewController.LinkTapped | Sources/Core/ViewControllers/DocumentViewController.swift:53-70 | presents, scrolls or opens exactly as LinkRoute says; the styles, reload count and the node's delegate are unchanged |
| DocumentViewControllers.DocumentViewController.ContentSizeCategoryChange | Sources/Core/ViewControllers/DocumentViewController.swift:80-84 | the style gets default fonts and the node follows with one reload; scroll history, presented and opened URLs and the node's delegate are unchanged |

## Left out

- UI drawing and layout resolution are not modelled. Layout specs are values (`Nodes.Layout`) and no frames are computed. The circle badge's drawing (CircleHeaderNode.swift) is not part of this model; only its text is.
- Maaku's rendering of blocks and inlines into attributed text is not modelled. It is recorded as `MaakuText`/`CellText` values, or passed in as a function. Fonts and colours are tokens.
- The regex classes `\d`, `\w` and `\s` are Unicode-aware in the source. Here they are parameters (`CharClasses`); the examples state the class facts they need.
- Percent decoding works on characters. Escapes of bytes below 0x80 are decoded here. A run of escapes of bytes 0x80 and above is handed to a UTF-8 decoder parameter, which may fail. UTF-8 validation itself is not modelled.
- Foundation.Lowercased: lower-cases ASCII letters only, because Unicode case mapping is not modelled.
- Foundation.ParseInteger: reads an optional '-' and decimal digits only. NumberFormatter also accepts grouping, decimals and locale forms.
- Highlightr is a parameter (`Highlighter`), present or absent. This stands for the `TEXTURED_MAAKU_SYNTAX_COLORS` build flag and the highlighter's own construction. The two values that exist only under that flag, `codeHighlighterTheme` and `codeFont` (DocumentStyle.swift:88-94, 217-223, 236-239), are always present in `DocumentStyles.DocumentValues`.
- The rule height `1 / UIScreen.main.scale` takes the scale as a parameter.
- CGFloat arithmetic is exact `real` arithmetic. Rounding and IEEE behaviour are not modelled.
- Weak references, NotificationCenter observers, the main queue and concurrency are not modelled. Delegates are optional references (`DelegateRef`). The content-size notification is the `ContentSizeCategoryChange` method, called directly.
- Network image loading, the YouTube player view, Safari presentation, `UIApplication.open` and animated scrolling are recorded outcomes: `presentedUrls`, `openedUrls`, `scrolledTo` and `reloads`. `canOpenURL` is a parameter.
- Linkable.swift holds only protocol declarations. Linkable is a predicate on node kinds (`Nodes.Linkable`). A delegate assignment is recorded on the child value (`delegatedToParent`), or on a `DisplayNodeObject` for cells.
- Protocol-typed style records (DocumentColors, DocumentInsets, DocumentValues, DocumentStyle) are value datatypes, one conforming type each: the defaults.
- DocumentNode.swift calls `style.color(.background)` and `documentStyle.insets(.document)`, which DocumentStyle.swift does not define. The model follows the stored properties `colors.background` and `insets.document` instead.
- The builder API used in Tests/Core/DocumentStyleSpec.swift does not exist in DocumentStyle.swift and is not modelled; only the default values are.
- Character counts: Swift counts and compares grapheme clusters (Characters), and the model counts and compares `char`s. Where the two can differ, the model follows Swift in two places and not in two others. `hasSuffix("\n")` does not see a final "\r\n" (`CodeBlockNodes.EndsWithNewline`), and a header match must end where a Character begins (`StringExtensions.CharacterHeaderMatch`). With that boundary, cutting the heading text after the match's `char`s, as `HeadingNodes.ExtractCircleHeader` does, lands where HeadingNode.swift:65-67 lands by counting Characters. The two places the model does not follow are the next two lines.
- HeadingNodes.BadgeText: cuts at the first '.' `char`. HeadingNode.swift:61 looks for the first "." Character. A single word character of Grapheme_Cluster_Break Prepend (such as U+0D4E) joins the dot after it into one Character, so there Swift finds no "." and keeps the whole match as the badge, while the model keeps only that letter.
- DocumentNodes.HeadingMatches: compares titles `char` by `char`. The String `==` in DocumentNode.swift:150 treats canonically equivalent text as equal, so a precomposed "é" matches "e" followed by U+0301 there and not here.
- The demo application and the vendored Maaku sources are not part of this model. The YouTube plugin is only a plugin value with a name and an optional video id.
- Table rows and cells never get a link delegate in the source, so links tapped in tables reach no one. The model keeps that behaviour (`TableRowsAreNotDelegated`, `CellAt`).
- Flex properties (grow, shrink), justify and align settings, list-marker fonts, and the paragraph font and colour of a footnote's "n." label (FootnoteDefinitionNode.swift:54-60) are not recorded in the layout values.
