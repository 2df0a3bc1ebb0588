/**
 * The parsed document the renderers consume (Maaku's block and inline tree)
 * and Maaku's text theme, kept as opaque as the renderers treat them.
 */
module Markdown {
  import opened Foundation

  /** Inline content of paragraphs, headings and table cells. */
  datatype Inline =
    | Text(text: string)
    | Emphasis(items: seq<Inline>)
    | Strong(items: seq<Inline>)
    | InlineCode(code: string)
    | Link(items: seq<Inline>, destination: Option<Url>)
    | Image(title: string, url: Option<Url>)
    | SoftBreak
    | LineBreak

  /** Column alignment of a table (GitHub Flavored Markdown tables extension). */
  datatype TableAlignment = NoAlignment | Left | Center | Right

  datatype TableCell = TableCell(items: seq<Inline>)

  /** A table line: the header line or a body row. */
  datatype TableLine = TableHeader(cells: seq<TableCell>) | TableRow(cells: seq<TableCell>)

  /** The name under which a plugin type is registered. */
  type PluginName = string

  /** YoutubePlugin.pluginName */
  const YoutubePluginName: PluginName := "youtubevideo"

  /**
   * A plugin block's payload: a YouTube plugin carrying the id of its video, when the link had one, or a
   * plugin of another type, known here only by its type's name.
   */
  datatype Plugin = YoutubePlugin(videoId: Option<string>) | OtherPlugin(typeName: PluginName, payload: int) {
    /** type(of: plugin).pluginName */
    function TypePluginName(): PluginName {
      match this
      case YoutubePlugin(_) => YoutubePluginName
      case OtherPlugin(name, _) => name
    }
  }

  /** The block variants of a document. */
  datatype Block =
    | Paragraph(inlines: seq<Inline>)
    | Heading(level: nat, inlines: seq<Inline>)
    | UnorderedList(items: seq<Block>)
    | OrderedList(items: seq<Block>)
    | ListItem(items: seq<Block>)
    | BlockQuote(items: seq<Block>)
    | Table(header: TableLine, rows: seq<TableLine>, alignments: seq<TableAlignment>)
    | CodeBlock(code: string, info: Option<string>)
    | HorizontalRule
    | FootnoteDefinition(number: int, items: seq<Block>)
    | PluginBlock(plugin: Plugin)

  /** Maaku's font set: the default one or one supplied by the host. */
  datatype FontStyle = DefaultFontStyle | CustomFontStyle(id: nat)

  /** Maaku's colour set: the default one or one supplied by the host. */
  datatype ColorStyle = DefaultColorStyle | CustomColorStyle(id: nat)

  /**
   * Maaku's text theme (`Style`), which turns inline trees into attributed
   * text. `strong` records that its `strong()` variant was taken.
   */
  datatype MaakuStyle = MaakuStyle(fonts: FontStyle, colors: ColorStyle, strong: bool)

  /** DefaultStyle() */
  const DefaultMaakuStyle := MaakuStyle(DefaultFontStyle, DefaultColorStyle, false)

  /** Style.strong(): the bold variant of a theme. */
  function StrongStyle(s: MaakuStyle): MaakuStyle {
    s.(strong := true)
  }
}
