/**
 * YoutubeNode: the node plugin for YouTube plugin blocks, showing a player
 * at most 600 points wide in the 16:9 aspect ratio.
 */
module YoutubeNodes {
  import opened Foundation
  import opened Markdown
  import opened DocumentStyles
  import opened Nodes
  import opened NodePlugins

  const PlayerMaxWidth: real := 600.0

  /** Height over width of the player: 9/16. */
  const PlayerAspect: real := 0.5625

  /**
   * YoutubeNode.init?(plugin:style:nested:): fails unless the plugin is a
   * YouTube plugin; the node keeps the paragraph insets and the video id.
   */
  function YoutubeNodeInit(plugin: Plugin, style: DocumentStyle, nested: bool): (r: Option<Element>)
    ensures r.Some? <==> plugin.YoutubePlugin?
    ensures r.Some? ==> r.value == YoutubeNode(style.insets.paragraph, nested, plugin.videoId)
  {
    if plugin.YoutubePlugin? then Some(YoutubeNode(style.insets.paragraph, nested, plugin.videoId)) else None
  }

  /** YoutubeNodePluginMap: registered under the YouTube plugin's own name. */
  const YoutubeNodePluginMap: NodePluginMap :=
    NodePluginMap(YoutubePluginName, (plugin, style, nested) => YoutubeNodeInit(plugin, style, nested))

  /** The map builds exactly what the failable initializer builds. */
  lemma YoutubeMapIsInit(plugin: Plugin, style: DocumentStyle, nested: bool)
    ensures YoutubeNodePluginMap.pluginName == YoutubePluginName
    ensures YoutubeNodePluginMap.mapPlugin(plugin, style, nested) == YoutubeNodeInit(plugin, style, nested)
  {
  }

  function Min(a: real, b: real): real {
    if a <= b then a else b
  }

  /**
   * The player's preferred size: the width available inside the effective
   * insets, capped at 600, and 9/16 of that as height.
   */
  function PlayerSize(maxWidth: real, insets: Insets): (s: Size)
    ensures s.width <= PlayerMaxWidth && s.width <= maxWidth - insets.left - insets.right
    ensures s.width == PlayerMaxWidth || s.width == maxWidth - insets.left - insets.right
    ensures 16.0 * s.height == 9.0 * s.width
  {
    var width := Min(maxWidth - insets.left - insets.right, PlayerMaxWidth);
    Size(width, width * PlayerAspect)
  }

  /** layoutSpecThatFits: the player, centred, inside the effective insets. */
  function YoutubeLayout(e: Element, maxWidth: real): (l: Layout)
    requires e.YoutubeNode?
    ensures l == Inset(NestedInsets(e.insets, e.nested),
      Stack(Horizontal, 0.0, [Node(PlayerNode(e.videoId, PlayerSize(maxWidth, NestedInsets(e.insets, e.nested))))]))
  {
    var pluginInsets := NestedInsets(e.insets, e.nested);
    Inset(pluginInsets, Stack(Horizontal, 0.0, [Node(PlayerNode(e.videoId, PlayerSize(maxWidth, pluginInsets)))]))
  }

  /** On a wide screen the player is 600 by 337.5. */
  lemma WideScreenPlayer(maxWidth: real, insets: Insets)
    requires maxWidth - insets.left - insets.right >= PlayerMaxWidth
    ensures PlayerSize(maxWidth, insets) == Size(600.0, 337.5)
  {
  }

  /** A nested player gives up only the left inset of the width. */
  lemma NestedPlayerWidth(maxWidth: real, insets: Insets)
    requires maxWidth - insets.left <= PlayerMaxWidth
    ensures PlayerSize(maxWidth, NestedInsets(insets, true)).width == maxWidth - insets.left
  {
  }
}
