/**
 * NodePlugin: the registry that maps a plugin type's name to the factory
 * building display nodes for plugin blocks of that type.
 */
module NodePlugins {
  import opened Foundation
  import opened Markdown
  import opened DocumentStyles
  import opened Nodes

  /** NodePluginMap: a plugin name and the factory for its nodes, which may decline (nil). */
  datatype NodePluginMap = NodePluginMap(
    pluginName: PluginName,
    mapPlugin: (Plugin, DocumentStyle, bool) -> Option<Element>)

  type Registry = map<PluginName, NodePluginMap>

  /** The names the maps in `ms` are registered under. */
  function NamesOf(ms: seq<NodePluginMap>): set<PluginName> {
    set i | 0 <= i < |ms| :: ms[i].pluginName
  }

  /**
   * The registry after registering `ms`, in order, over `m`: each map is
   * stored under its name, replacing what was there. Nothing is removed.
   */
  function Registered(m: Registry, ms: seq<NodePluginMap>): Registry
    decreases |ms|
  {
    if ms == [] then m
    else Registered(m, ms[..|ms| - 1])[ms[|ms| - 1].pluginName := ms[|ms| - 1]]
  }

  /** The registered names are the previous ones and those of `ms`: the set only grows. */
  lemma {:induction false} RegisteredKeys(m: Registry, ms: seq<NodePluginMap>)
    ensures Registered(m, ms).Keys == m.Keys + NamesOf(ms)
    decreases |ms|
  {
    if ms != [] {
      var init := ms[..|ms| - 1];
      assert NamesOf(ms) == NamesOf(init) + {ms[|ms| - 1].pluginName} by {
        assert forall i :: 0 <= i < |init| ==> init[i] == ms[i];
      }
      RegisteredKeys(m, init);
    }
  }

  /** A name keeps the map of the last element of `ms` registered under it. */
  lemma {:induction false} RegisteredLastWins(m: Registry, ms: seq<NodePluginMap>, i: nat)
    requires i < |ms|
    requires forall j :: i < j < |ms| ==> ms[j].pluginName != ms[i].pluginName
    ensures ms[i].pluginName in Registered(m, ms) && Registered(m, ms)[ms[i].pluginName] == ms[i]
    decreases |ms|
  {
    var init := ms[..|ms| - 1];
    if i < |ms| - 1 {
      assert init[i] == ms[i];
      assert forall j :: i < j < |init| ==> init[j] == ms[j];
      RegisteredLastWins(m, init, i);
    }
  }

  /** A name no element of `ms` has keeps its previous mapping, or lack of one. */
  lemma {:induction false} RegisteredKeepsOthers(m: Registry, ms: seq<NodePluginMap>, name: PluginName)
    requires name !in NamesOf(ms)
    ensures name in Registered(m, ms) <==> name in m
    ensures name in m ==> Registered(m, ms)[name] == m[name]
    decreases |ms|
  {
    if ms != [] {
      var init := ms[..|ms| - 1];
      assert name !in NamesOf(init) by {
        assert forall i :: 0 <= i < |init| ==> init[i] == ms[i];
      }
      assert ms[|ms| - 1].pluginName != name;
      RegisteredKeepsOthers(m, init, name);
    }
  }

  /** Registering `a` and then `b` is registering `a + b` at once. */
  lemma {:induction false} RegisteredConcat(m: Registry, a: seq<NodePluginMap>, b: seq<NodePluginMap>)
    ensures Registered(Registered(m, a), b) == Registered(m, a + b)
    decreases |b|
  {
    if b == [] {
      assert a + b == a;
    } else {
      var ab := a + b;
      var last := b[|b| - 1];
      assert ab[..|ab| - 1] == a + b[..|b| - 1];
      assert ab[|ab| - 1] == last;
      RegisteredConcat(m, a, b[..|b| - 1]);
      calc {
        Registered(Registered(m, a), b);
        Registered(Registered(m, a), b[..|b| - 1])[last.pluginName := last];
        Registered(m, a + b[..|b| - 1])[last.pluginName := last];
        Registered(m, ab);
      }
    }
  }

  /** NodePluginManager.displayNode(for:style:nested:) */
  function DisplayNodeFor(mappings: Registry, plugin: Plugin, style: DocumentStyle, nested: bool): (r: Option<Element>)
    ensures plugin.TypePluginName() !in mappings ==> r == None
    ensures plugin.TypePluginName() in mappings ==>
      r == mappings[plugin.TypePluginName()].mapPlugin(plugin, style, nested)
  {
    var name := plugin.TypePluginName();
    if name in mappings then mappings[name].mapPlugin(plugin, style, nested) else None
  }

  /**
   * After registration, a plugin whose type name was registered is built by
   * the last map registered under that name, with the style and the nested
   * flag passed through.
   */
  lemma LookupAfterRegistration(m: Registry, ms: seq<NodePluginMap>, i: nat, plugin: Plugin, style: DocumentStyle, nested: bool)
    requires i < |ms| && ms[i].pluginName == plugin.TypePluginName()
    requires forall j :: i < j < |ms| ==> ms[j].pluginName != ms[i].pluginName
    ensures DisplayNodeFor(Registered(m, ms), plugin, style, nested) == ms[i].mapPlugin(plugin, style, nested)
  {
    RegisteredLastWins(m, ms, i);
  }

  /** The registry, held in the source as static state. */
  class NodePluginManager {
    var mappings: Registry

    constructor()
      ensures mappings == map[]
    {
      mappings := map[];
    }

    /** registerMappings(_:): stores each map under its name, in order. */
    method RegisterMappings(ms: seq<NodePluginMap>)
      modifies this
      ensures mappings == Registered(old(mappings), ms)
    {
      var i := 0;
      while i < |ms|
        invariant 0 <= i <= |ms|
        invariant mappings == Registered(old(mappings), ms[..i])
      {
        assert ms[..i + 1][..i] == ms[..i];
        mappings := mappings[ms[i].pluginName := ms[i]];
        i := i + 1;
      }
      assert ms[..i] == ms;
    }

    /** The lookup against the current registry. */
    function DisplayNode(plugin: Plugin, style: DocumentStyle, nested: bool): Option<Element>
      reads this
    {
      DisplayNodeFor(mappings, plugin, style, nested)
    }
  }
}
