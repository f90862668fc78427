/** Installing a bundle of facets into six stores, rolling a failed install back, and
    uninstalling. */
module Bundles {
  import opened Options

  datatype Hook = Hook(event: string, body: string)
  datatype Connector = Connector(name: string, kind: string, auth: string)
  datatype Graph = Graph(id: string, data: string)

  /** Everything an install writes to. A server is known by the address it can be
      unregistered under, which is empty if its configuration names none. */
  datatype Stores = Stores(
    agents: map<string, string>,
    skills: map<string, string>,
    hooks: seq<Hook>,
    connectors: map<string, Connector>,
    graphs: map<string, string>,
    servers: seq<string>)

  /** One facet of a manifest, with the outcome of what lies outside: `content` is empty
      if the skill file cannot be read, `auth` is None if a credential does not resolve,
      `accepted` is the registrar's answer. */
  datatype Facet =
    | AgentFacet(id: string, package: string)
    | SkillFacet(name: string, content: string)
    | HookFacet(hook: Option<Hook>)
    | ConnectorFacet(id: string, name: string, kind: string, auth: Option<string>)
    | GraphFacet(graph: Option<Graph>)
    | McpFacet(address: string, accepted: bool)

  /** What an install notes for its removal. */
  datatype Item =
    | AgentItem(id: string)
    | SkillItem(name: string)
    | HookItem(hook: Hook)
    | ConnectorItem(id: string)
    | GraphItem(id: string)
    | ServerItem(address: string)

  /** How the installer was set up. */
  datatype Setup = Setup(graphStore: bool, registrar: bool, unregistrar: bool,
                         skillName: string -> bool, connectorKind: string -> bool)

  // ---- one facet ----

  predicate Accepts(setup: Setup, st: Stores, f: Facet) {
    match f
    case AgentFacet(_, _) => true
    case SkillFacet(name, content) => name != "" && content != "" && setup.skillName(name)
    case HookFacet(hook) => hook.Some?
    case ConnectorFacet(id, _, kind, auth) => id != "" && auth.Some? && (id in st.connectors || setup.connectorKind(kind))
    case GraphFacet(graph) => setup.graphStore && graph.Some?
    case McpFacet(_, accepted) => setup.registrar && accepted
  }

  function ItemOf(f: Facet): Item
    requires f.HookFacet? ==> f.hook.Some?
    requires f.GraphFacet? ==> f.graph.Some?
  {
    match f
    case AgentFacet(id, _) => AgentItem(id)
    case SkillFacet(name, _) => SkillItem(name)
    case HookFacet(hook) => HookItem(hook.value)
    case ConnectorFacet(id, _, _, _) => ConnectorItem(id)
    case GraphFacet(graph) => GraphItem(graph.value.id)
    case McpFacet(address, _) => ServerItem(address)
  }

  /** An existing connector keeps its kind. */
  function Applied(st: Stores, f: Facet): Stores
    requires f.HookFacet? ==> f.hook.Some?
    requires f.ConnectorFacet? ==> f.auth.Some?
    requires f.GraphFacet? ==> f.graph.Some?
  {
    match f
    case AgentFacet(id, package) => st.(agents := st.agents[id := package])
    case SkillFacet(name, content) => st.(skills := st.skills[name := content])
    case HookFacet(hook) => st.(hooks := st.hooks + [hook.value])
    case ConnectorFacet(id, name, kind, auth) =>
      st.(connectors := st.connectors[id := Connector(name, if id in st.connectors then st.connectors[id].kind else kind, auth.value)])
    case GraphFacet(graph) => st.(graphs := st.graphs[graph.value.id := graph.value.data])
    case McpFacet(address, _) => st.(servers := st.servers + [address])
  }

  function Keep<T>(s: seq<T>, gone: set<T>): seq<T> {
    if s == [] then [] else Keep(s[..|s| - 1], gone) + (if s[|s| - 1] in gone then [] else [s[|s| - 1]])
  }

  function Removed(setup: Setup, st: Stores, item: Item): Stores {
    match item
    case AgentItem(id) => st.(agents := st.agents - {id})
    case SkillItem(name) => st.(skills := st.skills - {name})
    case HookItem(hook) => st.(hooks := Keep(st.hooks, {hook}))
    case ConnectorItem(id) => st.(connectors := st.connectors - {id})
    case GraphItem(id) => if setup.graphStore then st.(graphs := st.graphs - {id}) else st
    case ServerItem(address) => if address != "" && setup.unregistrar then st.(servers := Keep(st.servers, {address})) else st
  }

  // ---- whole runs ----

  datatype Progress = Progress(stores: Stores, items: seq<Item>, failures: nat)

  function Step(setup: Setup, p: Progress, f: Facet): Progress {
    if Accepts(setup, p.stores, f) then Progress(Applied(p.stores, f), p.items + [ItemOf(f)], p.failures)
    else p.(failures := p.failures + 1)
  }

  /** The state after a list of facets, each tried in turn whatever came before. */
  function Run(setup: Setup, st: Stores, facets: seq<Facet>): Progress {
    if facets == [] then Progress(st, [], 0) else Step(setup, Run(setup, st, facets[..|facets| - 1]), facets[|facets| - 1])
  }

  function RemoveAll(setup: Setup, st: Stores, items: seq<Item>): Stores {
    if items == [] then st else Removed(setup, RemoveAll(setup, st, items[..|items| - 1]), items[|items| - 1])
  }

  class BundleInstaller {
    const setup: Setup
    var stores: Stores
    /** Installed bundles by name, with what to remove. */
    var registry: map<string, seq<Item>>

    constructor (setup: Setup, stores: Stores)
      ensures this.setup == setup && this.stores == stores && registry == map[]
    {
      this.setup, this.stores, registry := setup, stores, map[];
    }

    method InstallFacet(f: Facet) returns (item: Option<Item>)
      modifies this`stores
      ensures item.Some? <==> Accepts(setup, old(stores), f)
      ensures item.Some? ==> item.value == ItemOf(f) && stores == Applied(old(stores), f)
      ensures item.None? ==> stores == old(stores)
      ensures match f
        case AgentFacet(_, _) => item.Some?
        case SkillFacet(name, content) => item.None? <==> name == "" || content == "" || !setup.skillName(name)
        case HookFacet(hook) => item.None? <==> hook.None?
        case ConnectorFacet(id, _, kind, auth) =>
          item.None? <==> id == "" || auth.None? || (id !in old(stores).connectors && !setup.connectorKind(kind))
        case GraphFacet(graph) => item.None? <==> graph.None? || !setup.graphStore
        case McpFacet(_, accepted) => item.None? <==> !accepted || !setup.registrar
    {
      match f
      case AgentFacet(id, package) =>
        stores := stores.(agents := stores.agents[id := package]);
        return Some(AgentItem(id));
      case SkillFacet(name, content) =>
        if name == "" || content == "" { return None; }
        if !setup.skillName(name) { return None; }
        stores := stores.(skills := stores.skills[name := content]);
        return Some(SkillItem(name));
      case HookFacet(hook) =>
        if hook.None? { return None; }
        stores := stores.(hooks := stores.hooks + [hook.value]);
        return Some(HookItem(hook.value));
      case ConnectorFacet(id, name, kind, auth) =>
        if id == "" || auth.None? { return None; }
        if id in stores.connectors {
          stores := stores.(connectors := stores.connectors[id := stores.connectors[id].(name := name, auth := auth.value)]);
        } else if setup.connectorKind(kind) {
          stores := stores.(connectors := stores.connectors[id := Connector(name, kind, auth.value)]);
        } else {
          return None;
        }
        return Some(ConnectorItem(id));
      case GraphFacet(graph) =>
        if !setup.graphStore || graph.None? { return None; }
        stores := stores.(graphs := stores.graphs[graph.value.id := graph.value.data]);
        return Some(GraphItem(graph.value.id));
      case McpFacet(address, accepted) =>
        if !setup.registrar || !accepted { return None; }
        stores := stores.(servers := stores.servers + [address]);
        return Some(ServerItem(address));
    }

    /** Installs every facet or, if one is refused, removes those that were not. */
    method Install(name: string, facets: seq<Facet>) returns (ok: bool, items: seq<Item>)
      modifies this
      ensures items == Run(setup, old(stores), facets).items
      ensures ok <==> facets != [] && Run(setup, old(stores), facets).failures == 0
      ensures ok ==> stores == Run(setup, old(stores), facets).stores && registry == old(registry)[name := items]
      ensures !ok ==> stores == RemoveAll(setup, Run(setup, old(stores), facets).stores, items) && registry == old(registry)
    {
      if facets == [] { return false, []; }
      items := [];
      var failures := 0;
      for i := 0 to |facets|
        invariant Progress(stores, items, failures) == Run(setup, old(stores), facets[..i])
        invariant registry == old(registry)
      {
        assert facets[..i + 1][..i] == facets[..i];
        var item := InstallFacet(facets[i]);
        if item.Some? {
          items := items + [item.value];
        } else {
          failures := failures + 1;
        }
      }
      assert facets[..|facets|] == facets;
      if failures > 0 {
        UninstallFacets(items);
        return false, items;
      }
      registry := registry[name := items];
      return true, items;
    }

    method UninstallFacets(items: seq<Item>)
      modifies this`stores
      ensures stores == RemoveAll(setup, old(stores), items)
    {
      for i := 0 to |items|
        invariant stores == RemoveAll(setup, old(stores), items[..i])
      {
        assert items[..i + 1][..i] == items[..i];
        var item := items[i];
        match item
        case AgentItem(id) => stores := stores.(agents := stores.agents - {id});
        case SkillItem(name) => stores := stores.(skills := stores.skills - {name});
        case HookItem(hook) => stores := stores.(hooks := Keep(stores.hooks, {hook}));
        case ConnectorItem(id) => stores := stores.(connectors := stores.connectors - {id});
        case GraphItem(id) => if setup.graphStore { stores := stores.(graphs := stores.graphs - {id}); }
        case ServerItem(address) =>
          if address != "" && setup.unregistrar { stores := stores.(servers := Keep(stores.servers, {address})); }
      }
      assert items[..|items|] == items;
    }

    method Uninstall(name: string) returns (ok: bool)
      modifies this
      ensures ok <==> name in old(registry)
      ensures ok ==> stores == RemoveAll(setup, old(stores), old(registry)[name]) && registry == old(registry) - {name}
      ensures !ok ==> unchanged(this)
    {
      if name !in registry { return false; }
      UninstallFacets(registry[name]);
      registry := registry - {name};
      return true;
    }
  }

  // ---- what a run and a removal do, store by store ----

  lemma {:induction false} KeepAppend<T>(a: seq<T>, b: seq<T>, gone: set<T>)
    ensures Keep(a + b, gone) == Keep(a, gone) + Keep(b, gone)
  {
    if b == [] {
      assert a + b == a;
    } else {
      var rest := b[..|b| - 1];
      assert (a + b)[..|a + b| - 1] == a + rest;
      KeepAppend(a, rest, gone);
    }
  }

  lemma {:induction false} KeepTwice<T>(s: seq<T>, one: set<T>, two: set<T>)
    ensures Keep(Keep(s, one), two) == Keep(s, one + two)
  {
    if s != [] {
      var rest, last := s[..|s| - 1], s[|s| - 1];
      KeepTwice(rest, one, two);
      KeepAppend(Keep(rest, one), if last in one then [] else [last], two);
    }
  }

  lemma {:induction false} KeepMembers<T>(s: seq<T>, gone: set<T>)
    ensures |Keep(s, gone)| <= |s| && forall x :: x in Keep(s, gone) <==> x in s && x !in gone
  {
    if s != [] {
      var rest, last := s[..|s| - 1], s[|s| - 1];
      KeepMembers(rest, gone);
      forall x ensures x in s <==> x in rest || x == last { assert s == rest + [last]; }
    }
  }

  lemma {:induction false} KeepNone<T>(s: seq<T>, gone: set<T>)
    ensures Keep(s, gone) == [] <==> forall x | x in s :: x in gone
  {
    if s != [] {
      var rest, last := s[..|s| - 1], s[|s| - 1];
      KeepNone(rest, gone);
      assert last in s;
      assert forall x | x in rest :: x in s;
      forall x | x in s ensures x in rest || x == last { assert s == rest + [last]; }
    }
  }

  lemma {:induction false} KeepAll<T>(s: seq<T>, gone: set<T>)
    requires forall x | x in s :: x !in gone
    ensures Keep(s, gone) == s
  {
    if s != [] { KeepAll(s[..|s| - 1], gone); }
  }

  function AgentIds(items: seq<Item>): set<string> { set it | it in items && it.AgentItem? :: it.id }
  function SkillNames(items: seq<Item>): set<string> { set it | it in items && it.SkillItem? :: it.name }
  function ConnectorIds(items: seq<Item>): set<string> { set it | it in items && it.ConnectorItem? :: it.id }
  function GraphIds(items: seq<Item>): set<string> { set it | it in items && it.GraphItem? :: it.id }
  function HookSet(items: seq<Item>): set<Hook> { set it | it in items && it.HookItem? :: it.hook }
  function Addresses(items: seq<Item>): set<string> { set it | it in items && it.ServerItem? && it.address != "" :: it.address }

  function HooksOf(items: seq<Item>): seq<Hook> {
    if items == [] then []
    else HooksOf(items[..|items| - 1]) + (if items[|items| - 1].HookItem? then [items[|items| - 1].hook] else [])
  }

  function ServersOf(items: seq<Item>): seq<string> {
    if items == [] then []
    else ServersOf(items[..|items| - 1]) + (if items[|items| - 1].ServerItem? then [items[|items| - 1].address] else [])
  }

  lemma {:induction false} ListedItems(items: seq<Item>)
    ensures forall h :: h in HooksOf(items) <==> HookItem(h) in items
    ensures forall a :: a in ServersOf(items) <==> ServerItem(a) in items
  {
    if items != [] {
      assert items == items[..|items| - 1] + [items[|items| - 1]];
      ListedItems(items[..|items| - 1]);
    }
  }

  /** The keys of a map and some more, with nothing else changed. */
  ghost predicate Grown<V>(before: map<string, V>, after: map<string, V>, ids: set<string>) {
    after.Keys == before.Keys + ids && forall k | k in before && k !in ids :: after[k] == before[k]
  }

  ghost predicate Extends(setup: Setup, before: Stores, after: Stores, items: seq<Item>) {
    && Grown(before.agents, after.agents, AgentIds(items))
    && Grown(before.skills, after.skills, SkillNames(items))
    && Grown(before.connectors, after.connectors, ConnectorIds(items))
    && Grown(before.graphs, after.graphs, GraphIds(items))
    && after.hooks == before.hooks + HooksOf(items)
    && after.servers == before.servers + ServersOf(items)
    && (!setup.graphStore ==> GraphIds(items) == {})
  }

  lemma IdsAppend(items: seq<Item>, item: Item)
    ensures AgentIds(items + [item]) == AgentIds(items) + (if item.AgentItem? then {item.id} else {})
    ensures SkillNames(items + [item]) == SkillNames(items) + (if item.SkillItem? then {item.name} else {})
    ensures ConnectorIds(items + [item]) == ConnectorIds(items) + (if item.ConnectorItem? then {item.id} else {})
    ensures GraphIds(items + [item]) == GraphIds(items) + (if item.GraphItem? then {item.id} else {})
    ensures HookSet(items + [item]) == HookSet(items) + (if item.HookItem? then {item.hook} else {})
    ensures Addresses(items + [item]) == Addresses(items) + (if item.ServerItem? && item.address != "" then {item.address} else {})
    ensures HooksOf(items + [item]) == HooksOf(items) + (if item.HookItem? then [item.hook] else [])
    ensures ServersOf(items + [item]) == ServersOf(items) + (if item.ServerItem? then [item.address] else [])
  {
    assert (items + [item])[..|items|] == items;
  }

  lemma {:induction false} RunExtends(setup: Setup, st: Stores, facets: seq<Facet>)
    ensures var p := Run(setup, st, facets); Extends(setup, st, p.stores, p.items)
  {
    if facets != [] {
      var f, p := facets[|facets| - 1], Run(setup, st, facets[..|facets| - 1]);
      RunExtends(setup, st, facets[..|facets| - 1]);
      if Accepts(setup, p.stores, f) { ExtendsMore(setup, st, p, f); }
    }
  }

  lemma GrownMore<V>(before: map<string, V>, after: map<string, V>, ids: set<string>, id: string, v: V)
    requires Grown(before, after, ids)
    ensures Grown(before, after[id := v], ids + {id})
  {
  }

  lemma NoneMore<T>(a: set<T>, b: seq<T>)
    ensures a + {} == a && b + [] == b
  {
  }

  lemma ExtendsMore(setup: Setup, st: Stores, p: Progress, f: Facet)
    requires Extends(setup, st, p.stores, p.items) && Accepts(setup, p.stores, f)
    ensures Extends(setup, st, Applied(p.stores, f), p.items + [ItemOf(f)])
  {
    hide AgentIds, SkillNames, ConnectorIds, GraphIds, HooksOf, ServersOf, HookSet, Addresses, Grown;
    IdsAppend(p.items, ItemOf(f));
    NoneMore(AgentIds(p.items), ServersOf(p.items));
    NoneMore(SkillNames(p.items), ServersOf(p.items));
    NoneMore(ConnectorIds(p.items), ServersOf(p.items));
    NoneMore(GraphIds(p.items), ServersOf(p.items));
    NoneMore(HookSet(p.items), HooksOf(p.items));
    match f
    case AgentFacet(id, package) => GrownMore(st.agents, p.stores.agents, AgentIds(p.items), id, package);
    case SkillFacet(name, content) => GrownMore(st.skills, p.stores.skills, SkillNames(p.items), name, content);
    case ConnectorFacet(id, _, _, _) =>
      GrownMore(st.connectors, p.stores.connectors, ConnectorIds(p.items), id, Applied(p.stores, f).connectors[id]);
    case GraphFacet(graph) => GrownMore(st.graphs, p.stores.graphs, GraphIds(p.items), graph.value.id, graph.value.data);
    case HookFacet(hook) => Reassociate(st.hooks, HooksOf(p.items), hook.value);
    case McpFacet(address, _) => Reassociate(st.servers, ServersOf(p.items), address);
  }

  lemma Reassociate<T>(a: seq<T>, b: seq<T>, x: T)
    ensures a + b + [x] == a + (b + [x])
  {
  }

  /** The stores without the items. */
  function Without(setup: Setup, st: Stores, items: seq<Item>): Stores {
    Stores(
      st.agents - AgentIds(items), st.skills - SkillNames(items), Keep(st.hooks, HookSet(items)),
      st.connectors - ConnectorIds(items), st.graphs - GraphIds(items),
      if setup.unregistrar then Keep(st.servers, Addresses(items)) else st.servers)
  }

  lemma MinusNothing<V>(m: map<string, V>)
    ensures m - {} == m
  {
  }

  lemma WithoutNothing(setup: Setup, st: Stores)
    ensures Without(setup, st, []) == st
  {
    hide Keep;
    KeepAll(st.hooks, {});
    KeepAll(st.servers, {});
    MinusNothing(st.agents);
    MinusNothing(st.skills);
    MinusNothing(st.connectors);
    MinusNothing(st.graphs);
    assert AgentIds([]) == {} && SkillNames([]) == {} && ConnectorIds([]) == {} && GraphIds([]) == {};
    assert HookSet([]) == {} && Addresses([]) == {};
  }

  lemma {:induction false} RemovalRemoves(setup: Setup, st: Stores, items: seq<Item>)
    requires setup.graphStore || GraphIds(items) == {}
    ensures RemoveAll(setup, st, items) == Without(setup, st, items)
  {
    hide Without, Removed, AgentIds, SkillNames, ConnectorIds, HooksOf, ServersOf, HookSet, Addresses;
    if items == [] {
      WithoutNothing(setup, st);
    } else {
      var rest, last := items[..|items| - 1], items[|items| - 1];
      assert items == rest + [last];
      IdsAppend(rest, last);
      RemovalRemoves(setup, st, rest);
      RemovesOneMore(setup, st, rest, last);
    }
  }

  lemma MinusTwice<V>(m: map<string, V>, a: set<string>, b: set<string>)
    ensures m - a - b == m - (a + b)
  {
  }

  lemma RemovesOneMore(setup: Setup, st: Stores, rest: seq<Item>, last: Item)
    requires setup.graphStore || !last.GraphItem?
    ensures Removed(setup, Without(setup, st, rest), last) == Without(setup, st, rest + [last])
  {
    hide AgentIds, SkillNames, ConnectorIds, GraphIds, HookSet, Addresses, Keep, HooksOf, ServersOf;
    IdsAppend(rest, last);
    NoneMore(AgentIds(rest), ServersOf(rest));
    NoneMore(SkillNames(rest), ServersOf(rest));
    NoneMore(ConnectorIds(rest), ServersOf(rest));
    NoneMore(GraphIds(rest), ServersOf(rest));
    NoneMore(Addresses(rest), ServersOf(rest));
    NoneMore(HookSet(rest), HooksOf(rest));
    match last
    case AgentItem(id) => MinusTwice(st.agents, AgentIds(rest), {id});
    case SkillItem(name) => MinusTwice(st.skills, SkillNames(rest), {name});
    case HookItem(hook) => KeepTwice(st.hooks, HookSet(rest), {hook});
    case ConnectorItem(id) => MinusTwice(st.connectors, ConnectorIds(rest), {id});
    case GraphItem(id) => MinusTwice(st.graphs, GraphIds(rest), {id});
    case ServerItem(address) => KeepTwice(st.servers, Addresses(rest), {address});
  }

  // ---- when a removal restores what was there ----

  /** Nothing of the kind was there before, and what is added can be taken away. */
  predicate Fresh(setup: Setup, st: Stores, item: Item) {
    match item
    case AgentItem(id) => id !in st.agents
    case SkillItem(name) => name !in st.skills
    case HookItem(hook) => hook !in st.hooks
    case ConnectorItem(id) => id !in st.connectors
    case GraphItem(id) => id !in st.graphs
    case ServerItem(address) => setup.unregistrar && address != "" && address !in st.servers
  }

  lemma MapRestoredIff<V>(before: map<string, V>, after: map<string, V>, ids: set<string>)
    requires Grown(before, after, ids)
    ensures after - ids == before <==> forall k | k in ids :: k !in before
  {
    if forall k | k in ids :: k !in before {
      assert (after - ids).Keys == before.Keys;
    } else {
      var k :| k in ids && k in before;
      assert k !in after - ids;
    }
  }

  lemma SeqRestoredIff<T>(before: seq<T>, added: seq<T>, gone: set<T>)
    requires forall x | x in gone :: x in added
    ensures Keep(before + added, gone) == before <==> (forall x | x in added :: x in gone) && forall x | x in gone :: x !in before
  {
    hide Keep;
    KeepAppend(before, added, gone);
    KeepNone(added, gone);
    if Keep(before + added, gone) == before {
      KeepMembers(before + added, gone);
      KeepAll(before, gone);
      assert |Keep(added, gone)| == 0;
    } else if forall x | x in gone :: x !in before {
      KeepAll(before, gone);
    }
  }

  /** A list grown by some servers is restored if all have an address to unregister,
      which none had that was there before. */
  lemma ServersRestoredIff(setup: Setup, before: seq<string>, items: seq<Item>)
    ensures (if setup.unregistrar then Keep(before + ServersOf(items), Addresses(items)) else before + ServersOf(items)) == before
      <==> forall item | item in items && item.ServerItem? :: setup.unregistrar && item.address != "" && item.address !in before
  {
    ListedItems(items);
    SeqRestoredIff(before, ServersOf(items), Addresses(items));
    if !setup.unregistrar && before + ServersOf(items) == before {
      assert |ServersOf(items)| == 0;
      assert ServersOf(items) == [];
    }
    if setup.unregistrar && forall x | x in ServersOf(items) :: x in Addresses(items) {
      forall item | item in items && item.ServerItem? ensures item.address != "" {
        assert item.address in ServersOf(items) by { assert ServerItem(item.address) in items; }
      }
    }
  }

  lemma HooksRestoredIff(before: seq<Hook>, items: seq<Item>)
    ensures Keep(before + HooksOf(items), HookSet(items)) == before
      <==> forall item | item in items && item.HookItem? :: item.hook !in before
  {
    ListedItems(items);
    SeqRestoredIff(before, HooksOf(items), HookSet(items));
  }

  lemma ItemsRestoredIff(setup: Setup, before: Stores, after: Stores, items: seq<Item>)
    requires Extends(setup, before, after, items)
    ensures RemoveAll(setup, after, items) == before <==> forall item | item in items :: Fresh(setup, before, item)
  {
    hide RemoveAll, Keep, Grown, HooksOf, ServersOf, HookSet, Addresses;
    RemovalRemoves(setup, after, items);
    MapRestoredIff(before.agents, after.agents, AgentIds(items));
    MapRestoredIff(before.skills, after.skills, SkillNames(items));
    MapRestoredIff(before.connectors, after.connectors, ConnectorIds(items));
    MapRestoredIff(before.graphs, after.graphs, GraphIds(items));
    HooksRestoredIff(before.hooks, items);
    ServersRestoredIff(setup, before.servers, items);
  }

  lemma {:induction false} ItemsOfFacets(setup: Setup, st: Stores, facets: seq<Facet>)
    ensures forall f | f in facets && Accepts(setup, st, f) :: ItemOf(f) in Run(setup, st, facets).items
    ensures forall item | item in Run(setup, st, facets).items ::
      Fresh(setup, st, item) || exists f :: f in facets && Accepts(setup, st, f) && ItemOf(f) == item
  {
    if facets != [] {
      var rest, f := facets[..|facets| - 1], facets[|facets| - 1];
      assert facets == rest + [f];
      ItemsOfFacets(setup, st, rest);
      RunExtends(setup, st, rest);
    }
  }

  /** Taking back what an install did restores the stores exactly when no facet that
      could be installed was there before, and no server lacks an address or a way to
      unregister it. */
  lemma RollbackRestoresIff(setup: Setup, st: Stores, facets: seq<Facet>)
    ensures var p := Run(setup, st, facets);
      RemoveAll(setup, p.stores, p.items) == st
      <==> forall f | f in facets && Accepts(setup, st, f) :: Fresh(setup, st, ItemOf(f))
  {
    hide Extends, RemoveAll, Run, Fresh, Accepts;
    RunExtends(setup, st, facets);
    var p := Run(setup, st, facets);
    ItemsRestoredIff(setup, st, p.stores, p.items);
    ItemsOfFacets(setup, st, facets);
  }

  predicate Present(st: Stores, item: Item) {
    match item
    case AgentItem(id) => id in st.agents
    case SkillItem(name) => name in st.skills
    case HookItem(hook) => hook in st.hooks
    case ConnectorItem(id) => id in st.connectors
    case GraphItem(id) => id in st.graphs
    case ServerItem(address) => address in st.servers
  }

  lemma ExtendsPresent(setup: Setup, before: Stores, after: Stores, items: seq<Item>)
    requires Extends(setup, before, after, items)
    ensures forall item | item in items :: Present(after, item)
  {
    hide HooksOf, ServersOf;
    ListedItems(items);
  }

  /** An install without failures records every facet, in order, and leaves it in its
      store. */
  lemma EveryFacetInstalled(setup: Setup, st: Stores, facets: seq<Facet>)
    requires Run(setup, st, facets).failures == 0
    ensures var p := Run(setup, st, facets);
      |p.items| == |facets| && forall i | 0 <= i < |facets| :: Recorded(facets[i], p.items[i]) && Present(p.stores, p.items[i])
  {
    hide Present, Extends;
    EveryFacetRecorded(setup, st, facets);
    RunExtends(setup, st, facets);
    var p := Run(setup, st, facets);
    ExtendsPresent(setup, st, p.stores, p.items);
  }

  predicate Recorded(f: Facet, item: Item) {
    && (f.HookFacet? ==> f.hook.Some?) && (f.GraphFacet? ==> f.graph.Some?)
    && item == ItemOf(f)
  }

  lemma {:induction false} EveryFacetRecorded(setup: Setup, st: Stores, facets: seq<Facet>)
    requires Run(setup, st, facets).failures == 0
    ensures var p := Run(setup, st, facets);
      |p.items| == |facets| && forall i | 0 <= i < |facets| :: Recorded(facets[i], p.items[i])
  {
    hide Applied;
    if facets != [] { EveryFacetRecorded(setup, st, facets[..|facets| - 1]); }
  }

  /** A bundle installed and uninstalled leaves no trace exactly when it was fresh. */
  method InstallThenUninstall(installer: BundleInstaller, name: string, facets: seq<Facet>) returns (ok: bool)
    modifies installer
    ensures installer.stores == old(installer.stores) <==>
      forall f | f in facets && Accepts(installer.setup, old(installer.stores), f) :: Fresh(installer.setup, old(installer.stores), ItemOf(f))
    ensures installer.registry == if ok then old(installer.registry) - {name} else old(installer.registry)
  {
    hide Accepts, Fresh, RemoveAll, Run;
    var items;
    RollbackRestoresIff(installer.setup, installer.stores, facets);
    ok, items := installer.Install(name, facets);
    if ok {
      var _ := installer.Uninstall(name);
    }
  }

  // ---- what the stores hold afterwards ----

  /** The key a facet is stored under, and where. */
  ghost predicate SamePlace(f: Facet, g: Facet) {
    || (f.AgentFacet? && g.AgentFacet? && f.id == g.id)
    || (f.SkillFacet? && g.SkillFacet? && f.name == g.name)
    || (f.ConnectorFacet? && g.ConnectorFacet? && f.id == g.id)
    || (f.GraphFacet? && g.GraphFacet? && f.graph.Some? && g.graph.Some? && f.graph.value.id == g.graph.value.id)
  }

  /** The stores hold what the facet brought. A connector keeps the kind it had, or the
      first one it was given. */
  ghost predicate HeldAs(setup: Setup, st: Stores, after: Stores, f: Facet, first: bool) {
    match f
    case AgentFacet(id, package) => id in after.agents && after.agents[id] == package
    case SkillFacet(name, content) =>
      name != "" && content != "" && setup.skillName(name) ==> name in after.skills && after.skills[name] == content
    case ConnectorFacet(id, name, kind, auth) =>
      id != "" && auth.Some? && (id in st.connectors || (first && setup.connectorKind(kind))) ==>
        id in after.connectors && after.connectors[id] == Connector(name, if id in st.connectors then st.connectors[id].kind else kind, auth.value)
    case GraphFacet(graph) =>
      graph.Some? && setup.graphStore ==> graph.value.id in after.graphs && after.graphs[graph.value.id] == graph.value.data
    case HookFacet(hook) => hook.Some? ==> hook.value in after.hooks
    case McpFacet(address, accepted) => accepted && setup.registrar ==> address in after.servers
  }

  lemma StepKeeps(setup: Setup, st: Stores, p: Progress, f: Facet, g: Facet, first: bool)
    requires HeldAs(setup, st, p.stores, f, first) && !SamePlace(f, g)
    ensures HeldAs(setup, st, Step(setup, p, g).stores, f, first)
  {
  }

  lemma StepHolds(setup: Setup, st: Stores, p: Progress, f: Facet, first: bool)
    requires f.ConnectorFacet? ==>
      if f.id in st.connectors then f.id in p.stores.connectors && p.stores.connectors[f.id].kind == st.connectors[f.id].kind
      else first ==> f.id !in p.stores.connectors
    ensures HeldAs(setup, st, Step(setup, p, f).stores, f, first)
  {
  }

  lemma {:induction false} ConnectorKinds(setup: Setup, st: Stores, facets: seq<Facet>, id: string)
    ensures var after := Run(setup, st, facets).stores;
      && (id in st.connectors ==> id in after.connectors && after.connectors[id].kind == st.connectors[id].kind)
      && (id !in st.connectors && (forall f | f in facets :: f.ConnectorFacet? ==> f.id != id) ==> id !in after.connectors)
  {
    if facets != [] {
      assert facets == facets[..|facets| - 1] + [facets[|facets| - 1]];
      ConnectorKinds(setup, st, facets[..|facets| - 1], id);
    }
  }

  /** After any run, failed facets or not, every facet that can be installed is held as it
      came unless a later one is stored in its place. */
  lemma {:induction false} LastFacetIsHeld(setup: Setup, st: Stores, facets: seq<Facet>, i: nat)
    requires i < |facets| && forall j | i < j < |facets| :: !SamePlace(facets[i], facets[j])
    ensures HeldAs(setup, st, Run(setup, st, facets).stores, facets[i], forall j | 0 <= j < i :: !SamePlace(facets[i], facets[j]))
    decreases |facets|
  {
    hide HeldAs, Step;
    var n := |facets| - 1;
    var p := Run(setup, st, facets[..n]);
    assert forall j | 0 <= j < n :: facets[..n][j] == facets[j];
    if i < n {
      LastFacetIsHeld(setup, st, facets[..n], i);
      StepKeeps(setup, st, p, facets[i], facets[n], forall j | 0 <= j < i :: !SamePlace(facets[i], facets[j]));
    } else {
      var first := forall j | 0 <= j < i :: !SamePlace(facets[i], facets[j]);
      if facets[i].ConnectorFacet? {
        ConnectorKinds(setup, st, facets[..n], facets[i].id);
        if first {
          forall f | f in facets[..n] ensures f.ConnectorFacet? ==> f.id != facets[i].id { }
        }
      }
      StepHolds(setup, st, p, facets[i], first);
    }
  }
}
