/**
 From configured servers to the sub-graphs that may bind each tool: discovery gives every
 tool a namespaced name, the registry refuses collisions, and the partition deals them out.
 */
module ToolWiring {
  import Text

  /** A tool; `origin` tells copies of equal name and description apart. */
  datatype Tool = Tool(name: string, description: string, origin: int)

  datatype Wiring<T> = Built(value: T) | Collision(name: string)

  datatype Lookup = Found(tools: seq<Tool>) | Unknown(name: string)

  // ---- Discovery ------------------------------------------------------------------------------------

  /** One server and its tools, in discovery order. */
  datatype Server = Server(name: string, tools: seq<Tool>)

  function Namespaced(server: string, tool: string): string {
    server + "__" + tool
  }

  function Renamed(server: string, t: Tool): Tool {
    t.(name := Namespaced(server, t.name),
       description := Text.Strip("[" + server + "] " + Text.Strip(t.description)))
  }

  function RenamedAll(server: string, tools: seq<Tool>): (r: seq<Tool>)
    ensures |r| == |tools| && forall i :: 0 <= i < |tools| ==> r[i] == Renamed(server, tools[i])
  {
    seq(|tools|, i requires 0 <= i < |tools| => Renamed(server, tools[i]))
  }

  /** Every tool under its new name, server by server. */
  function Discovered(servers: seq<Server>): seq<Tool> {
    if servers == [] then []
    else Discovered(servers[..|servers| - 1])
         + RenamedAll(servers[|servers| - 1].name, servers[|servers| - 1].tools)
  }

  ghost predicate DistinctNames(tools: seq<Tool>) {
    forall i, j :: 0 <= i < j < |tools| ==> tools[i].name != tools[j].name
  }

  function Names(tools: seq<Tool>): set<string> {
    set t | t in tools :: t.name
  }

  lemma DistinctSnoc(tools: seq<Tool>, t: Tool)
    requires DistinctNames(tools)
    ensures DistinctNames(tools + [t]) <==> t.name !in Names(tools)
  {
    if t.name in Names(tools) {
      var u :| u in tools && u.name == t.name;
      var i :| 0 <= i < |tools| && tools[i] == u;
      assert (tools + [t])[i].name == (tools + [t])[|tools|].name;
    } else {
      assert forall i :: 0 <= i < |tools| ==> tools[i] in tools;
    }
  }

  lemma NamesSnoc(tools: seq<Tool>, t: Tool)
    ensures Names(tools + [t]) == Names(tools) + {t.name}
  {
    assert forall u :: u in tools + [t] <==> u in tools || u == t;
  }

  lemma DistinctPrefix(a: seq<Tool>, b: seq<Tool>)
    requires !DistinctNames(a) && a <= b
    ensures !DistinctNames(b)
  {
    assert forall i :: 0 <= i < |a| ==> a[i] == b[i];
  }

  lemma {:induction false} DiscoveredPrefix(servers: seq<Server>, k: nat)
    requires k <= |servers|
    ensures Discovered(servers[..k]) <= Discovered(servers)
    decreases |servers|
  {
    if k == |servers| {
      assert servers[..k] == servers;
    } else {
      assert servers[..|servers| - 1][..k] == servers[..k];
      DiscoveredPrefix(servers[..|servers| - 1], k);
    }
  }

  /** The inner loop: one server's tools, against the names seen so far. */
  method AddServer(server: Server, before: seq<Tool>, seen: set<string>)
    returns (r: Wiring<seq<Tool>>, seen': set<string>)
    requires DistinctNames(before) && seen == Names(before)
    ensures r.Built? <==> DistinctNames(before + RenamedAll(server.name, server.tools))
    ensures r.Built? ==> r.value == before + RenamedAll(server.name, server.tools) && seen' == Names(r.value)
    ensures r.Collision? ==> r.name in Names(RenamedAll(server.name, server.tools))
  {
    ghost var all := RenamedAll(server.name, server.tools);
    var out := before;
    seen' := seen;
    for i := 0 to |server.tools|
      invariant out == before + all[..i]
      invariant DistinctNames(out) && seen' == Names(out)
    {
      var renamed := Renamed(server.name, server.tools[i]);
      DistinctSnoc(out, renamed);
      NamesSnoc(out, renamed);
      assert out + [renamed] == before + all[..i + 1];
      if renamed.name in seen' {
        DistinctPrefix(out + [renamed], before + all);
        assert all[i] == renamed;
        return Collision(renamed.name), seen';
      }
      seen' := seen' + {renamed.name};
      out := out + [renamed];
    }
    assert all[..|server.tools|] == all;
    r := Built(out);
  }

  /**
   Discovery fails exactly when two tools would get one name; otherwise it returns all of
   them, in order, under distinct names.
   */
  method Bootstrap(servers: seq<Server>) returns (r: Wiring<seq<Tool>>)
    ensures r.Built? <==> DistinctNames(Discovered(servers))
    ensures r.Built? ==> r.value == Discovered(servers)
    ensures r.Collision? ==> r.name in Names(Discovered(servers))
  {
    var seen: set<string> := {};
    var out: seq<Tool> := [];
    for s := 0 to |servers|
      invariant out == Discovered(servers[..s])
      invariant DistinctNames(out) && seen == Names(out)
    {
      ghost var next := servers[..s + 1];
      assert next[..s] == servers[..s];
      assert Discovered(next) == out + RenamedAll(servers[s].name, servers[s].tools);
      r, seen := AddServer(servers[s], out, seen);
      if r.Collision? {
        DiscoveredPrefix(servers, s + 1);
        DistinctPrefix(Discovered(next), Discovered(servers));
        assert forall t :: t in Discovered(next) ==> t in Discovered(servers);
        return;
      }
      out := r.value;
    }
    assert servers[..|servers|] == servers;
    r := Built(out);
  }

  // ---- When namespacing keeps servers apart --------------------------------------------------------

  /** The first place where two underscores stand next to each other, or the length. */
  function FirstDouble(s: string): (i: nat)
    ensures i <= |s|
    ensures i < |s| ==> i + 1 < |s| && s[i] == '_' && s[i + 1] == '_'
    ensures forall k :: 0 <= k < i && k + 1 < |s| ==> !(s[k] == '_' && s[k + 1] == '_')
  {
    if |s| < 2 then |s|
    else if s[0] == '_' && s[1] == '_' then 0
    else 1 + FirstDouble(s[1..])
  }

  /** Checkable on a configured name: no double underscore inside and none at the end. */
  predicate Separable(server: string) {
    FirstDouble(server) == |server| && (server != "" ==> server[|server| - 1] != '_')
  }

  ghost predicate KeptApart(server: string) {
    forall tool, server', tool' ::
      Separable(server') && Namespaced(server, tool) == Namespaced(server', tool') ==>
        server == server' && tool == tool'
  }

  /** The server name of a namespaced tool can be read back. */
  lemma SeparatorFound(server: string, tool: string)
    requires Separable(server)
    ensures FirstDouble(Namespaced(server, tool)) == |server|
  {
    var s := Namespaced(server, tool);
    assert s[|server|] == '_' && s[|server| + 1] == '_';
    assert forall k :: 0 <= k < |server| ==> s[k] == server[k];
  }

  /** Between separable servers only one server's own repeated tool can collide. */
  lemma SeparableServersNeverCollide(server: string, tool: string, server': string, tool': string)
    requires Separable(server) && Separable(server')
    requires Namespaced(server, tool) == Namespaced(server', tool')
    ensures server == server' && tool == tool'
  {
    SeparatorFound(server, tool);
    SeparatorFound(server', tool');
    var s := Namespaced(server, tool);
    assert s[..|server|] == server && s[..|server'|] == server';
    assert s[|server| + 2..] == tool && s[|server'| + 2..] == tool';
  }

  /** A name that is not separable shares a namespaced name with a separable one, for every tool. */
  lemma InseparableCollides(server: string, tool: string) returns (server': string, tool': string)
    requires !Separable(server)
    ensures Separable(server') && server != server'
    ensures Namespaced(server, tool) == Namespaced(server', tool')
  {
    var s := Namespaced(server, tool);
    assert s[|server|] == '_' && s[|server| + 1] == '_';
    var i := FirstDouble(s);
    assert forall k :: 0 <= k < |server| ==> s[k] == server[k];
    if FirstDouble(server) < |server| {
      assert i <= FirstDouble(server);
    } else {
      assert i <= |server| - 1;
    }
    server', tool' := s[..i], s[i + 2..];
    assert s == server' + "__" + tool';
  }

  /** Exactly the separable names are kept apart from all separable ones. */
  lemma KeptApartIff(server: string)
    ensures KeptApart(server) <==> Separable(server)
  {
    if Separable(server) {
      forall tool, server', tool' | Separable(server') && Namespaced(server, tool) == Namespaced(server', tool')
        ensures server == server' && tool == tool'
      {
        SeparableServersNeverCollide(server, tool, server', tool');
      }
    } else {
      var server', tool' := InseparableCollides(server, "");
    }
  }

  // ---- The registry -----------------------------------------------------------------------------------

  /** `ToolRegistry`: a dictionary that remembers insertion order. */
  class ToolRegistry {
    var order: seq<string>
    var tools: map<string, Tool>

    ghost predicate Valid()
      reads this
    {
      && (forall i, j :: 0 <= i < j < |order| ==> order[i] != order[j])
      && (forall n :: n in order <==> n in tools)
      && (forall n :: n in tools ==> tools[n].name == n)
    }

    /** The registered tools in registration order. */
    function Contents(): (r: seq<Tool>)
      requires Valid()
      reads this
      ensures |r| == |order|
      ensures forall i :: 0 <= i < |order| ==> order[i] in tools && r[i] == tools[order[i]]
    {
      seq(|order|, i requires 0 <= i < |order| && order[i] in tools reads this => tools[order[i]])
    }

    constructor ()
      ensures Valid() && Contents() == []
    {
      order, tools := [], map[];
    }

    /** A new name is appended; a known name keeps its place and gets the new tool. */
    method Register(t: Tool)
      requires Valid()
      modifies this
      ensures Valid()
      ensures t.name !in old(tools) ==> Contents() == old(Contents()) + [t]
      ensures t.name in old(tools) ==> order == old(order)
      ensures tools == old(tools)[t.name := t]
    {
      if t.name !in tools {
        order := order + [t.name];
      }
      tools := tools[t.name := t];
    }

    /** The names of the registered tools, in registration order and each once. */
    method ListAvailable() returns (names: seq<string>)
      requires Valid()
      ensures |names| == |Contents()| && forall i :: 0 <= i < |names| ==> names[i] == Contents()[i].name
      ensures forall i, j :: 0 <= i < j < |names| ==> names[i] != names[j]
    {
      names := order;
    }

    /** Every unknown name is refused; otherwise the tools come in the order asked for. */
    method GetTools(names: seq<string>) returns (r: Lookup)
      requires Valid()
      ensures r.Found? <==> forall n :: n in names ==> n in tools
      ensures r.Found? ==> |r.tools| == |names| && forall i :: 0 <= i < |names| ==> r.tools[i] == tools[names[i]]
      ensures r.Unknown? ==> r.name in names && r.name !in tools
    {
      var found: seq<Tool> := [];
      for i := 0 to |names|
        invariant |found| == i
        invariant forall k :: 0 <= k < i ==> names[k] in tools && found[k] == tools[names[k]]
      {
        if names[i] !in tools {
          return Unknown(names[i]);
        }
        found := found + [tools[names[i]]];
      }
      r := Found(found);
    }
  }

  /** The built-in tools, web search only with its key. */
  function BuiltIns(webSearch: bool): seq<Tool> {
    (if webSearch then [Tool("web_search", "", 0)] else [])
    + [Tool("rag_search", "", 0), Tool("get_local_time", "", 0)]
  }

  const BUILTIN_RESEARCH_TOOL_NAMES := {"rag_search", "web_search", "get_local_time"}

  method RegisterAll(registry: ToolRegistry, tools: seq<Tool>) returns (r: Wiring<()>)
    requires registry.Valid()
    modifies registry
    ensures registry.Valid()
    ensures r.Built? <==> DistinctNames(tools) && old(registry.tools).Keys !! Names(tools)
    ensures r.Built? ==> registry.Contents() == old(registry.Contents()) + tools
  {
    ghost var start := registry.Contents();
    for i := 0 to |tools|
      invariant registry.Valid()
      invariant registry.Contents() == start + tools[..i]
      invariant registry.tools.Keys == old(registry.tools).Keys + Names(tools[..i])
      invariant DistinctNames(tools[..i]) && old(registry.tools).Keys !! Names(tools[..i])
    {
      var t := tools[i];
      assert tools[..i + 1] == tools[..i] + [t];
      DistinctSnoc(tools[..i], t);
      NamesSnoc(tools[..i], t);
      if t.name in registry.tools {
        if t.name in Names(tools[..i]) {
          DistinctPrefix(tools[..i + 1], tools);
        } else {
          assert t in tools && t.name in Names(tools);
        }
        return Collision(t.name);
      }
      registry.Register(t);
      assert start + tools[..i] + [t] == start + tools[..i + 1];
    }
    assert tools[..|tools|] == tools;
    r := Built(());
  }

  /** `_build_tool_registry`. */
  method BuildRegistry(webSearch: bool, mcpTools: seq<Tool>) returns (registry: ToolRegistry, r: Wiring<()>)
    ensures fresh(registry) && registry.Valid()
    ensures r.Built? <==> DistinctNames(mcpTools) && Names(BuiltIns(webSearch)) !! Names(mcpTools)
    ensures r.Built? ==> registry.Contents() == BuiltIns(webSearch) + mcpTools
  {
    registry := new ToolRegistry();
    var built := BuiltIns(webSearch);
    BuiltInsAreDistinct(webSearch);
    assert registry.tools.Keys == {} by {
      assert forall n :: n in registry.tools ==> n in registry.order;
    }
    var r0 := RegisterAll(registry, built);
    assert [] + built == built;
    RegisteredNames(registry, built);
    r := RegisterAll(registry, mcpTools);
  }

  lemma BuiltInsAreDistinct(webSearch: bool)
    ensures DistinctNames(BuiltIns(webSearch))
    ensures Names(BuiltIns(webSearch)) <= BUILTIN_RESEARCH_TOOL_NAMES
  {
  }

  lemma RegisteredNames(registry: ToolRegistry, tools: seq<Tool>)
    requires registry.Valid() && registry.Contents() == tools
    ensures registry.tools.Keys == Names(tools)
  {
    forall n | n in registry.tools
      ensures n in Names(tools)
    {
      var i :| 0 <= i < |registry.order| && registry.order[i] == n;
      assert tools[i] in tools && tools[i].name == n;
    }
    forall t | t in tools
      ensures t.name in registry.tools
    {
      var i :| 0 <= i < |tools| && tools[i] == t;
      assert registry.order[i] in registry.tools;
    }
  }

  // ---- The partition ----------------------------------------------------------------------------------

  datatype Bucket = RESEARCHER | WORKSPACE

  type Overrides = map<string, set<Bucket>>

  function DefaultBuckets(name: string): set<Bucket> {
    if name in BUILTIN_RESEARCH_TOOL_NAMES then {RESEARCHER} else {WORKSPACE}
  }

  function BucketsFor(name: string, overrides: Overrides): set<Bucket> {
    if name in overrides then overrides[name] else DefaultBuckets(name)
  }

  /** The tools a bucket may bind, in their order. */
  function InBucket(tools: seq<Tool>, b: Bucket, overrides: Overrides): seq<Tool> {
    if tools == [] then []
    else
      var t := tools[|tools| - 1];
      InBucket(tools[..|tools| - 1], b, overrides) + if b in BucketsFor(t.name, overrides) then [t] else []
  }

  method PartitionTools(tools: seq<Tool>, overrides: Overrides) returns (research: seq<Tool>, workspace: seq<Tool>)
    ensures research == InBucket(tools, RESEARCHER, overrides)
    ensures workspace == InBucket(tools, WORKSPACE, overrides)
  {
    research, workspace := [], [];
    for i := 0 to |tools|
      invariant research == InBucket(tools[..i], RESEARCHER, overrides)
      invariant workspace == InBucket(tools[..i], WORKSPACE, overrides)
    {
      assert tools[..i + 1][..i] == tools[..i];
      var buckets := BucketsFor(tools[i].name, overrides);
      if RESEARCHER in buckets {
        research := research + [tools[i]];
      }
      if WORKSPACE in buckets {
        workspace := workspace + [tools[i]];
      }
    }
    assert tools[..|tools|] == tools;
  }

  lemma {:induction false} InBucketConcat(a: seq<Tool>, b: seq<Tool>, k: Bucket, overrides: Overrides)
    ensures InBucket(a + b, k, overrides) == InBucket(a, k, overrides) + InBucket(b, k, overrides)
    decreases |b|
  {
    if b == [] {
      assert a + b == a;
    } else {
      assert (a + b)[..|a + b| - 1] == a + b[..|b| - 1];
      InBucketConcat(a, b[..|b| - 1], k, overrides);
    }
  }

  lemma {:induction false} InBucketAll(tools: seq<Tool>, k: Bucket, overrides: Overrides)
    requires forall t :: t in tools ==> k in BucketsFor(t.name, overrides)
    ensures InBucket(tools, k, overrides) == tools
  {
    if tools != [] {
      InBucketAll(tools[..|tools| - 1], k, overrides);
    }
  }

  lemma {:induction false} InBucketNone(tools: seq<Tool>, k: Bucket, overrides: Overrides)
    requires forall t :: t in tools ==> k !in BucketsFor(t.name, overrides)
    ensures InBucket(tools, k, overrides) == []
  {
    if tools != [] {
      InBucketNone(tools[..|tools| - 1], k, overrides);
    }
  }

  lemma {:induction false} SomeInBucket(tools: seq<Tool>, k: Bucket, overrides: Overrides) returns (t: Tool)
    requires InBucket(tools, k, overrides) != []
    ensures t in tools && k in BucketsFor(t.name, overrides)
  {
    t := tools[|tools| - 1];
    if k !in BucketsFor(t.name, overrides) {
      t := SomeInBucket(tools[..|tools| - 1], k, overrides);
    }
  }

  /** A namespaced name has a double underscore, which no built-in name has. */
  lemma NamespacedIsNotBuiltIn(server: string, tool: string)
    ensures Namespaced(server, tool) !in BUILTIN_RESEARCH_TOOL_NAMES
  {
    var s := Namespaced(server, tool);
    assert s[|server|] == '_' && s[|server| + 1] == '_';
    forall b | b in BUILTIN_RESEARCH_TOOL_NAMES
      ensures forall k :: 0 <= k && k + 1 < |b| ==> !(b[k] == '_' && b[k + 1] == '_')
    {
    }
  }

  lemma {:induction false} DiscoveredIsNotBuiltIn(servers: seq<Server>, t: Tool)
    requires t in Discovered(servers)
    ensures t.name !in BUILTIN_RESEARCH_TOOL_NAMES
    decreases |servers|
  {
    var last := servers[|servers| - 1];
    if t in Discovered(servers[..|servers| - 1]) {
      DiscoveredIsNotBuiltIn(servers[..|servers| - 1], t);
    } else {
      var i :| 0 <= i < |last.tools| && RenamedAll(last.name, last.tools)[i] == t;
      NamespacedIsNotBuiltIn(last.name, last.tools[i].name);
    }
  }

  /** Asking for the listed names asks for the whole contents. */
  lemma ListedNamesFind(registry: ToolRegistry, names: seq<string>)
    requires registry.Valid() && |names| == |registry.Contents()|
    requires forall i :: 0 <= i < |names| ==> names[i] == registry.Contents()[i].name
    ensures forall i :: 0 <= i < |names| ==>
      names[i] in registry.tools && registry.tools[names[i]] == registry.Contents()[i]
  {
    forall i | 0 <= i < |names|
      ensures names[i] in registry.tools && registry.tools[names[i]] == registry.Contents()[i]
    {
      assert registry.order[i] in registry.order && registry.tools[registry.order[i]].name == registry.order[i];
    }
  }

  /**
   End to end: if discovery succeeds the registry is built without losing a tool, and with no
   overrides the researcher binds exactly the built-ins and the workspace exactly the
   discovered tools, both in registration order.
   */
  method WireTools(servers: seq<Server>, webSearch: bool)
    returns (r: Wiring<seq<Tool>>, research: seq<Tool>, workspace: seq<Tool>)
    ensures r.Built? <==> DistinctNames(Discovered(servers))
    ensures r.Built? ==> r.value == BuiltIns(webSearch) + Discovered(servers)
    ensures r.Built? ==> research == BuiltIns(webSearch) && workspace == Discovered(servers)
  {
    research, workspace := [], [];
    var discovered := Bootstrap(servers);
    if discovered.Collision? {
      return Collision(discovered.name), research, workspace;
    }
    var mcp := discovered.value;
    BuiltInsAreDistinct(webSearch);
    forall t | t in mcp
      ensures t.name !in BUILTIN_RESEARCH_TOOL_NAMES
    {
      DiscoveredIsNotBuiltIn(servers, t);
    }
    var registry, built := BuildRegistry(webSearch, mcp);
    var names := registry.ListAvailable();
    var all := registry.GetTools(names);
    ListedNamesFind(registry, names);
    assert all.Found? && all.tools == registry.Contents();
    r := Built(all.tools);
    research, workspace := PartitionTools(all.tools, map[]);
    WiredPartition(servers, webSearch);
  }

  lemma WiredPartition(servers: seq<Server>, webSearch: bool)
    ensures InBucket(BuiltIns(webSearch) + Discovered(servers), RESEARCHER, map[]) == BuiltIns(webSearch)
    ensures InBucket(BuiltIns(webSearch) + Discovered(servers), WORKSPACE, map[]) == Discovered(servers)
  {
    BuiltInsAreDistinct(webSearch);
    forall t | t in Discovered(servers)
      ensures t.name !in BUILTIN_RESEARCH_TOOL_NAMES
    {
      DiscoveredIsNotBuiltIn(servers, t);
    }
    assert forall t :: t in BuiltIns(webSearch) ==> t.name in Names(BuiltIns(webSearch));
    DefaultPartition(BuiltIns(webSearch), Discovered(servers));
  }

  lemma DefaultPartition(builtIns: seq<Tool>, mcp: seq<Tool>)
    requires forall t :: t in builtIns ==> t.name in BUILTIN_RESEARCH_TOOL_NAMES
    requires forall t :: t in mcp ==> t.name !in BUILTIN_RESEARCH_TOOL_NAMES
    ensures InBucket(builtIns + mcp, RESEARCHER, map[]) == builtIns
    ensures InBucket(builtIns + mcp, WORKSPACE, map[]) == mcp
  {
    InBucketConcat(builtIns, mcp, RESEARCHER, map[]);
    InBucketConcat(builtIns, mcp, WORKSPACE, map[]);
    InBucketAll(builtIns, RESEARCHER, map[]);
    InBucketNone(mcp, RESEARCHER, map[]);
    InBucketNone(builtIns, WORKSPACE, map[]);
    InBucketAll(mcp, WORKSPACE, map[]);
  }

  // ---- What is registered and what discovery changes ----------------------------------------------

  /** Web search is registered exactly with its key, the other two always, in this order. */
  lemma BuiltInNames(webSearch: bool)
    ensures var tools := BuiltIns(webSearch);
            && ("web_search" in Names(tools) <==> webSearch)
            && "rag_search" in Names(tools) && "get_local_time" in Names(tools)
            && |tools| == (if webSearch then 3 else 2)
            && tools[|tools| - 2].name == "rag_search" && tools[|tools| - 1].name == "get_local_time"
            && (webSearch ==> tools[0].name == "web_search")
  {
    var tools := BuiltIns(webSearch);
    assert tools[|tools| - 2] in tools && tools[|tools| - 1] in tools;
    assert |"web_search"| == 10 && |"get_local_time"| == 14 && "rag_search"[0] == 'r';
    if webSearch {
      assert tools[0] in tools;
    }
  }

  /** Discovery changes a tool's name and description only: it stays the same tool. */
  lemma RenamedReads(server: string, t: Tool)
    ensures Renamed(server, t).name == server + "__" + t.name && Renamed(server, t).origin == t.origin
    ensures var text := Text.Strip(t.description);
            Renamed(server, t).description == if text == "" then "[" + server + "]" else "[" + server + "] " + text
  {
    var text := Text.Strip(t.description);
    var label_ := "[" + server + "]";
    Text.StripByBare(t.description, Text.IsSpace);
    assert label_[0] == '[' && label_[|label_| - 1] == ']';
    if text == "" {
      assert "" + label_ + " " == "[" + server + "] " + text;
      Text.StripAround("", label_, " ", Text.IsSpace);
    } else {
      var full := "[" + server + "] " + text;
      assert full[0] == '[' && full[|full| - 1] == text[|text| - 1];
      Text.StripByBare(full, Text.IsSpace);
    }
  }

  /** The tools of one more server come last, renamed one by one in their order. */
  lemma DiscoveredSnoc(servers: seq<Server>, server: Server)
    ensures Discovered([]) == []
    ensures var before, all := Discovered(servers), Discovered(servers + [server]);
            && |all| == |before| + |server.tools|
            && before <= all
            && forall i :: 0 <= i < |server.tools| ==> all[|before| + i] == Renamed(server.name, server.tools[i])
  {
    assert (servers + [server])[..|servers|] == servers;
  }

  /** A bucket holds exactly the tools its name's override, or else the default, assigns to it. */
  lemma {:induction false} InBucketIff(tools: seq<Tool>, k: Bucket, overrides: Overrides, t: Tool)
    ensures t in InBucket(tools, k, overrides)
            <==> t in tools
                 && if t.name in overrides then k in overrides[t.name]
                    else (k == RESEARCHER <==> t.name in {"rag_search", "web_search", "get_local_time"})
  {
    if tools != [] {
      InBucketIff(tools[..|tools| - 1], k, overrides, t);
      assert tools == tools[..|tools| - 1] + [tools[|tools| - 1]];
    }
  }
}
