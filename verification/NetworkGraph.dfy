/** AddRemoteGraph: remote hosts beside the local graph, their ownership edges, and the verified routes
    between them. */
module NetworkGraph {
  import opened Results
  import Numerals
  import Ordering
  import opened GraphModel
  import opened NetworkRoutes

  const EMPTY := Graph([], [], [])

  // ---- One host ----

  function RuntimeNodeId(id: string): string { "remote-runtime:" + id }

  function RemoteGroupId(id: string): string { "remote-app:" + id }

  predicate HostChosen(o: Options, h: RemoteHost) { o.host == "" || o.host == h.id }

  predicate InGroup(o: Options, e: RemoteEndpoint) { o.group == "" || o.group == RemoteGroupId(e.applicationId) }

  predicate KindChosen(o: Options, e: RemoteEndpoint) {
    && (e.kind == "T" ==> o.topics) && (e.kind == "P" ==> o.parameters)
    && (e.kind == "S" ==> o.services) && (e.kind == "A" ==> o.actions)
  }

  function KindOf(e: RemoteEndpoint): GraphKind {
    if e.kind == "T" then TopicKind
    else if e.kind == "P" then ParameterKind
    else if e.kind == "S" then ServiceKind
    else ActionKind
  }

  function HeadingNode(h: RemoteHost): GraphNode {
    var verdict := if h.compatibility == "COMPATIBLE" then h.compatibility else "INCOMPATIBLE: " + h.compatibility;
    GraphNode("remote-host:" + h.id,
              h.text + " " + h.state + " " + verdict + " FW " + h.frameworkVersion + " Net " + h.networkVersion,
              "", HostKind, NO_RUNTIME, [], h.id, h.state == "LOST")
  }

  function RuntimeNode(h: RemoteHost, e: RemoteEndpoint): GraphNode {
    GraphNode(RuntimeNodeId(e.runtimeId), e.element, RemoteGroupId(e.applicationId), ElementKind, NO_RUNTIME, [], h.id,
              h.state == "LOST")
  }

  function EndpointNode(h: RemoteHost, e: RemoteEndpoint): GraphNode {
    GraphNode(EndpointNodeId(e.id),
              e.kind + ": " + e.name + " [" + e.role + "]" + (if e.diagnostic == "" then "" else " [PAIR WARNING]"),
              RemoteGroupId(e.applicationId), KindOf(e), NO_RUNTIME, [], h.id, h.state == "LOST")
  }

  predicate IsProvider(e: RemoteEndpoint) { e.role == "PUBLISHER" || e.role == "OWNER" || e.role == "SERVER" }

  /** Providers point from runtime to endpoint, topic and parameter users the other way; nothing is inferred for
      others. */
  function OwnershipEdge(e: RemoteEndpoint): seq<GraphEdge> {
    var role := e.role + " metadata ownership";
    if IsProvider(e) then [GraphEdge(RuntimeNodeId(e.runtimeId), EndpointNodeId(e.id), role, NO_ENDPOINT, false, "")]
    else if e.kind == "T" || e.kind == "P"
    then [GraphEdge(EndpointNodeId(e.id), RuntimeNodeId(e.runtimeId), role, NO_ENDPOINT, false, "")]
    else []
  }

  /** The last endpoint of a group labels it. */
  function GroupText(es: seq<RemoteEndpoint>, group: string): Option<string> {
    if es == [] then None else
      var (before, e) := (es[..|es| - 1], es[|es| - 1]);
      if RemoteGroupId(e.applicationId) == group then Some(e.application + " [" + e.applicationId + "]")
      else GroupText(before, group)
  }

  /** The first endpoint to mention a node id decides the node. */
  function NodeNamed(h: RemoteHost, o: Options, es: seq<RemoteEndpoint>, id: string): Option<GraphNode> {
    if es == [] then None else
      var (before, e) := (es[..|es| - 1], es[|es| - 1]);
      var earlier := NodeNamed(h, o, before, id);
      if earlier.Some? || !InGroup(o, e) then earlier
      else if id == RuntimeNodeId(e.runtimeId) then Some(RuntimeNode(h, e))
      else if KindChosen(o, e) && id == EndpointNodeId(e.id) then Some(EndpointNode(h, e))
      else None
  }

  function OwnershipEdges(o: Options, es: seq<RemoteEndpoint>): seq<GraphEdge> {
    if es == [] then [] else
      var (before, e) := (es[..|es| - 1], es[|es| - 1]);
      OwnershipEdges(o, before) + if InGroup(o, e) && KindChosen(o, e) then OwnershipEdge(e) else []
  }

  function NodeIdKey(n: GraphNode): seq<Ordering.Atom> { [Ordering.Text(n.id)] }

  predicate Headed(o: Options, h: RemoteHost) { o.group == "" || GroupText(h.endpoints, o.group).Some? }

  /** What a host adds: its groups in order, its heading, its nodes in order of id, and its ownership edges. */
  ghost predicate IsPart(h: RemoteHost, o: Options, part: Graph) {
    && Ordering.KeySorted(GroupKey, part.groups)
    && (forall g: GraphGroup :: g in part.groups <==> g.host == h.id && GroupText(h.endpoints, g.id) == Some(g.text))
    && part.edges == OwnershipEdges(o, h.endpoints)
    && exists nodes ::
         part.nodes == (if Headed(o, h) then [HeadingNode(h)] else []) + nodes
         && AreHostNodes(h, o, nodes)
  }

  ghost predicate AreHostNodes(h: RemoteHost, o: Options, nodes: seq<GraphNode>) {
    Ordering.KeySorted(NodeIdKey, nodes) && forall n: GraphNode :: n in nodes <==>
        NodeNamed(h, o, h.endpoints, n.id) == Some(n)
  }

  function Emplaced(m: map<string, GraphNode>, n: GraphNode): map<string, GraphNode> {
    if n.id in m then m else m[n.id := n]
  }

  ghost predicate HostMatches(h: RemoteHost, o: Options, es: seq<RemoteEndpoint>, nodes: map<string, GraphNode>,
                              groups: map<string, string>)
  {
    && (forall id: string :: Lookup(nodes, id) == NodeNamed(h, o, es, id))
    && (forall id: string :: Lookup(groups, id) == GroupText(es, id))
  }

  function NodesWith(h: RemoteHost, o: Options, nodes: map<string, GraphNode>,
                     e: RemoteEndpoint): map<string, GraphNode>
  {
    if !InGroup(o, e) then nodes
    else if !KindChosen(o, e) then Emplaced(nodes, RuntimeNode(h, e))
    else Emplaced(Emplaced(nodes, RuntimeNode(h, e)), EndpointNode(h, e))
  }

  lemma EndpointNoted(h: RemoteHost, o: Options, es: seq<RemoteEndpoint>, nodes: map<string, GraphNode>,
                      groups: map<string, string>)
    requires es != [] && HostMatches(h, o, es[..|es| - 1], nodes, groups)
    ensures var e := es[|es| - 1];
            HostMatches(h, o, es, NodesWith(h, o, nodes, e),
                        groups[RemoteGroupId(e.applicationId) := e.application + " [" + e.applicationId + "]"])
  {
    var (before, e) := (es[..|es| - 1], es[|es| - 1]);
    var now := groups[RemoteGroupId(e.applicationId) := e.application + " [" + e.applicationId + "]"];
    forall id: string ensures Lookup(now, id) == GroupText(es, id) {
      hide RemoteGroupId;
      assert Lookup(groups, id) == GroupText(before, id);
    }
    RuntimeNotEndpoint(e);
    forall id: string ensures Lookup(NodesWith(h, o, nodes, e), id) == NodeNamed(h, o, es, id) {
      hide RuntimeNodeId, EndpointNodeId, RemoteGroupId, InGroup, KindChosen;
      assert Lookup(nodes, id) == NodeNamed(h, o, before, id);
    }
  }

  lemma RuntimeNotEndpoint(e: RemoteEndpoint)
    ensures RuntimeNodeId(e.runtimeId) != EndpointNodeId(e.id)
  {
    assert RuntimeNodeId(e.runtimeId)[7] == 'r' && EndpointNodeId(e.id)[7] == 'e';
  }

  method CollectHostNodes(h: RemoteHost, o: Options)
    returns (nodes: map<string, GraphNode>, groups: map<string, string>, edges: seq<GraphEdge>)
    ensures HostMatches(h, o, h.endpoints, nodes, groups) && edges == OwnershipEdges(o, h.endpoints)
  {
    hide NodeNamed, GroupText, Emplaced, RuntimeNode, EndpointNode, InGroup, KindChosen, OwnershipEdge, RemoteGroupId,
         EndpointNodeId,
         RuntimeNodeId, HostMatches;
    nodes, groups, edges := map[], map[], [];
    var es := h.endpoints;
    NothingNoted(h, o, nodes, groups);
    assert es[..0] == [];
    for i := 0 to |es|
      invariant HostMatches(h, o, es[..i], nodes, groups) && edges == OwnershipEdges(o, es[..i])
    {
      var e := es[i];
      assert es[..i + 1][..i] == es[..i];
      EndpointNoted(h, o, es[..i + 1], nodes, groups);
      groups := groups[RemoteGroupId(e.applicationId) := e.application + " [" + e.applicationId + "]"];
      if InGroup(o, e) {
        var runtime := RuntimeNode(h, e);
        nodes := Emplaced(nodes, runtime);
        if KindChosen(o, e) {
          nodes := Emplaced(nodes, EndpointNode(h, e));
          edges := edges + OwnershipEdge(e);
        }
      }
    }
    assert es[..|es|] == es;
  }

  lemma NothingNoted(h: RemoteHost, o: Options, nodes: map<string, GraphNode>, groups: map<string, string>)
    requires nodes == map[] && groups == map[]
    ensures HostMatches(h, o, [], nodes, groups)
  {
  }

  method AddHost(h: RemoteHost, o: Options) returns (part: Graph)
    ensures IsPart(h, o, part)
  {
    hide NodeNamed, GroupText, OwnershipEdges, HeadingNode, Ordering.KeyLess;
    var nodes, groups, edges := CollectHostNodes(h, o);
    var heading := if o.group == "" || o.group in groups then [HeadingNode(h)] else [];
    assert Lookup(groups, o.group) == GroupText(h.endpoints, o.group);
    var choices := ListHostGroups(h, groups);
    var listed := ListNodes(h, o, nodes);
    part := Graph(choices, heading + listed, edges);
    forall g: GraphGroup ensures g in part.groups <==> g.host == h.id && GroupText(h.endpoints, g.id) == Some(g.text) {
      assert Lookup(groups, g.id) == GroupText(h.endpoints, g.id);
    }
  }

  method ListHostGroups(h: RemoteHost, groups: map<string, string>) returns (r: seq<GraphGroup>)
    ensures Ordering.KeySorted(GroupKey, r)
    ensures forall g: GraphGroup :: g in r <==> g.host == h.id && Lookup(groups, g.id) == Some(g.text)
  {
    hide Ordering.KeyLess;
    var all := set id | id in groups :: GraphGroup(id, groups[id], h.id);
    forall x, y | x in all && y in all && GroupKey(x) == GroupKey(y) ensures x == y {
      assert GroupKey(x)[0] == GroupKey(y)[0];
    }
    r := Ordering.InOrder(GroupKey, all);
  }

  method ListNodes(h: RemoteHost, o: Options, nodes: map<string, GraphNode>) returns (r: seq<GraphNode>)
    requires forall id: string :: Lookup(nodes, id) == NodeNamed(h, o, h.endpoints, id)
    ensures AreHostNodes(h, o, r)
  {
    hide Ordering.KeyLess, NodeNamed;
    var all := set id | id in nodes :: nodes[id];
    forall id | id in nodes ensures nodes[id].id == id {
      assert Lookup(nodes, id) == NodeNamed(h, o, h.endpoints, id);
      NamedHasId(h, o, h.endpoints, id);
    }
    forall x, y | x in all && y in all && NodeIdKey(x) == NodeIdKey(y) ensures x == y {
      assert NodeIdKey(x)[0] == NodeIdKey(y)[0];
    }
    r := Ordering.InOrder(NodeIdKey, all);
    forall n: GraphNode ensures n in r <==> NodeNamed(h, o, h.endpoints, n.id) == Some(n) {
      assert Lookup(nodes, n.id) == NodeNamed(h, o, h.endpoints, n.id);
    }
  }

  /** Every node a host draws carries its own id, belongs to that host, and is never a heading. */
  lemma {:induction false} NamedHasId(h: RemoteHost, o: Options, es: seq<RemoteEndpoint>, id: string)
    requires NodeNamed(h, o, es, id).Some?
    ensures var n := NodeNamed(h, o, es, id).value; n.id == id && n.host == h.id && n.kind != HostKind
    ensures var n := NodeNamed(h, o, es, id).value; o.group == "" || n.group == o.group
  {
    if NodeNamed(h, o, es[..|es| - 1], id).Some? {
      NamedHasId(h, o, es[..|es| - 1], id);
    }
  }

  // ---- The whole ----

  function BaseGraph(local: Graph, o: Options): Graph {
    if !o.local || (o.host != "" && o.host != "local") then EMPTY else local
  }

  function ChosenHosts(hosts: seq<RemoteHost>, o: Options): seq<RemoteHost> {
    if hosts == [] then [] else
      var (before, h) := (hosts[..|hosts| - 1], hosts[|hosts| - 1]);
      ChosenHosts(before, o) + if HostChosen(o, h) then [h] else []
  }

  function Joined(base: Graph, parts: seq<Graph>): Graph {
    if parts == [] then base else
      var (before, part) := (Joined(base, parts[..|parts| - 1]), parts[|parts| - 1]);
      Graph(before.groups + part.groups, before.nodes + part.nodes, before.edges + part.edges)
  }

  ghost predicate AreParts(hosts: seq<RemoteHost>, o: Options, parts: seq<Graph>) {
    |parts| == |hosts| && forall i :: 0 <= i < |hosts| ==> IsPart(hosts[i], o, parts[i])
  }

  ghost predicate IsRemoteGraph(local: Graph, hosts: seq<RemoteHost>, o: Options, now: Numerals.Uint64,
                                parts: seq<Graph>, keys: seq<RouteKey>, g: Graph)
  {
    if !o.remote then parts == [] && keys == [] && g == BaseGraph(local, o)
    else
      var joined := Joined(BaseGraph(local, o), parts);
      && AreParts(ChosenHosts(hosts, o), o, parts)
      && HasRoutes(joined, hosts, now, keys, g)
  }

  method AddRemoteGraph(local: Graph, hosts: seq<RemoteHost>, o: Options, now: Numerals.Uint64)
    returns (g: Graph)
    ensures exists parts, keys :: IsRemoteGraph(local, hosts, o, now, parts, keys, g)
  {
    hide IsPart, HasRoutes, HostChosen;
    g := local;
    ghost var parts := [];
    if !o.local || (o.host != "" && o.host != "local") { g := EMPTY; }
    if !o.remote {
      assert IsRemoteGraph(local, hosts, o, now, [], [], g);
      return;
    }
    for i := 0 to |hosts|
      invariant AreParts(ChosenHosts(hosts[..i], o), o, parts) && g == Joined(BaseGraph(local, o), parts)
    {
      assert hosts[..i + 1][..i] == hosts[..i];
      if HostChosen(o, hosts[i]) {
        var part := AddHost(hosts[i], o);
        assert (parts + [part])[..|parts|] == parts;
        g := Graph(g.groups + part.groups, g.nodes + part.nodes, g.edges + part.edges);
        parts := parts + [part];
      }
    }
    assert hosts[..|hosts|] == hosts;
    g := AddVerifiedRoutes(g, hosts, now);
    ghost var keys :| HasRoutes(Joined(BaseGraph(local, o), parts), hosts, now, keys, g);
    assert IsRemoteGraph(local, hosts, o, now, parts, keys, g);
  }
}
