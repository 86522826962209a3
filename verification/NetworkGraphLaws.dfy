/** Laws of the combined graph: it is determined, nothing in it dangles, and ownership never crosses hosts. */
module NetworkGraphLaws {
  import Results
  import Numerals
  import Ordering
  import opened GraphModel
  import GraphFilter
  import opened NetworkRoutes
  import opened NetworkGraph

  // ---- The result is determined by the inputs ----

  lemma PartUnique(h: RemoteHost, o: Options, one: Graph, two: Graph)
    requires IsPart(h, o, one) && IsPart(h, o, two)
    ensures one == two
  {
    hide AreHostNodes, Ordering.KeySorted, GroupText, OwnershipEdges, HeadingNode, Headed, GroupKey;
    var heading := if Headed(o, h) then [HeadingNode(h)] else [];
    var m :| one.nodes == heading + m && AreHostNodes(h, o, m);
    var n :| two.nodes == heading + n && AreHostNodes(h, o, n);
    HostNodesUnique(h, o, m, n);
    Ordering.KeySortedUnique(GroupKey, one.groups, two.groups);
  }

  lemma HostNodesUnique(h: RemoteHost, o: Options, m: seq<GraphNode>, n: seq<GraphNode>)
    requires AreHostNodes(h, o, m) && AreHostNodes(h, o, n)
    ensures m == n
  {
    hide Ordering.KeySorted, NodeIdKey, NodeNamed;
    Ordering.KeySortedUnique(NodeIdKey, m, n);
  }

  lemma RemoteGraphUnique(local: Graph, hosts: seq<RemoteHost>, o: Options, now: Numerals.Uint64, parts: seq<Graph>,
                          keys: seq<RouteKey>,
                          g: Graph, others: seq<Graph>, otherKeys: seq<RouteKey>, k: Graph)
    requires IsRemoteGraph(local, hosts, o, now, parts, keys, g)
    requires IsRemoteGraph(local, hosts, o, now, others, otherKeys, k)
    ensures g == k
  {
    hide IsPart, Claims, BothSides, Ordering.KeySorted, Joined;
    if o.remote {
      var chosen := ChosenHosts(hosts, o);
      forall i | 0 <= i < |chosen| ensures parts[i] == others[i] { PartUnique(chosen[i], o, parts[i], others[i]); }
      assert parts == others;
      Ordering.KeySortedUnique(RouteOrder, keys, otherKeys);
    }
  }

  // ---- Ownership ----

  /** Two nodes of one host: a runtime and an endpoint other than a runtime. */
  ghost predicate Owns(nodes: seq<GraphNode>, host: string, runtime: GraphNode, endpoint: GraphNode) {
    && runtime in nodes && endpoint in nodes && runtime.host == host && endpoint.host == host
    && runtime.kind == ElementKind && endpoint.kind != ElementKind && endpoint.kind != HostKind
  }

  lemma NodeIdsApart(a: string, b: string)
    ensures RuntimeNodeId(a) != EndpointNodeId(b)
  {
    assert RuntimeNodeId(a)[7] == 'r' && EndpointNodeId(b)[7] == 'e';
  }

  lemma {:induction false} RuntimeNamed(h: RemoteHost, o: Options, es: seq<RemoteEndpoint>, e: RemoteEndpoint)
    requires e in es && InGroup(o, e)
    ensures var n := NodeNamed(h, o, es, RuntimeNodeId(e.runtimeId)); n.Some? && n.value.kind == ElementKind
  {
    hide InGroup, KindChosen, RuntimeNodeId, EndpointNodeId;
    var (before, last) := (es[..|es| - 1], es[|es| - 1]);
    assert es == before + [last];
    NodeIdsApart(e.runtimeId, last.id);
    if NodeNamed(h, o, before, RuntimeNodeId(e.runtimeId)).Some? {
      RuntimeKind(h, o, before, e.runtimeId);
    } else if e in before {
      RuntimeNamed(h, o, before, e);
    }
  }

  lemma {:induction false} RuntimeKind(h: RemoteHost, o: Options, es: seq<RemoteEndpoint>, id: string)
    requires NodeNamed(h, o, es, RuntimeNodeId(id)).Some?
    ensures NodeNamed(h, o, es, RuntimeNodeId(id)).value.kind == ElementKind
  {
    hide InGroup, KindChosen, RuntimeNodeId, EndpointNodeId;
    var (before, last) := (es[..|es| - 1], es[|es| - 1]);
    NodeIdsApart(id, last.id);
    if NodeNamed(h, o, before, RuntimeNodeId(id)).Some? { RuntimeKind(h, o, before, id); }
  }

  lemma {:induction false} EndpointNamed(h: RemoteHost, o: Options, es: seq<RemoteEndpoint>, e: RemoteEndpoint)
    requires e in es && InGroup(o, e) && KindChosen(o, e)
    ensures var n := NodeNamed(h, o, es, EndpointNodeId(e.id));
            n.Some? && n.value.kind != ElementKind && n.value.kind != HostKind
  {
    hide InGroup, KindChosen, RuntimeNodeId, EndpointNodeId;
    var (before, last) := (es[..|es| - 1], es[|es| - 1]);
    assert es == before + [last];
    NodeIdsApart(last.runtimeId, e.id);
    if NodeNamed(h, o, before, EndpointNodeId(e.id)).Some? {
      EndpointKind(h, o, before, e.id);
    } else if e in before {
      EndpointNamed(h, o, before, e);
    }
  }

  lemma {:induction false} EndpointKind(h: RemoteHost, o: Options, es: seq<RemoteEndpoint>, id: string)
    requires NodeNamed(h, o, es, EndpointNodeId(id)).Some?
    ensures var n := NodeNamed(h, o, es, EndpointNodeId(id)).value; n.kind != ElementKind && n.kind != HostKind
  {
    hide InGroup, KindChosen, RuntimeNodeId, EndpointNodeId;
    var (before, last) := (es[..|es| - 1], es[|es| - 1]);
    NodeIdsApart(last.runtimeId, id);
    if NodeNamed(h, o, before, EndpointNodeId(id)).Some? { EndpointKind(h, o, before, id); }
  }

  lemma {:induction false} EdgeSource(o: Options, es: seq<RemoteEndpoint>, edge: GraphEdge) returns (e: RemoteEndpoint)
    requires edge in OwnershipEdges(o, es)
    ensures e in es && InGroup(o, e) && KindChosen(o, e) && edge in OwnershipEdge(e)
  {
    hide InGroup, KindChosen, OwnershipEdge;
    var (before, last) := (es[..|es| - 1], es[|es| - 1]);
    if edge in OwnershipEdges(o, before) {
      e := EdgeSource(o, before, edge);
    } else {
      e := last;
    }
  }

  lemma PartHasNode(h: RemoteHost, o: Options, part: Graph, id: string) returns (n: GraphNode)
    requires IsPart(h, o, part) && NodeNamed(h, o, h.endpoints, id).Some?
    ensures n in part.nodes && Results.Some(n) == NodeNamed(h, o, h.endpoints, id) && n.id == id && n.host == h.id
  {
    hide Ordering.KeyLess, GroupText, OwnershipEdges, NodeNamed, HeadingNode;
    n := NodeNamed(h, o, h.endpoints, id).value;
    NamedHasId(h, o, h.endpoints, id);
    var nodes :| part.nodes == (if Headed(o, h) then [HeadingNode(h)] else []) + nodes && AreHostNodes(h, o, nodes);
    assert n in nodes;
  }

  /** An ownership edge joins a runtime and one of its endpoints, both drawn and both of the same host: from the
      runtime when the endpoint provides, to it when a topic or parameter is only used. */
  lemma OwnershipStays(h: RemoteHost, o: Options, part: Graph, edge: GraphEdge)
    returns (e: RemoteEndpoint, runtime: GraphNode, endpoint: GraphNode)
    requires IsPart(h, o, part) && edge in part.edges
    ensures e in h.endpoints && Owns(part.nodes, h.id, runtime, endpoint)
    ensures runtime.id == RuntimeNodeId(e.runtimeId) && endpoint.id == EndpointNodeId(e.id)
    ensures if e.role in {"PUBLISHER", "OWNER", "SERVER"} then edge.start == runtime.id && edge.end == endpoint.id
            else e.kind in {"T", "P"} && edge.start == endpoint.id && edge.end == runtime.id
  {
    hide NodeNamed, GroupText, Ordering.KeySorted, InGroup, KindChosen, RuntimeNodeId, EndpointNodeId, HeadingNode;
    e := EdgeSource(o, h.endpoints, edge);
    RuntimeNamed(h, o, h.endpoints, e);
    EndpointNamed(h, o, h.endpoints, e);
    runtime := PartHasNode(h, o, part, RuntimeNodeId(e.runtimeId));
    endpoint := PartHasNode(h, o, part, EndpointNodeId(e.id));
  }

  // ---- Nothing dangles ----

  ghost predicate HasNode(nodes: seq<GraphNode>, id: string) { exists n :: n in nodes && n.id == id }

  ghost predicate Closed(g: Graph) {
    forall e :: e in g.edges ==> HasNode(g.nodes, e.start) && HasNode(g.nodes, e.end)
  }

  lemma PartClosed(h: RemoteHost, o: Options, part: Graph)
    requires IsPart(h, o, part)
    ensures Closed(part)
  {
    hide IsPart;
    forall e | e in part.edges ensures HasNode(part.nodes, e.start) && HasNode(part.nodes, e.end) {
      var x, runtime, endpoint := OwnershipStays(h, o, part, e);
    }
  }

  lemma {:induction false} JoinedClosed(base: Graph, hosts: seq<RemoteHost>, o: Options, parts: seq<Graph>)
    requires Closed(base) && AreParts(hosts, o, parts)
    ensures Closed(Joined(base, parts))
  {
    hide IsPart, HasNode;
    if parts != [] {
      var n := |parts| - 1;
      JoinedClosed(base, hosts[..n], o, parts[..n]);
      PartClosed(hosts[n], o, parts[n]);
      BothClosed(Joined(base, parts[..n]), parts[n]);
    }
  }

  lemma BothClosed(a: Graph, b: Graph)
    requires Closed(a) && Closed(b)
    ensures Closed(Graph(a.groups + b.groups, a.nodes + b.nodes, a.edges + b.edges))
  {
    assert forall id :: HasNode(a.nodes, id) || HasNode(b.nodes, id) ==> HasNode(a.nodes + b.nodes, id);
  }

  lemma LocalClosed(src: Snapshot, o: Options, local: Graph)
    requires IsGraph(src, o, local)
    ensures Closed(local)
  {
    hide IsGraph;
    forall e | e in local.edges ensures HasNode(local.nodes, e.start) && HasNode(local.nodes, e.end) {
      GraphFilter.EdgesHang(src, o, local, e);
    }
  }

  lemma VisibleIsNode(nodes: seq<GraphNode>, id: string)
    requires id in Visible(nodes)
    ensures HasNode(nodes, id)
  {
  }

  /** Under all options, every edge of the combined graph, local, ownership or verified, has both its ends drawn. */
  lemma NothingDangles(src: Snapshot, local: Graph, hosts: seq<RemoteHost>, o: Options, now: Numerals.Uint64,
                       parts: seq<Graph>, keys: seq<RouteKey>, g: Graph)
    requires IsGraph(src, o, local) && IsRemoteGraph(local, hosts, o, now, parts, keys, g)
    ensures Closed(g)
  {
    hide IsGraph, Joined, Claims, AreVerified, AreParts, Visible, VerifiedEdges;
    LocalClosed(src, o, local);
    assert Closed(BaseGraph(local, o));
    if o.remote {
      var joined := Joined(BaseGraph(local, o), parts);
      JoinedClosed(BaseGraph(local, o), ChosenHosts(hosts, o), o, parts);
      forall e | e in VerifiedEdges(keys) ensures HasNode(joined.nodes, e.start) && HasNode(joined.nodes, e.end) {
        VerifiedHang(hosts, now, joined, keys, e);
        VisibleIsNode(joined.nodes, e.start);
        VisibleIsNode(joined.nodes, e.end);
      }
    }
  }

  // ---- Ownership in the whole graph ----

  lemma {:induction false} FromPart(base: Graph, parts: seq<Graph>, edge: GraphEdge) returns (i: nat)
    requires edge in Joined(base, parts).edges && edge !in base.edges
    ensures i < |parts| && edge in parts[i].edges && forall n :: n in parts[i].nodes ==> n in Joined(base, parts).nodes
  {
    var k := |parts| - 1;
    if edge in parts[k].edges {
      i := k;
    } else {
      i := FromPart(base, parts[..k], edge);
    }
  }

  lemma NetworkKeys(keys: seq<RouteKey>)
    ensures forall e :: e in VerifiedEdges(keys) ==> e.network
  {
  }

  /** In the combined graph, an edge that is neither local nor a verified route joins a runtime and its own endpoint,
      both drawn for the same chosen host, in the direction of ownership: between hosts nothing is inferred. */
  lemma OwnershipInGraph(local: Graph, hosts: seq<RemoteHost>, o: Options, now: Numerals.Uint64, parts: seq<Graph>,
                         keys: seq<RouteKey>,
                         g: Graph, edge: GraphEdge)
    returns (h: RemoteHost, e: RemoteEndpoint, runtime: GraphNode, endpoint: GraphNode)
    requires IsRemoteGraph(local, hosts, o, now, parts, keys, g)
    requires edge in g.edges && edge !in BaseGraph(local, o).edges && !edge.network
    ensures h in hosts && HostChosen(o, h) && e in h.endpoints && Owns(g.nodes, h.id, runtime, endpoint)
    ensures runtime.id == RuntimeNodeId(e.runtimeId) && endpoint.id == EndpointNodeId(e.id)
    ensures if e.role in {"PUBLISHER", "OWNER", "SERVER"} then edge.start == runtime.id && edge.end == endpoint.id
            else e.kind in {"T", "P"} && edge.start == endpoint.id && edge.end == runtime.id
  {
    hide IsPart, Joined, AreVerified, VerifiedEdges, RuntimeNodeId, EndpointNodeId;
    NetworkKeys(keys);
    var chosen := ChosenHosts(hosts, o);
    ChosenAre(hosts, o);
    var i := FromPart(BaseGraph(local, o), parts, edge);
    h := chosen[i];
    e, runtime, endpoint := OwnershipStays(h, o, parts[i], edge);
  }

  // ---- The host filter ----

  lemma {:induction false} ChosenAre(hosts: seq<RemoteHost>, o: Options)
    ensures forall h :: h in ChosenHosts(hosts, o) <==> h in hosts && HostChosen(o, h)
  {
    if hosts != [] {
      ChosenAre(hosts[..|hosts| - 1], o);
      assert hosts == hosts[..|hosts| - 1] + [hosts[|hosts| - 1]];
    }
  }

  lemma PartHosts(h: RemoteHost, o: Options, part: Graph, n: GraphNode)
    requires IsPart(h, o, part) && n in part.nodes
    ensures n.host == h.id
  {
    hide Ordering.KeySorted, GroupText, OwnershipEdges, NodeNamed;
    var nodes :| part.nodes == (if Headed(o, h) then [HeadingNode(h)] else []) + nodes && AreHostNodes(h, o, nodes);
    if n in nodes { NamedHasId(h, o, h.endpoints, n.id); }
  }

  lemma {:induction false} JoinedHosts(hosts: seq<RemoteHost>, o: Options, parts: seq<Graph>, n: GraphNode)
    requires AreParts(hosts, o, parts) && n in Joined(EMPTY, parts).nodes
    ensures exists h :: h in hosts && n.host == h.id
  {
    hide IsPart;
    var k := |parts| - 1;
    if n in Joined(EMPTY, parts[..k]).nodes {
      JoinedHosts(hosts[..k], o, parts[..k], n);
    } else {
      PartHosts(hosts[k], o, parts[k], n);
    }
  }

  /** Choosing a remote host leaves its nodes only, and a verified route only where both its ends are that host's. */
  lemma OneHostOnly(local: Graph, hosts: seq<RemoteHost>, o: Options, now: Numerals.Uint64, parts: seq<Graph>,
                    keys: seq<RouteKey>, g: Graph)
    requires IsRemoteGraph(local, hosts, o, now, parts, keys, g) && o.host != "" && o.host != "local"
    ensures forall n :: n in g.nodes ==> n.host == o.host
    ensures forall e :: e in g.edges && e.network ==>
              exists a, b :: a in g.nodes && b in g.nodes && a.id == e.start && b.id == e.end
                  && a.host == b.host == o.host
  {
    hide Claims, AreVerified, AreParts, Joined;
    if o.remote {
      ChosenAre(hosts, o);
      var joined := Joined(EMPTY, parts);
      assert joined == Joined(BaseGraph(local, o), parts);
      forall n | n in joined.nodes ensures n.host == o.host { JoinedHosts(ChosenHosts(hosts, o), o, parts, n); }
      JoinedEdges(ChosenHosts(hosts, o), o, parts);
      forall e | e in g.edges && e.network
        ensures exists a, b ::
                  a in g.nodes && b in g.nodes && a.id == e.start && b.id == e.end && a.host == b.host == o.host
      {
        assert e in joined.edges || e in VerifiedEdges(keys);
        VerifiedHang(hosts, now, joined, keys, e);
      }
    }
  }

  lemma {:induction false} JoinedEdges(hosts: seq<RemoteHost>, o: Options, parts: seq<Graph>)
    requires AreParts(hosts, o, parts)
    ensures forall e :: e in Joined(EMPTY, parts).edges ==> !e.network
  {
    var k := |parts| - 1;
    if parts != [] {
      JoinedEdges(hosts[..k], o, parts[..k]);
      OwnershipIsLocal(o, hosts[k].endpoints);
    }
  }

  lemma {:induction false} OwnershipIsLocal(o: Options, es: seq<RemoteEndpoint>)
    ensures forall e :: e in OwnershipEdges(o, es) ==> !e.network
  {
    if es != [] { OwnershipIsLocal(o, es[..|es| - 1]); }
  }
}
