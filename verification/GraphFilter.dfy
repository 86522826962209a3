/** Choosing a group gives the graph cut down to that group, and when it does not; edges of a graph hang together. */
module GraphFilter {
  import Results
  import opened Ordering
  import opened GraphModel

  // ---- Cutting a graph down to one group ----

  function Owners(nodes: seq<GraphNode>, group: string): set<RuntimeIdentity> {
    set n | n in nodes && n.kind == ElementKind && n.group == group :: n.runtime
  }

  function CutNode(owners: set<RuntimeIdentity>, n: GraphNode): GraphNode {
    n.(endpoints := Filter((e: GraphEndpoint) => e.identity.runtime in owners, n.endpoints))
  }

  predicate Stays(group: string, n: GraphNode) {
    if n.kind == ElementKind then n.group == group else n.endpoints != []
  }

  function CutNodes(owners: set<RuntimeIdentity>, group: string, nodes: seq<GraphNode>): seq<GraphNode> {
    Filter((n: GraphNode) => Stays(group, n), seq(|nodes|, i requires 0 <= i < |nodes| => CutNode(owners, nodes[i])))
  }

  /** Keeps every group; of the nodes, the group's elements and the endpoints they own; and the edges of those. */
  function RestrictGraph(g: Graph, group: string): Graph {
    var owners := Owners(g.nodes, group);
    Graph(g.groups, CutNodes(owners, group, g.nodes), Filter((e: GraphEdge) => e.endpoint.runtime in owners, g.edges))
  }

  /** Every identity found in the group has its last element there too. */
  predicate LastStays(elements: seq<Element>, group: string) {
    forall e :: e in elements && GroupId(e) == group ==>
      LastShown(elements, "", e.identity).Some? && GroupId(LastShown(elements, "", e.identity).value) == group
  }

  // ---- Elements ----

  lemma {:induction false} LastInGroup(elements: seq<Element>, group: string, x: RuntimeIdentity)
    requires LastShown(elements, "", x).Some? && GroupId(LastShown(elements, "", x).value) == group
    ensures LastShown(elements, group, x) == LastShown(elements, "", x)
  {
    var e := elements[|elements| - 1];
    if !(Shown(e, group) && e.identity == x) {
      LastInGroup(elements[..|elements| - 1], group, x);
    }
  }

  lemma ShownInGroup(elements: seq<Element>, group: string, x: RuntimeIdentity)
    requires group != "" && LastStays(elements, group)
    ensures var last := LastShown(elements, "", x);
            LastShown(elements, group, x) == if last.Some? && GroupId(last.value) == group then last else Results.None
  {
    var last := LastShown(elements, "", x);
    if last.Some? && GroupId(last.value) == group {
      LastInGroup(elements, group, x);
    }
  }

  lemma OwnersAreShown(src: Snapshot, o: Options, nodes: seq<GraphNode>, x: RuntimeIdentity)
    requires o.group != "" && LastStays(src.elements, o.group) && IsNodes(src, o.(group := ""), nodes)
    ensures x in Owners(nodes, o.group) <==> LastShown(src.elements, o.group, x).Some?
  {
    hide IsChannel, KeySorted, GroupId, ElementId, LastStays, LastShown;
    ShownInGroup(src.elements, o.group, x);
    var last := LastShown(src.elements, "", x);
    if last.Some? {
      assert IsNode(src, o.(group := ""), ElementNode(last.value));
    }
    if x in Owners(nodes, o.group) {
      var n :| n in nodes && n.kind == ElementKind && n.group == o.group && n.runtime == x;
      assert IsNode(src, o.(group := ""), n);
    }
  }

  lemma DrawnInGroup(src: Snapshot, o: Options, nodes: seq<GraphNode>, r: Registration)
    requires o.group != "" && LastStays(src.elements, o.group) && IsNodes(src, o.(group := ""), nodes)
    ensures r in Drawn(src, o) <==> r in Drawn(src, o.(group := "")) && r.identity.runtime in Owners(nodes, o.group)
  {
    hide OfTopics, OfParameters, OfServices, LastStays, LastShown, IsNodes, Owners;
    OwnersAreShown(src, o, nodes, r.identity.runtime);
  }

  // ---- Channels ----

  lemma CutMember(owners: set<RuntimeIdentity>, group: string, nodes: seq<GraphNode>, n: GraphNode)
    ensures n in CutNodes(owners, group, nodes) <==> Stays(group, n) && exists m ::
              m in nodes && n == CutNode(owners, m)
  {
    var cut := seq(|nodes|, i requires 0 <= i < |nodes| => CutNode(owners, nodes[i]));
    if n in cut {
      var i :| 0 <= i < |cut| && cut[i] == n;
      assert nodes[i] in nodes && n == CutNode(owners, nodes[i]);
    }
    if exists m :: m in nodes && n == CutNode(owners, m) {
      var m :| m in nodes && n == CutNode(owners, m);
      var i :| 0 <= i < |nodes| && nodes[i] == m;
      assert cut[i] == n;
    }
  }

  lemma CutSorted(owners: set<RuntimeIdentity>, group: string, nodes: seq<GraphNode>)
    requires KeySorted(NodeKey, nodes)
    ensures KeySorted(NodeKey, CutNodes(owners, group, nodes))
  {
    var cut := seq(|nodes|, i requires 0 <= i < |nodes| => CutNode(owners, nodes[i]));
    forall i, j | 0 <= i < j < |cut| ensures KeyLess(NodeKey(cut[i]), NodeKey(cut[j])) {
      assert NodeKey(cut[i]) == NodeKey(nodes[i]) && NodeKey(cut[j]) == NodeKey(nodes[j]);
    }
    FilterSorted((n: GraphNode) => Stays(group, n), NodeKey, cut);
  }

  /** Cutting a channel of all registrations gives the channel of the kept ones. */
  lemma CutChannel(all: set<Registration>, kept: set<Registration>, owners: set<RuntimeIdentity>, m: GraphNode)
    requires forall r :: r in kept <==> r in all && r.identity.runtime in owners
    requires IsChannel(all, m) && KeySorted(EndpointKey, m.endpoints)
    requires CutNode(owners, m).endpoints != []
    ensures IsChannel(kept, CutNode(owners, m)) && KeySorted(EndpointKey, CutNode(owners, m).endpoints)
  {
    hide ChannelId;
    var n := CutNode(owners, m);
    FilterSorted((e: GraphEndpoint) => e.identity.runtime in owners, EndpointKey, m.endpoints);
    forall e: GraphEndpoint
      ensures e in n.endpoints <==> RegistrationOf(n, e) in kept && ChannelId(RegistrationOf(n, e)) == n.id
    {
      assert RegistrationOf(n, e) == RegistrationOf(m, e);
    }
  }

  /** The registrations that share an id are the endpoints of a channel. */
  lemma ChannelExists(all: set<Registration>, r: Registration) returns (m: GraphNode)
    requires r in all && forall q :: q in all ==> IsChannelKind(q.kind)
    ensures IsChannel(all, m) && KeySorted(EndpointKey, m.endpoints) && m.id == ChannelId(r) && m.kind == r.kind
    ensures m.text == r.name
  {
    var mine := set q | q in all && ChannelId(q) == ChannelId(r) :: GraphEndpoint(q.identity, q.role);
    forall x, y | x in mine && y in mine && EndpointKey(x) == EndpointKey(y)
      ensures x == y
    {
      EndpointKeyInjective(x, y);
    }
    var endpoints := Arrange(EndpointKey, mine);
    m := GraphNode(ChannelId(r), r.name, "", r.kind, NO_RUNTIME, endpoints, "", false);
    assert GraphEndpoint(r.identity, r.role) in mine;
    forall e: GraphEndpoint
      ensures e in endpoints <==> RegistrationOf(m, e) in all && ChannelId(RegistrationOf(m, e)) == m.id
    {
      if e in mine {
        var q :| q in all && ChannelId(q) == ChannelId(r) && e == GraphEndpoint(q.identity, q.role);
        ChannelIdNames(q, r);
        assert RegistrationOf(m, e) == q;
      }
    }
  }

  /** Two sorted channels with the same id are the same node. */
  lemma ChannelsUnique(drawn: set<Registration>, a: GraphNode, b: GraphNode)
    requires IsChannel(drawn, a) && IsChannel(drawn, b) && a.id == b.id
    requires KeySorted(EndpointKey, a.endpoints) && KeySorted(EndpointKey, b.endpoints)
    ensures a == b
  {
    assert a.endpoints[0] in a.endpoints && b.endpoints[0] in b.endpoints;
    ChannelIdNames(RegistrationOf(a, a.endpoints[0]), RegistrationOf(b, b.endpoints[0]));
    assert forall e: GraphEndpoint :: RegistrationOf(a, e) == RegistrationOf(b, e);
    KeySortedUnique(EndpointKey, a.endpoints, b.endpoints);
  }

  lemma ChannelFromCut(all: set<Registration>, kept: set<Registration>, owners: set<RuntimeIdentity>, n: GraphNode)
    returns (m: GraphNode)
    requires forall r :: r in kept <==> r in all && r.identity.runtime in owners
    requires forall q :: q in all ==> IsChannelKind(q.kind)
    requires IsChannel(kept, n) && KeySorted(EndpointKey, n.endpoints)
    ensures IsChannel(all, m) && KeySorted(EndpointKey, m.endpoints) && n == CutNode(owners, m)
  {
    var e := n.endpoints[0];
    assert e in n.endpoints;
    m := ChannelExists(all, RegistrationOf(n, e));
    assert e in m.endpoints && e.identity.runtime in owners;
    var cut := CutNode(owners, m);
    assert e in cut.endpoints;
    CutChannel(all, kept, owners, m);
    ChannelsUnique(kept, n, cut);
  }

  lemma DrawnAreChannels(src: Snapshot, o: Options)
    ensures forall r :: r in Drawn(src, o) ==> IsChannelKind(r.kind)
  {
  }

  // ---- The filter law ----

  lemma NodeFromCut(src: Snapshot, o: Options, nodes: seq<GraphNode>, m: GraphNode)
    requires o.group != "" && LastStays(src.elements, o.group) && IsNodes(src, o.(group := ""), nodes)
    requires m in nodes && Stays(o.group, CutNode(Owners(nodes, o.group), m))
    ensures IsNode(src, o, CutNode(Owners(nodes, o.group), m))
  {
    hide Drawn, LastStays, LastShown, IsChannel, Owners, GroupId, ElementId, KeySorted;
    var all := o.(group := "");
    assert IsNode(src, all, m);
    if m.kind == ElementKind {
      ShownInGroup(src.elements, o.group, m.runtime);
      assert CutNode(Owners(nodes, o.group), m) == m;
    } else {
      forall r ensures r in Drawn(src, o) <==> r in Drawn(src, all) && r.identity.runtime in Owners(nodes, o.group) {
        DrawnInGroup(src, o, nodes, r);
      }
      CutChannel(Drawn(src, all), Drawn(src, o), Owners(nodes, o.group), m);
      ChannelNotElement(Drawn(src, o), CutNode(Owners(nodes, o.group), m));
    }
  }

  lemma ChannelNotElement(drawn: set<Registration>, n: GraphNode)
    requires IsChannel(drawn, n)
    ensures n.kind != ElementKind
  {
  }

  lemma NodeHasCut(src: Snapshot, o: Options, nodes: seq<GraphNode>, n: GraphNode) returns (m: GraphNode)
    requires o.group != "" && LastStays(src.elements, o.group) && IsNodes(src, o.(group := ""), nodes)
    requires IsNode(src, o, n)
    ensures m in nodes && n == CutNode(Owners(nodes, o.group), m) && Stays(o.group, n)
  {
    hide Drawn, LastStays, LastShown, Owners, GroupId, ElementId, KeySorted;
    var all := o.(group := "");
    if n.kind == ElementKind {
      ShownInGroup(src.elements, o.group, n.runtime);
      m := n;
      assert IsNode(src, all, m);
      assert CutNode(Owners(nodes, o.group), m) == m;
    } else {
      forall r ensures r in Drawn(src, o) <==> r in Drawn(src, all) && r.identity.runtime in Owners(nodes, o.group) {
        DrawnInGroup(src, o, nodes, r);
      }
      DrawnAreChannels(src, all);
      m := ChannelFromCut(Drawn(src, all), Drawn(src, o), Owners(nodes, o.group), n);
      assert IsNode(src, all, m);
    }
  }

  lemma RestrictedNodes(src: Snapshot, o: Options, nodes: seq<GraphNode>)
    requires o.group != "" && LastStays(src.elements, o.group) && IsNodes(src, o.(group := ""), nodes)
    ensures IsNodes(src, o, CutNodes(Owners(nodes, o.group), o.group, nodes))
  {
    hide IsNode, CutNodes, CutNode, Owners, LastStays, Stays;
    var owners := Owners(nodes, o.group);
    CutSorted(owners, o.group, nodes);
    forall n: GraphNode ensures n in CutNodes(owners, o.group, nodes) <==> IsNode(src, o, n) {
      CutMember(owners, o.group, nodes, n);
      if n in CutNodes(owners, o.group, nodes) {
        var m :| m in nodes && n == CutNode(owners, m);
        NodeFromCut(src, o, nodes, m);
      }
      if IsNode(src, o, n) {
        var m := NodeHasCut(src, o, nodes, n);
      }
    }
  }

  lemma OwnedInGroup(src: Snapshot, o: Options, nodes: seq<GraphNode>, r: Registration)
    requires o.group != "" && LastStays(src.elements, o.group) && IsNodes(src, o.(group := ""), nodes)
    ensures Owned(src, o, r) <==> r.identity.runtime in Owners(nodes, o.group)
    ensures Owned(src, o, r) ==> Owned(src, o.(group := ""), r)
  {
    hide LastStays, LastShown, IsNodes, Owners;
    OwnersAreShown(src, o, nodes, r.identity.runtime);
    ShownInGroup(src.elements, o.group, r.identity.runtime);
  }

  lemma RestrictedEdges(src: Snapshot, o: Options, g: Graph)
    requires o.group != "" && LastStays(src.elements, o.group) && IsGraph(src, o.(group := ""), g)
    ensures IsEdges(src, o, RestrictGraph(g, o.group).edges)
  {
    hide Drawn, Owners, Owned, LastStays, CutNodes, LastShown, IsGroups, IsNodes, ChannelId, ElementId, KeyLess,
         KeySorted;
    var all := o.(group := "");
    var owners := Owners(g.nodes, o.group);
    FilterSorted((e: GraphEdge) => e.endpoint.runtime in owners, EdgeKey, g.edges);
    forall r ensures r in Drawn(src, o) <==> r in Drawn(src, all) && r.identity.runtime in owners {
      DrawnInGroup(src, o, g.nodes, r);
    }
    forall r: Registration
      ensures Owned(src, o, r) <==> r.identity.runtime in owners
    {
      OwnedInGroup(src, o, g.nodes, r);
    }
    forall r: Registration ensures Owned(src, o, r) ==> Owned(src, all, r) { OwnedInGroup(src, o, g.nodes, r); }
    forall e: GraphEdge ensures e in RestrictGraph(g, o.group).edges <==> IsEdge(src, o, e) {
      if e in g.edges && e.endpoint.runtime in owners {
        var r :| r in Drawn(src, all) && Owned(src, all, r) && e == EdgeOf(r);
        assert r in Drawn(src, o) && Owned(src, o, r);
      }
      if IsEdge(src, o, e) {
        var r :| r in Drawn(src, o) && Owned(src, o, r) && e == EdgeOf(r);
        assert r in Drawn(src, all) && Owned(src, all, r);
        assert IsEdge(src, all, e);
      }
    }
  }

  /** Filtering while building equals building everything and cutting down, exactly when last elements stay in the
      group. */
  lemma FilterRestricts(src: Snapshot, o: Options, g: Graph, f: Graph)
    requires o.group != "" && IsGraph(src, o.(group := ""), g) && IsGraph(src, o, f)
    ensures f == RestrictGraph(g, o.group) <==> LastStays(src.elements, o.group)
  {
    hide CutNodes, Owners, IsNode, IsEdge, KeySorted, LastStays, GroupLabel;
    if LastStays(src.elements, o.group) {
      RestrictedNodes(src, o, g.nodes);
      RestrictedEdges(src, o, g);
      assert RestrictGraph(g, o.group).groups == g.groups;
      GraphUnique(src, o, f, RestrictGraph(g, o.group));
    }
    if f == RestrictGraph(g, o.group) {
      RestrictedStays(src, o, g, f);
    }
  }

  lemma RestrictedStays(src: Snapshot, o: Options, g: Graph, f: Graph)
    requires o.group != "" && IsGraph(src, o.(group := ""), g) && IsGraph(src, o, f)
    requires f == RestrictGraph(g, o.group)
    ensures LastStays(src.elements, o.group)
  {
    hide CutNodes, Owners, KeySorted, GroupLabel, IsChannel, Drawn, ElementId, IdText;
    forall e | e in src.elements && GroupId(e) == o.group
      ensures LastShown(src.elements, "", e.identity).Some?
      ensures GroupId(LastShown(src.elements, "", e.identity).value) == o.group
    {
      var last := LastShown(src.elements, o.group, e.identity);
      var n := ElementNode(last.value);
      assert IsNode(src, o, n);
      CutMember(Owners(g.nodes, o.group), o.group, g.nodes, n);
      var m :| m in g.nodes && n == CutNode(Owners(g.nodes, o.group), m);
      assert IsNode(src, o.(group := ""), m);
    }
  }

  // ---- Edges ----

  /** The edge joins the runtime that registered with the channel holding the registration: out of the runtime for a
      publisher, an owner or a server, and into it for a subscriber or a client. */
  ghost predicate Joins(e: GraphEdge, element: GraphNode, channel: GraphNode) {
    && element.kind == ElementKind && element.runtime == e.endpoint.runtime
    && GraphEndpoint(e.endpoint, e.role) in channel.endpoints
    && if (channel.kind == TopicKind && e.role == "PUBLISHER") || (channel.kind == ParameterKind
                                                                   && e.role == "OWNER") ||
          (channel.kind == ServiceKind && e.role == "SERVER")
       then e.start == element.id && e.end == channel.id
       else
         && ((channel.kind == TopicKind && e.role == "SUBSCRIBER") ||
             (channel.kind == ParameterKind && e.role == "CLIENT"))
         && e.start == channel.id && e.end == element.id
  }

  /** The two nodes of a drawn registration's edge. */
  lemma EdgeNodes(src: Snapshot, o: Options, g: Graph, r: Registration) returns (element: GraphNode, channel: GraphNode)
    requires IsGraph(src, o, g) && r in Drawn(src, o) && Owned(src, o, r)
    ensures element in g.nodes && channel in g.nodes && Joins(EdgeOf(r), element, channel)
    ensures channel.kind == r.kind && channel.text == r.name
  {
    hide Drawn, KeySorted, ElementId, ChannelId;
    element := ElementNode(LastShown(src.elements, o.group, r.identity.runtime).value);
    assert IsNode(src, o, element) && element in g.nodes;
    DrawnAreChannels(src, o);
    channel := ChannelExists(Drawn(src, o), r);
    ChannelNotElement(Drawn(src, o), channel);
    assert IsNode(src, o, channel) && channel in g.nodes;
    assert RegistrationOf(channel, GraphEndpoint(r.identity, r.role)) == r;
    RoleKnown(src, o, r);
  }

  lemma RoleKnown(src: Snapshot, o: Options, r: Registration)
    requires r in Drawn(src, o)
    ensures match r.kind
            case TopicKind => r.role == "PUBLISHER" || r.role == "SUBSCRIBER"
            case ParameterKind => r.role == "OWNER" || r.role == "CLIENT"
            case ServiceKind => r.role == "SERVER"
            case _ => false
  {
  }

  /** Every edge joins two nodes of the graph, in the direction of the role. */
  lemma EdgesHang(src: Snapshot, o: Options, g: Graph, e: GraphEdge)
    requires IsGraph(src, o, g) && e in g.edges
    ensures exists element, channel :: element in g.nodes && channel in g.nodes && Joins(e, element, channel)
  {
    hide Drawn, KeySorted, ElementId, ChannelId, Joins;
    var r :| r in Drawn(src, o) && Owned(src, o, r) && e == EdgeOf(r);
    var element, channel := EdgeNodes(src, o, g, r);
  }

  /** There is exactly one edge for each distinct drawn registration whose element is shown. */
  lemma EdgeForEach(src: Snapshot, o: Options, g: Graph)
    requires IsGraph(src, o, g)
    ensures |g.edges| == |set r | r in Drawn(src, o) && Owned(src, o, r)|
  {
    DrawnAreChannels(src, o);
    var rs := set r | r in Drawn(src, o) && Owned(src, o, r);
    assert forall e :: e in g.edges <==> exists r :: r in rs && e == EdgeOf(r);
    CountEdges(rs, g.edges);
  }

  lemma {:induction false} CountEdges(rs: set<Registration>, edges: seq<GraphEdge>)
    requires KeySorted(EdgeKey, edges) && forall r :: r in rs ==> IsChannelKind(r.kind)
    requires forall e :: e in edges <==> exists r :: r in rs && e == EdgeOf(r)
    ensures |edges| == |rs|
  {
    hide EdgeOf, IsChannelKind, KeyLess, EdgeKey;
    assert forall r :: r in rs ==> EdgeOf(r) in edges;
    if edges == [] {
      assert forall r :: r !in rs;
    } else {
      var (before, e) := (edges[..|edges| - 1], edges[|edges| - 1]);
      assert edges == before + [e] && e in edges;
      var r :| r in rs && e == EdgeOf(r);
      if e in before { KeyIrreflexive(EdgeKey(e)); }
      forall x ensures x in before <==> exists q :: q in rs - {r} && x == EdgeOf(q) {
        if x in before {
          assert x in edges;
          var q :| q in rs && x == EdgeOf(q);
        }
        if exists q :: q in rs - {r} && x == EdgeOf(q) {
          var q :| q in rs - {r} && x == EdgeOf(q);
          assert x in edges;
          if x == e { EdgeOfInjective(q, r); }
        }
      }
      CountEdges(rs - {r}, before);
    }
  }
}
