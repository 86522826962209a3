/** The combined graph read back against the hosts: where every network edge comes from, and what a host's part
    shows. */
module NetworkGraphFacts {
  import Results
  import Numerals
  import Ordering
  import opened GraphModel
  import opened NetworkRates
  import opened NetworkRoutes
  import opened NetworkGraph
  import NetworkGraphLaws
  import GraphFilter
  import GraphLaws
  import GraphFacts

  // ---- Network edges ----

  /** An online, compatible host with metadata whose own gateway generation reported within the last ten seconds. */
  predicate Fresh(h: RemoteHost, now: Numerals.Uint64) {
    && h.state == "ONLINE" && h.compatibility == "COMPATIBLE" && h.metadataReady
    && (h.diagnostics.status == VALID || h.diagnostics.status == TRUNCATED)
    && h.diagnostics.gatewayHost == h.id && h.diagnostics.gatewayBoot == h.bootId
    && h.diagnostics.gatewaySession == h.session
    && 0 < h.diagnostics.observedAtMs <= now <= h.diagnostics.observedAtMs + 10_000
  }

  function KeyText(e: RouteEndpoint): string {
    e.hostId + ":" + e.bootId + ":" + Numerals.PrintInt(e.pid) + ":" + Numerals.PrintInt(e.startTicks) + ":" +
    Numerals.PrintInt(e.registrationId)
  }

  /** The host reports the active route as sent from this publisher of its own. */
  predicate Sends(h: RemoteHost, e: RemoteEndpoint, s: Route, now: Numerals.Uint64) {
    && Fresh(h, now) && s in h.diagnostics.routes && s.state == 1 && s.sending
    && e in h.endpoints && e.kind == "T" && e.role == "PUBLISHER" && e.id == KeyText(s.source)
    && s.source.hostId == h.id && s.source.bootId == h.bootId && s.sourceSession == h.session
  }

  /** The host reports the active route as received at this subscriber of its own. */
  predicate Receives(h: RemoteHost, e: RemoteEndpoint, r: Route, now: Numerals.Uint64) {
    && Fresh(h, now) && r in h.diagnostics.routes && r.state == 1 && !r.sending
    && e in h.endpoints && e.kind == "T" && e.role == "SUBSCRIBER" && e.id == KeyText(r.destination)
    && r.destination.hostId == h.id && r.destination.bootId == h.bootId && r.destinationSession == h.session
  }

  predicate OneRoute(s: Route, r: Route) {
    && KeyText(s.source) == KeyText(r.source) && KeyText(s.destination) == KeyText(r.destination)
    && s.sourceSession == r.sourceSession && s.destinationSession == r.destinationSession && s.routeId == r.routeId
  }

  ghost predicate TopicDrawn(g: Graph, e: RemoteEndpoint) {
    exists n :: n in g.nodes && n.id == "remote-endpoint:" + e.id && n.kind == TopicKind && n.host != ""
  }

  /** The two reports and the two drawn endpoints behind a network edge, which leads from the publisher to the
      subscriber. */
  ghost predicate Behind(g: Graph, hosts: seq<RemoteHost>, now: Numerals.Uint64, edge: GraphEdge, h: RemoteHost,
                         e: RemoteEndpoint, s: Route, k: RemoteHost, f: RemoteEndpoint, r: Route)
  {
    && h in hosts && k in hosts && Sends(h, e, s, now) && Receives(k, f, r, now) && OneRoute(s, r)
    && TopicDrawn(g, e) && TopicDrawn(g, f)
    && edge == GraphEdge("remote-endpoint:" + e.id, "remote-endpoint:" + f.id, "Verified network route", NO_ENDPOINT,
                         true, "Verified ACTIVE network route / route_id=" + Numerals.PrintInt(s.routeId))
  }

  lemma TopicVisible(g: Graph, e: RemoteEndpoint)
    ensures TopicDrawn(g, e) <==> EndpointNodeId(e.id) in Visible(g.nodes)
  {
  }

  lemma SendsVouches(h: RemoteHost, e: RemoteEndpoint, s: Route, now: Numerals.Uint64, visible: set<string>)
    ensures Vouches(h, e, s, RouteKeyOf(s), now, visible) && s.sending <==>
            Sends(h, e, s, now) && EndpointNodeId(e.id) in visible
  {
    hide Numerals.PrintInt, EndpointNodeId;
  }

  lemma ReceivesVouches(h: RemoteHost, e: RemoteEndpoint, r: Route, now: Numerals.Uint64, visible: set<string>)
    ensures Vouches(h, e, r, RouteKeyOf(r), now, visible) && !r.sending <==>
            Receives(h, e, r, now) && EndpointNodeId(e.id) in visible
  {
    hide Numerals.PrintInt, EndpointNodeId;
  }

  lemma OneRouteKey(s: Route, r: Route)
    ensures OneRoute(s, r) <==> RouteKeyOf(s) == RouteKeyOf(r)
  {
    hide Numerals.PrintInt;
  }

  lemma NodesOfRoutes(g: Graph, hosts: seq<RemoteHost>, now: Numerals.Uint64, keys: seq<RouteKey>, k: RouteKey,
                      s: Route,
                      r: Route, edge: GraphEdge)
    returns (h: RemoteHost, e: RemoteEndpoint, j: RemoteHost, f: RemoteEndpoint)
    requires Witnessed(hosts, now, Visible(g.nodes), k, s, r) && edge == VerifiedEdge(k)
    ensures Behind(g, hosts, now, edge, h, e, s, j, f, r)
  {
    hide Vouches, Visible, RouteEndpointKey, Numerals.PrintInt, Sends, Receives, OneRoute, TopicDrawn;
    var visible := Visible(g.nodes);
    h, e :| h in hosts && Vouches(h, e, s, k, now, visible);
    j, f :| j in hosts && Vouches(j, f, r, k, now, visible);
    VouchedKey(h, e, s, k, now, visible);
    VouchedKey(j, f, r, k, now, visible);
    SendsVouches(h, e, s, now, visible);
    ReceivesVouches(j, f, r, now, visible);
    OneRouteKey(s, r);
    TopicVisible(g, e);
    TopicVisible(g, f);
    SendsEnds(h, e, s, k, now);
    ReceivesEnds(j, f, r, k, now);
  }

  lemma SendsEnds(h: RemoteHost, e: RemoteEndpoint, s: Route, k: RouteKey, now: Numerals.Uint64)
    requires Sends(h, e, s, now) && RouteKeyOf(s) == k
    ensures k.source == e.id && k.routeId == s.routeId && EndpointNodeId(e.id) == "remote-endpoint:" + e.id
  {
    hide Numerals.PrintInt;
  }

  lemma ReceivesEnds(h: RemoteHost, e: RemoteEndpoint, r: Route, k: RouteKey, now: Numerals.Uint64)
    requires Receives(h, e, r, now) && RouteKeyOf(r) == k
    ensures k.destination == e.id && EndpointNodeId(e.id) == "remote-endpoint:" + e.id
  {
    hide Numerals.PrintInt;
  }

  lemma BehindIsVerified(g: Graph, hosts: seq<RemoteHost>, now: Numerals.Uint64, keys: seq<RouteKey>, edge: GraphEdge,
                         h: RemoteHost, e: RemoteEndpoint, s: Route, j: RemoteHost, f: RemoteEndpoint, r: Route)
    requires Behind(g, hosts, now, edge, h, e, s, j, f, r) && AreVerified(Claims(hosts, now, Visible(g.nodes)), keys)
    ensures edge in VerifiedEdges(keys)
  {
    hide Vouches, Visible, RouteKeyOf, Numerals.PrintInt, Sends, Receives, OneRoute, TopicDrawn, AreVerified, Claims;
    var (k, visible) := (RouteKeyOf(s), Visible(g.nodes));
    TopicVisible(g, e);
    TopicVisible(g, f);
    SendsVouches(h, e, s, now, visible);
    ReceivesVouches(j, f, r, now, visible);
    OneRouteKey(s, r);
    assert Witnessed(hosts, now, visible, k, s, r);
    VerifiedExactly(hosts, now, visible, keys, k);
    SendsEnds(h, e, s, k, now);
    ReceivesEnds(j, f, r, k, now);
    var i :| 0 <= i < |keys| && keys[i] == k;
    assert VerifiedEdges(keys)[i] == VerifiedEdge(k) == edge;
  }

  lemma {:induction false} PartsAreLocal(base: Graph, hosts: seq<RemoteHost>, o: Options, parts: seq<Graph>)
    requires AreParts(hosts, o, parts) && forall e :: e in base.edges ==> !e.network
    ensures forall e :: e in Joined(base, parts).edges ==> !e.network
  {
    hide AreHostNodes, HeadingNode, GroupText;
    var n := |parts| - 1;
    if parts != [] {
      PartsAreLocal(base, hosts[..n], o, parts[..n]);
      NetworkGraphLaws.OwnershipIsLocal(o, hosts[n].endpoints);
    }
  }

  lemma LocalIsLocal(src: Snapshot, o: Options, local: Graph)
    requires IsGraph(src, o, local)
    ensures forall e :: e in local.edges ==> !e.network
  {
    hide IsGroups, IsNodes, IsEdge;
    forall e | e in local.edges ensures !e.network { GraphLaws.EdgeIsLocal(src, o, e); }
  }

  /** Every network edge of the combined graph leads from a drawn publisher, which its fresh host reports as sending the
      route, to a drawn subscriber, which its fresh host reports as receiving it; and every such pair of reports has
      its edge. */
  lemma NetworkEdgesExactly(src: Snapshot, local: Graph, hosts: seq<RemoteHost>, o: Options, now: Numerals.Uint64,
                            parts: seq<Graph>, keys: seq<RouteKey>, g: Graph, edge: GraphEdge)
    requires IsGraph(src, o, local) && IsRemoteGraph(local, hosts, o, now, parts, keys, g) && edge.network
    ensures edge in g.edges <==> o.remote && exists h, e, s, j, f, r :: Behind(g, hosts, now, edge, h, e, s, j, f, r)
  {
    hide IsGraph, Joined, AreParts, AreVerified, Claims, Visible, Behind, VerifiedEdge;
    LocalIsLocal(src, o, local);
    if o.remote {
      var joined := Joined(BaseGraph(local, o), parts);
      PartsAreLocal(BaseGraph(local, o), ChosenHosts(hosts, o), o, parts);
      if edge in g.edges {
        var i :| 0 <= i < |keys| && VerifiedEdges(keys)[i] == edge;
        assert keys[i] in keys;
        VerifiedExactly(hosts, now, Visible(g.nodes), keys, keys[i]);
        var s, r :| Witnessed(hosts, now, Visible(g.nodes), keys[i], s, r);
        var h, e, j, f := NodesOfRoutes(g, hosts, now, keys, keys[i], s, r, edge);
      }
      if exists h, e, s, j, f, r :: Behind(g, hosts, now, edge, h, e, s, j, f, r) {
        var h, e, s, j, f, r :| Behind(g, hosts, now, edge, h, e, s, j, f, r);
        BehindIsVerified(g, hosts, now, keys, edge, h, e, s, j, f, r);
      }
    }
  }

  // ---- A host's part ----

  predicate Grouped(o: Options, e: RemoteEndpoint) { o.group == "" || o.group == "remote-app:" + e.applicationId }

  predicate Wanted(o: Options, e: RemoteEndpoint) {
    && !(e.kind == "T" && !o.topics) && !(e.kind == "P" && !o.parameters)
    && !(e.kind == "S" && !o.services) && !(e.kind == "A" && !o.actions)
  }

  /** Endpoint i is the first whose runtime or, if its kind is wanted, whose own node has this id. */
  predicate Mentions(o: Options, e: RemoteEndpoint, id: string) {
    Grouped(o, e) && (id == "remote-runtime:" + e.runtimeId || (Wanted(o, e) && id == "remote-endpoint:" + e.id))
  }

  predicate FirstMention(o: Options, es: seq<RemoteEndpoint>, i: int, id: string) {
    0 <= i < |es| && Mentions(o, es[i], id) && forall j :: 0 <= j < i ==> !Mentions(o, es[j], id)
  }

  /** What is drawn under an id that an endpoint mentions. */
  function NodeFor(h: RemoteHost, e: RemoteEndpoint, id: string): GraphNode {
    var (group, lost) := ("remote-app:" + e.applicationId, h.state == "LOST");
    if id == "remote-runtime:" + e.runtimeId
    then GraphNode(id, e.element, group, ElementKind, NO_RUNTIME, [], h.id, lost)
    else
      var warning := if e.diagnostic == "" then "" else " [PAIR WARNING]";
      var kind := if e.kind == "T" then TopicKind else if e.kind == "P" then ParameterKind
                  else if e.kind == "S" then ServiceKind else ActionKind;
      GraphNode(id, e.kind + ": " + e.name + " [" + e.role + "]" + warning, group, kind, NO_RUNTIME, [], h.id, lost)
  }

  lemma MentionNamed(h: RemoteHost, o: Options, e: RemoteEndpoint, id: string)
    ensures NodeNamed(h, o, [e], id) == if Mentions(o, e, id) then Results.Some(NodeFor(h, e, id)) else Results.None
  {
    NetworkGraphLaws.NodeIdsApart(e.runtimeId, e.id);
    assert NodeNamed(h, o, [], id) == Results.None && [e][..0] == [];
  }

  lemma NamedStep(h: RemoteHost, o: Options, es: seq<RemoteEndpoint>, id: string)
    requires es != []
    ensures NodeNamed(h, o, es, id) ==
            if NodeNamed(h, o, es[..|es| - 1], id).Some? then NodeNamed(h, o, es[..|es| - 1], id)
            else NodeNamed(h, o, [es[|es| - 1]], id)
  {
    hide RuntimeNodeId, EndpointNodeId, InGroup, KindChosen, RuntimeNode, EndpointNode;
    var last := [es[|es| - 1]];
    assert NodeNamed(h, o, [], id) == Results.None && last[..0] == [];
  }

  lemma {:induction false} NamedAt(h: RemoteHost, o: Options, es: seq<RemoteEndpoint>, id: string)
    ensures forall i :: FirstMention(o, es, i, id) ==> NodeNamed(h, o, es, id) == Results.Some(NodeFor(h, es[i], id))
    ensures NodeNamed(h, o, es, id).Some? ==> exists i :: FirstMention(o, es, i, id)
  {
    hide Mentions, NodeFor, NodeNamed;
    if es == [] {
      NoneNamed(h, o, id);
    } else {
      var n := |es| - 1;
      NamedAt(h, o, es[..n], id);
      NamedStep(h, o, es, id);
      MentionNamed(h, o, es[n], id);
      forall i | FirstMention(o, es, i, id) && i < n ensures FirstMention(o, es[..n], i, id) {
      }
      forall i | FirstMention(o, es[..n], i, id) ensures FirstMention(o, es, i, id) {
        forall j | 0 <= j < i ensures !Mentions(o, es[j], id) { assert es[..n][j] == es[j]; }
      }
      if NodeNamed(h, o, es[..n], id).None? && Mentions(o, es[n], id) {
        NotMentioned(h, o, es[..n], id);
        forall j | 0 <= j < n ensures !Mentions(o, es[j], id) { assert es[..n][j] == es[j]; }
        assert FirstMention(o, es, n, id);
      }
    }
  }

  lemma NoneNamed(h: RemoteHost, o: Options, id: string)
    ensures NodeNamed(h, o, [], id).None?
  {
  }

  lemma {:induction false} NotMentioned(h: RemoteHost, o: Options, es: seq<RemoteEndpoint>, id: string)
    requires NodeNamed(h, o, es, id).None?
    ensures forall j :: 0 <= j < |es| ==> !Mentions(o, es[j], id)
  {
    hide Mentions, NodeFor, NodeNamed;
    if es != [] {
      var n := |es| - 1;
      NamedStep(h, o, es, id);
      MentionNamed(h, o, es[n], id);
      NotMentioned(h, o, es[..n], id);
      forall j | 0 <= j < n ensures !Mentions(o, es[j], id) { assert es[..n][j] == es[j]; }
    }
  }

  /** The heading of a host, with the verdict on it spelled out. */
  function Heading(h: RemoteHost): GraphNode {
    var verdict := if h.compatibility == "COMPATIBLE" then "COMPATIBLE" else "INCOMPATIBLE: " + h.compatibility;
    GraphNode("remote-host:" + h.id,
              h.text + " " + h.state + " " + verdict + " FW " + h.frameworkVersion + " Net " + h.networkVersion, "",
              HostKind, NO_RUNTIME, [], h.id, h.state == "LOST")
  }

  /** A host's part shows its heading, unless the filtered group is not one of its own, and what its endpoints mention,
      each id as the first endpoint mentioning it says. */
  lemma PartNodes(h: RemoteHost, o: Options, part: Graph, n: GraphNode)
    requires IsPart(h, o, part)
    ensures n in part.nodes <==>
            || (n == Heading(h)
                && (o.group == "" || exists e <- h.endpoints :: o.group == "remote-app:" + e.applicationId))
            || exists i :: FirstMention(o, h.endpoints, i, n.id) && n == NodeFor(h, h.endpoints[i], n.id)
  {
    hide NodeNamed, FirstMention, NodeFor, OwnershipEdges, GroupText, Ordering.KeySorted;
    var nodes: seq<GraphNode> :|
      part.nodes == (if Headed(o, h) then [HeadingNode(h)] else []) + nodes && AreHostNodes(h, o, nodes);
    NamedAt(h, o, h.endpoints, n.id);
    LastOfGroup(h.endpoints, o.group);
    assert n in nodes <==> NodeNamed(h, o, h.endpoints, n.id) == Results.Some(n);
    assert HeadingNode(h) == Heading(h);
  }

  /** Endpoint i is the last of this group. */
  predicate LastGrouped(es: seq<RemoteEndpoint>, i: int, id: string) {
    0 <= i < |es| && id == "remote-app:" + es[i].applicationId && forall j :: i < j < |es| ==>
        id != "remote-app:" + es[j].applicationId
  }

  lemma {:induction false} LastOfGroup(es: seq<RemoteEndpoint>, id: string)
    ensures forall i :: LastGrouped(es, i, id) ==>
              GroupText(es, id) == Results.Some(es[i].application + " [" + es[i].applicationId + "]")
    ensures GroupText(es, id).Some? ==> exists i :: LastGrouped(es, i, id)
    ensures GroupText(es, id).Some? <==> exists e <- es :: id == "remote-app:" + e.applicationId
  {
    if es != [] {
      var n := |es| - 1;
      LastOfGroup(es[..n], id);
      assert es == es[..n] + [es[n]];
      if id == "remote-app:" + es[n].applicationId {
        assert LastGrouped(es, n, id);
      } else {
        forall i | LastGrouped(es, i, id) ensures LastGrouped(es[..n], i, id) { assert i != n; }
        forall i | LastGrouped(es[..n], i, id) ensures LastGrouped(es, i, id) {
          forall j | i < j < |es| ensures id != "remote-app:" + es[j].applicationId {
            if j < n { assert es[..n][j] == es[j]; }
          }
        }
      }
    }
  }

  /** Its groups are those of all its endpoints, filtered out or not, each named by its last endpoint. */
  lemma PartGroups(h: RemoteHost, o: Options, part: Graph, x: GraphGroup)
    requires IsPart(h, o, part)
    ensures x in part.groups <==>
            && x.host == h.id
            && exists i :: LastGrouped(h.endpoints, i, x.id)
                   && x.text == h.endpoints[i].application + " [" + h.endpoints[i].applicationId + "]"
  {
    LastOfGroup(h.endpoints, x.id);
  }

  /** An endpoint that provides is drawn from its runtime, a topic or parameter user to it. */
  predicate OwnedBy(e: RemoteEndpoint, edge: GraphEdge) {
    var (runtime, endpoint) := ("remote-runtime:" + e.runtimeId, "remote-endpoint:" + e.id);
    if e.role == "PUBLISHER" || e.role == "OWNER" || e.role == "SERVER"
    then edge == GraphEdge(runtime, endpoint, e.role + " metadata ownership", NO_ENDPOINT, false, "")
    else
      && (e.kind == "T" || e.kind == "P")
      && edge == GraphEdge(endpoint, runtime, e.role + " metadata ownership", NO_ENDPOINT, false, "")
  }

  /** Its edges are those of its endpoints in the group and of a wanted kind. */
  lemma {:induction false} PartEdges(o: Options, es: seq<RemoteEndpoint>, edge: GraphEdge)
    ensures edge in OwnershipEdges(o, es) <==> exists e <- es :: Grouped(o, e) && Wanted(o, e) && OwnedBy(e, edge)
  {
    hide Grouped, Wanted, OwnedBy, OwnershipEdge, InGroup, KindChosen;
    if es != [] {
      var (before, e) := (es[..|es| - 1], es[|es| - 1]);
      PartEdges(o, before, edge);
      OwnEdge(o, e, edge);
      assert es == before + [e];
    }
  }

  lemma OwnEdge(o: Options, e: RemoteEndpoint, edge: GraphEdge)
    ensures edge in OwnershipEdge(e) <==> OwnedBy(e, edge)
    ensures InGroup(o, e) && KindChosen(o, e) <==> Grouped(o, e) && Wanted(o, e)
  {
  }

  lemma {:induction false} JoinedHolds(base: Graph, parts: seq<Graph>)
    ensures base.nodes <= Joined(base, parts).nodes && base.edges <= Joined(base, parts).edges
    ensures base.groups <= Joined(base, parts).groups
    ensures forall i :: 0 <= i < |parts| ==>
              && (forall n :: n in parts[i].nodes ==> n in Joined(base, parts).nodes)
              && (forall e :: e in parts[i].edges ==> e in Joined(base, parts).edges)
              && (forall x :: x in parts[i].groups ==> x in Joined(base, parts).groups)
  {
    if parts != [] {
      var k := |parts| - 1;
      JoinedHolds(base, parts[..k]);
      assert forall i :: 0 <= i < k ==> parts[..k][i] == parts[i];
    }
  }

  ghost predicate HasPart(g: Graph, h: RemoteHost, o: Options) {
    exists part: Graph ::
      && IsPart(h, o, part) && (forall n :: n in part.nodes ==> n in g.nodes)
      && (forall e :: e in part.edges ==> e in g.edges) && (forall x :: x in part.groups ==> x in g.groups)
  }

  ghost predicate InPart(h: RemoteHost, o: Options, n: GraphNode) {
    exists part :: IsPart(h, o, part) && n in part.nodes
  }

  /** The local graph stands first and whole, unless it is switched off or a remote host is chosen; and every chosen
      remote host has its part. */
  lemma CombinedHolds(local: Graph, hosts: seq<RemoteHost>, o: Options, now: Numerals.Uint64, parts: seq<Graph>,
                      keys: seq<RouteKey>, g: Graph)
    requires IsRemoteGraph(local, hosts, o, now, parts, keys, g)
    ensures o.local && (o.host == "" || o.host == "local") ==>
              local.groups <= g.groups && local.nodes <= g.nodes && local.edges <= g.edges
    ensures o.remote ==>
              forall h <- hosts :: o.host == "" || o.host == h.id ==>
                HasPart(g, h, o)
  {
    hide IsPart, AreVerified, Claims, Joined;
    if o.remote {
      var chosen := ChosenHosts(hosts, o);
      NetworkGraphLaws.ChosenAre(hosts, o);
      JoinedHolds(BaseGraph(local, o), parts);
      forall h | h in hosts && (o.host == "" || o.host == h.id)
        ensures HasPart(g, h, o)
      {
        assert h in chosen;
        var i :| 0 <= i < |chosen| && chosen[i] == h;
        assert IsPart(h, o, parts[i]);
      }
    }
  }

  lemma {:induction false} FromSomePart(base: Graph, parts: seq<Graph>, n: GraphNode)
    requires n in Joined(base, parts).nodes
    ensures n in base.nodes || exists i :: 0 <= i < |parts| && n in parts[i].nodes
  {
    if parts != [] && n !in parts[|parts| - 1].nodes {
      FromSomePart(base, parts[..|parts| - 1], n);
      assert forall i :: 0 <= i < |parts| - 1 ==> parts[..|parts| - 1][i] == parts[i];
    }
  }

  /** Nothing else is drawn: every node is of the local graph or of a chosen host's part. */
  lemma NothingElse(local: Graph, hosts: seq<RemoteHost>, o: Options, now: Numerals.Uint64, parts: seq<Graph>,
                    keys: seq<RouteKey>, g: Graph, n: GraphNode)
    requires IsRemoteGraph(local, hosts, o, now, parts, keys, g) && n in g.nodes
    ensures || (n in local.nodes && o.local && (o.host == "" || o.host == "local"))
            || (o.remote && exists h <- hosts :: (o.host == "" || o.host == h.id) && InPart(h, o, n))
  {
    hide IsPart, AreVerified, Claims, Joined;
    if o.remote {
      NetworkGraphLaws.ChosenAre(hosts, o);
      FromSomePart(BaseGraph(local, o), parts, n);
      if n !in BaseGraph(local, o).nodes {
        var i :| 0 <= i < |parts| && n in parts[i].nodes;
        var h := ChosenHosts(hosts, o)[i];
        assert h in ChosenHosts(hosts, o) && IsPart(h, o, parts[i]) && InPart(h, o, n);
      }
    }
  }

  // ---- Order ----

  /** By publisher, subscriber, their sessions and the route. */
  ghost predicate RouteBefore(a: RouteKey, b: RouteKey) {
    || Ordering.TextBefore(a.source, b.source)
    || (a.source == b.source && Ordering.TextBefore(a.destination, b.destination))
    || (a.source == b.source && a.destination == b.destination
        && (a.sourceSession < b.sourceSession
            || (a.sourceSession == b.sourceSession && a.destinationSession < b.destinationSession)
            || (a.sourceSession == b.sourceSession && a.destinationSession == b.destinationSession
                && a.routeId < b.routeId)))
  }

  /** The network edges stand last, in the order of their routes. */
  lemma RoutesInOrder(keys: seq<RouteKey>)
    requires Ordering.KeySorted(RouteOrder, keys)
    ensures forall i, j :: 0 <= i < j < |keys| ==> RouteBefore(keys[i], keys[j])
  {
    hide RouteBefore, Ordering.KeyLess;
    forall i, j | 0 <= i < j < |keys| ensures RouteBefore(keys[i], keys[j]) { RouteOrderBefore(keys[i], keys[j]); }
  }

  lemma RouteOrderBefore(a: RouteKey, b: RouteKey)
    requires Ordering.KeyLess(RouteOrder(a), RouteOrder(b))
    ensures RouteBefore(a, b)
  {
    hide Ordering.KeyLess, Ordering.AtomLess, Ordering.TextBefore;
    Ordering.AtomLessExactly();
    var (x, y) := (RouteOrder(a), RouteOrder(b));
    assert x == [x[0]] + x[1..] && x[1..] == [x[1]] + x[2..] && x[2..] == [x[2]] + x[3..];
    assert x[3..] == [x[3]] + x[4..] && x[4..] == [x[4]] + [];
    assert y == [y[0]] + y[1..] && y[1..] == [y[1]] + y[2..] && y[2..] == [y[2]] + y[3..];
    assert y[3..] == [y[3]] + y[4..] && y[4..] == [y[4]] + [];
    Ordering.KeyLessHead(x[0], x[1..], y[0], y[1..]);
    Ordering.KeyLessHead(x[1], x[2..], y[1], y[2..]);
    Ordering.KeyLessHead(x[2], x[3..], y[2], y[3..]);
    Ordering.KeyLessHead(x[3], x[4..], y[3], y[4..]);
    Ordering.KeyLessHead(x[4], [], y[4], []);
    Ordering.KeyIrreflexive([]);
  }

  /** A host's heading stands before its nodes, which stand in order of id, as its groups do. */
  lemma PartInOrder(h: RemoteHost, o: Options, part: Graph)
    requires IsPart(h, o, part)
    ensures forall i, j :: 0 <= i < j < |part.nodes| ==>
              (i == 0 && part.nodes[0] == Heading(h)) || Ordering.TextBefore(part.nodes[i].id, part.nodes[j].id)
    ensures forall i, j :: 0 <= i < j < |part.groups| ==> Ordering.TextBefore(part.groups[i].id, part.groups[j].id)
  {
    hide NodeNamed, OwnershipEdges, GroupText, Ordering.KeyLess, Ordering.TextBefore, GroupKey, NodeIdKey, Headed;
    var nodes: seq<GraphNode> :|
      part.nodes == (if Headed(o, h) then [HeadingNode(h)] else []) + nodes && AreHostNodes(h, o, nodes);
    assert HeadingNode(h) == Heading(h);
    forall i, j | 0 <= i < j < |nodes| ensures Ordering.TextBefore(nodes[i].id, nodes[j].id) {
      NodeIdBefore(nodes[i], nodes[j]);
    }
    forall i, j | 0 <= i < j < |part.groups| ensures Ordering.TextBefore(part.groups[i].id, part.groups[j].id) {
      GraphFacts.GroupKeyOrder(part.groups[i], part.groups[j]);
    }
  }

  lemma NodeIdBefore(a: GraphNode, b: GraphNode)
    requires Ordering.KeyLess(NodeIdKey(a), NodeIdKey(b))
    ensures Ordering.TextBefore(a.id, b.id)
  {
    hide Ordering.TextBefore, Ordering.AtomLess;
    Ordering.AtomLessExactly();
    assert NodeIdKey(a)[0] == Ordering.Text(a.id) && NodeIdKey(b)[0] == Ordering.Text(b.id);
    Ordering.KeyIrreflexive([]);
  }
}
