/** Verified network routes: one edge for each route that two fresh hosts report from their own visible endpoints. */
module NetworkRoutes {
  import Results
  import opened Numerals
  import opened Ordering
  import GraphModel
  import opened NetworkRates
  import Conversion
  import DiagnosticsCache

  datatype RemoteEndpoint = RemoteEndpoint(id: string, runtimeId: string, applicationId: string, application: string,
                                           element: string, name: string, kind: string, role: string,
                                           diagnostic: string)

  datatype RemoteHost = RemoteHost(id: string, bootId: string, text: string, state: string, frameworkVersion: string,
                                   networkVersion: string, compatibility: string, session: Uint64,
                                   metadataReady: bool, endpoints: seq<RemoteEndpoint>, diagnostics: Diagnostics)

  const FRESH_MS := 10_000

  // ---- Endpoint identities ----

  function RouteEndpointKey(e: RouteEndpoint): string {
    e.hostId + ":" + e.bootId + ":" + PrintInt(e.pid) + ":" + PrintInt(e.startTicks) + ":" + PrintInt(e.registrationId)
  }

  /** The part of a key before its three numbers. */
  function OwnerText(e: RouteEndpoint): string { e.hostId + ":" + e.bootId }

  /** Equal keys mean equal numbers and equal owners, whatever the ids contain. */
  lemma KeyParts(a: RouteEndpoint, b: RouteEndpoint)
    ensures RouteEndpointKey(a) == RouteEndpointKey(b) <==>
            OwnerText(a) == OwnerText(b) && a.pid == b.pid && a.startTicks == b.startTicks
                && a.registrationId == b.registrationId
  {
    if RouteEndpointKey(a) == RouteEndpointKey(b) {
      NumbersColonFree(a);
      NumbersColonFree(b);
      var (a2, b2) := (OwnerText(a) + ":" + PrintInt(a.pid), OwnerText(b) + ":" + PrintInt(b.pid));
      SplitLast(a2 + ":" + PrintInt(a.startTicks), PrintInt(a.registrationId), b2 + ":" + PrintInt(b.startTicks),
                PrintInt(b.registrationId));
      SplitLast(a2, PrintInt(a.startTicks), b2, PrintInt(b.startTicks));
      SplitLast(OwnerText(a), PrintInt(a.pid), OwnerText(b), PrintInt(b.pid));
      PrintIntInjective(a.pid, b.pid);
      PrintIntInjective(a.startTicks, b.startTicks);
      PrintIntInjective(a.registrationId, b.registrationId);
    }
  }

  lemma NumbersColonFree(e: RouteEndpoint)
    ensures ColonFree(PrintInt(e.pid)) && ColonFree(PrintInt(e.startTicks)) && ColonFree(PrintInt(e.registrationId))
  {
    PrintIntColonFree(e.pid);
    PrintIntColonFree(e.startTicks);
    PrintIntColonFree(e.registrationId);
  }

  /** Two identities whose host ids hold no colon are told apart by their keys. */
  lemma RouteEndpointKeyInjective(a: RouteEndpoint, b: RouteEndpoint)
    requires ColonFree(a.hostId) && ColonFree(b.hostId) && RouteEndpointKey(a) == RouteEndpointKey(b)
    ensures a == b
  {
    KeyParts(a, b);
    SplitFirst(a.hostId, a.bootId, b.hostId, b.bootId);
  }

  /** An identity with a colon in an id shares its key with another, split elsewhere. */
  lemma RouteEndpointKeyCollides(a: RouteEndpoint) returns (b: RouteEndpoint)
    requires !Conversion.ColonFreeIds(a)
    ensures b != a && RouteEndpointKey(b) == RouteEndpointKey(a)
  {
    if !ColonFree(a.hostId) {
      var i :| 0 <= i < |a.hostId| && a.hostId[i] == ':';
      b := a.(hostId := a.hostId[..i], bootId := a.hostId[i + 1..] + ":" + a.bootId);
      assert a.hostId == a.hostId[..i] + ":" + a.hostId[i + 1..];
      assert OwnerText(b) == OwnerText(a) && |b.hostId| < |a.hostId|;
    } else {
      var i :| 0 <= i < |a.bootId| && a.bootId[i] == ':';
      b := a.(hostId := a.hostId + ":" + a.bootId[..i], bootId := a.bootId[i + 1..]);
      assert a.bootId == a.bootId[..i] + ":" + a.bootId[i + 1..];
      assert OwnerText(b) == OwnerText(a) && |b.bootId| < |a.bootId|;
    }
    KeyParts(a, b);
  }

  /** A key names its identity among all identities if and only if neither id holds a colon. */
  lemma RouteEndpointKeyIdentifies(a: RouteEndpoint)
    ensures Conversion.ColonFreeIds(a) <==> forall b :: RouteEndpointKey(b) == RouteEndpointKey(a) ==> b == a
  {
    hide RouteEndpointKey;
    if Conversion.ColonFreeIds(a) {
      forall b | RouteEndpointKey(b) == RouteEndpointKey(a) ensures b == a {
        KeyParts(a, b);
        SplitLastOf(a.hostId, a.bootId, b.hostId, b.bootId);
      }
    } else {
      var b := RouteEndpointKeyCollides(a);
    }
  }

  /** A text with one colon splits in one way. */
  lemma SplitLastOf(x: string, y: string, a: string, b: string)
    requires ColonFree(x) && ColonFree(y) && x + ":" + y == a + ":" + b
    ensures x == a && y == b
  {
    var s := x + ":" + y;
    assert s[|x|] == ':' && forall i :: 0 <= i < |s| && i != |x| ==> s[i] != ':';
    assert s == a + ":" + b && s[|a|] == ':';
    assert |a| == |x| && x == s[..|x|] && a == s[..|a|] && y == s[|x| + 1..] && b == s[|a| + 1..];
  }

  // ---- Evidence ----

  predicate MatchesEndpoint(h: RemoteHost, e: RemoteEndpoint, r: Route) {
    var publisher := e.role == "PUBLISHER" && r.sending;
    var subscriber := e.role == "SUBSCRIBER" && !r.sending;
    var own := if publisher then r.source else r.destination;
    && e.kind == "T" && (publisher || subscriber)
    && RouteEndpointKey(own) == e.id && own.hostId == h.id && own.bootId == h.bootId
    && (if publisher then r.sourceSession else r.destinationSession) == h.session
  }

  predicate FreshDiagnostics(h: RemoteHost, now: Uint64) {
    var d := h.diagnostics;
    && h.state == "ONLINE" && h.compatibility == "COMPATIBLE" && h.metadataReady
    && (d.status == VALID || d.status == TRUNCATED)
    && d.gatewayHost == h.id && d.gatewayBoot == h.bootId && d.gatewaySession == h.session
    && d.observedAtMs != 0 && d.observedAtMs <= now && now - d.observedAtMs <= FRESH_MS
  }

  function EndpointNodeId(id: string): string { "remote-endpoint:" + id }

  predicate Registered(h: RemoteHost, r: Route, visible: set<string>) {
    exists e :: e in h.endpoints && MatchesEndpoint(h, e, r) && EndpointNodeId(e.id) in visible
  }

  /** A fresh host reports the route ACTIVE, at an endpoint of its own that is drawn. */
  predicate Reports(h: RemoteHost, r: Route, now: Uint64, visible: set<string>) {
    FreshDiagnostics(h, now) && r in h.diagnostics.routes && r.state == ACTIVE && Registered(h, r, visible)
  }

  function Claims(hosts: seq<RemoteHost>, now: Uint64, visible: set<string>): set<Route> {
    set h, r | h in hosts && r in h.diagnostics.routes && Reports(h, r, now, visible) :: r
  }

  datatype RouteKey = RouteKey(source: string, destination: string, sourceSession: Uint64,
                               destinationSession: Uint64, routeId: Uint64)

  function RouteKeyOf(r: Route): RouteKey {
    RouteKey(RouteEndpointKey(r.source), RouteEndpointKey(r.destination), r.sourceSession, r.destinationSession,
             r.routeId)
  }

  function RouteOrder(k: RouteKey): seq<Atom> {
    [Text(k.source), Text(k.destination), Number(k.sourceSession), Number(k.destinationSession), Number(k.routeId)]
  }

  lemma RouteOrderInjective(a: RouteKey, b: RouteKey)
    requires RouteOrder(a) == RouteOrder(b)
    ensures a == b
  {
    var (k, l) := (RouteOrder(a), RouteOrder(b));
    assert k[0] == l[0] && k[1] == l[1] && k[2] == l[2] && k[3] == l[3] && k[4] == l[4];
  }

  ghost predicate BothSides(claims: set<Route>, k: RouteKey) {
    && (exists s :: s in claims && s.sending && RouteKeyOf(s) == k)
    && (exists r :: r in claims && !r.sending && RouteKeyOf(r) == k)
  }

  /** The verified routes in order, each once: those claimed by a sender and by a receiver. */
  ghost predicate AreVerified(claims: set<Route>, keys: seq<RouteKey>) {
    KeySorted(RouteOrder, keys) && forall k: RouteKey :: k in keys <==> BothSides(claims, k)
  }

  function VerifiedEdge(k: RouteKey): GraphModel.GraphEdge {
    GraphModel.GraphEdge(EndpointNodeId(k.source), EndpointNodeId(k.destination), "Verified network route",
                         GraphModel.NO_ENDPOINT, true,
                         "Verified ACTIVE network route / route_id=" + PrintInt(k.routeId))
  }

  function VerifiedEdges(keys: seq<RouteKey>): seq<GraphModel.GraphEdge> {
    seq(|keys|, i requires 0 <= i < |keys| => VerifiedEdge(keys[i]))
  }

  // ---- The join ----

  datatype Evidence = Evidence(send: Results.Option<Route>, receive: Results.Option<Route>)

  const NO_EVIDENCE := Evidence(Results.None, Results.None)

  ghost predicate EvidenceOf(claims: set<Route>, k: RouteKey, e: Evidence) {
    && (e.send.Some? ==> e.send.value in claims && e.send.value.sending && RouteKeyOf(e.send.value) == k)
    && (e.receive.Some? ==> e.receive.value in claims && !e.receive.value.sending && RouteKeyOf(e.receive.value) == k)
  }

  ghost predicate EvidenceMatches(claims: set<Route>, evidence: map<RouteKey, Evidence>) {
    && (forall k :: k in evidence ==> EvidenceOf(claims, k, evidence[k]))
    && (forall r :: r in claims ==> RouteKeyOf(r) in evidence)
    && (forall r :: r in claims && r.sending ==> evidence[RouteKeyOf(r)].send.Some?)
    && (forall r :: r in claims && !r.sending ==> evidence[RouteKeyOf(r)].receive.Some?)
  }

  method FindRegistered(h: RemoteHost, r: Route, visible: set<string>) returns (registered: bool)
    ensures registered <==> Registered(h, r, visible)
  {
    registered := false;
    for i := 0 to |h.endpoints|
      invariant forall j :: 0 <= j < i ==>
                  !(MatchesEndpoint(h, h.endpoints[j], r) && EndpointNodeId(h.endpoints[j].id) in visible)
    {
      if MatchesEndpoint(h, h.endpoints[i], r) && EndpointNodeId(h.endpoints[i].id) in visible {
        return true;
      }
    }
  }

  function Noted(evidence: map<RouteKey, Evidence>, r: Route): map<RouteKey, Evidence> {
    var k := RouteKeyOf(r);
    var pair := if k in evidence then evidence[k] else NO_EVIDENCE;
    evidence[k := if r.sending then pair.(send := Results.Some(r)) else pair.(receive := Results.Some(r))]
  }

  lemma NotedMatches(claims: set<Route>, evidence: map<RouteKey, Evidence>, r: Route)
    requires EvidenceMatches(claims, evidence)
    ensures EvidenceMatches(claims + {r}, Noted(evidence, r))
  {
    hide RouteKeyOf;
    var now := Noted(evidence, r);
    forall k | k in now ensures EvidenceOf(claims + {r}, k, now[k]) {
      assert k in evidence ==> EvidenceOf(claims, k, evidence[k]);
    }
  }

  method CollectHost(h: RemoteHost, now: Uint64, visible: set<string>, before: map<RouteKey, Evidence>,
                     ghost claims: set<Route>)
    returns (evidence: map<RouteKey, Evidence>)
    requires EvidenceMatches(claims, before)
    ensures EvidenceMatches(claims + Claims([h], now, visible), evidence)
  {
    hide Registered, RouteKeyOf, EvidenceMatches, Noted, FreshDiagnostics;
    evidence := before;
    ghost var seen := claims;
    if FreshDiagnostics(h, now) {
      var routes := h.diagnostics.routes;
      for i := 0 to |routes|
        invariant EvidenceMatches(seen, evidence)
        invariant forall r :: r in seen <==> r in claims || (r in routes[..i] && Reports(h, r, now, visible))
      {
        var r := routes[i];
        assert routes[..i + 1] == routes[..i] + [r];
        if r.state == ACTIVE {
          var registered := FindRegistered(h, r, visible);
          if registered {
            NotedMatches(seen, evidence, r);
            evidence, seen := Noted(evidence, r), seen + {r};
          }
        }
      }
      assert routes[..|routes|] == routes;
    }
    assert seen == claims + Claims([h], now, visible);
  }

  method CollectEvidence(hosts: seq<RemoteHost>, now: Uint64, visible: set<string>)
    returns (evidence: map<RouteKey, Evidence>)
    ensures EvidenceMatches(Claims(hosts, now, visible), evidence)
  {
    hide Reports, EvidenceOf, RouteKeyOf;
    evidence := map[];
    for i := 0 to |hosts|
      invariant EvidenceMatches(Claims(hosts[..i], now, visible), evidence)
    {
      assert hosts[..i + 1] == hosts[..i] + [hosts[i]];
      evidence := CollectHost(hosts[i], now, visible, evidence, Claims(hosts[..i], now, visible));
      assert Claims(hosts[..i + 1], now, visible) == Claims(hosts[..i], now, visible) +
          Claims([hosts[i]], now, visible);
    }
    assert hosts[..|hosts|] == hosts;
  }

  function Visible(nodes: seq<GraphModel.GraphNode>): set<string> {
    set n | n in nodes && n.kind == GraphModel.TopicKind && n.host != "" :: n.id
  }

  /** The graph with the verified routes between its drawn nodes appended, and nothing else changed. */
  ghost predicate HasRoutes(g: GraphModel.Graph, hosts: seq<RemoteHost>, now: Uint64, keys: seq<RouteKey>,
                            r: GraphModel.Graph)
  {
    AreVerified(Claims(hosts, now, Visible(g.nodes)), keys) && r == g.(edges := g.edges + VerifiedEdges(keys))
  }

  method AddVerifiedRoutes(g: GraphModel.Graph, hosts: seq<RemoteHost>, now: Uint64) returns (r: GraphModel.Graph)
    ensures exists keys :: HasRoutes(g, hosts, now, keys, r)
  {
    hide Claims, RouteKeyOf, RouteEndpointKey, KeyLess, VerifiedEdge, RouteOrder;
    var evidence := CollectEvidence(hosts, now, Visible(g.nodes));
    forall a, b | a in evidence && b in evidence && RouteOrder(a) == RouteOrder(b)
      ensures a == b
    {
      RouteOrderInjective(a, b);
    }
    var all := InOrder(RouteOrder, evidence.Keys);
    var edges := g.edges;
    ghost var keys := [];
    for i := 0 to |all|
      invariant forall k :: k in keys <==> k in all[..i] && evidence[k].send.Some? && evidence[k].receive.Some?
      invariant KeySorted(RouteOrder, keys)
      invariant edges == g.edges + VerifiedEdges(keys)
    {
      assert all[i] in all && all[..i + 1] == all[..i] + [all[i]];
      var pair := evidence[all[i]];
      if pair.send.Some? && pair.receive.Some? {
        var sent := pair.send.value;
        assert RouteKeyOf(sent) == all[i];
        LaterKey(all, i, keys);
        assert VerifiedEdges(keys + [all[i]]) == VerifiedEdges(keys) + [VerifiedEdge(all[i])];
        edges := edges + [VerifiedEdge(RouteKeyOf(sent))];
        keys := keys + [all[i]];
      }
    }
    assert all[..|all|] == all;
    forall k: RouteKey ensures k in keys <==> BothSides(Claims(hosts, now, Visible(g.nodes)), k) {
      assert k in evidence ==> EvidenceOf(Claims(hosts, now, Visible(g.nodes)), k, evidence[k]);
    }
    r := g.(edges := edges);
    assert HasRoutes(g, hosts, now, keys, r);
  }

  lemma LaterKey(all: seq<RouteKey>, i: nat, keys: seq<RouteKey>)
    requires i < |all| && KeySorted(RouteOrder, all) && KeySorted(RouteOrder, keys)
    requires forall k :: k in keys ==> k in all[..i]
    ensures KeySorted(RouteOrder, keys + [all[i]])
  {
    hide RouteOrder, KeyLess;
    forall j | 0 <= j < |keys| ensures KeyLess(RouteOrder(keys[j]), RouteOrder(all[i])) {
      assert keys[j] in all[..i];
    }
  }

  // ---- What a verified route means ----

  /** Route order, repetition and host order are forgotten: only which host reports what, and the drawn nodes,
      count. */
  ghost predicate SameHost(a: RemoteHost, b: RemoteHost) {
    && a.(endpoints := b.endpoints, diagnostics := a.diagnostics.(routes := b.diagnostics.routes)) == b
    && (forall e :: e in a.endpoints <==> e in b.endpoints)
    && (forall r :: r in a.diagnostics.routes <==> r in b.diagnostics.routes)
  }

  ghost predicate SameReports(one: seq<RemoteHost>, two: seq<RemoteHost>) {
    && (forall h :: h in one ==> exists k :: k in two && SameHost(h, k))
    && (forall k :: k in two ==> exists h :: h in one && SameHost(k, h))
  }

  lemma HostCarries(h: RemoteHost, k: RemoteHost, now: Uint64, visible: set<string>, r: Route)
    requires SameHost(h, k) && Reports(h, r, now, visible)
    ensures Reports(k, r, now, visible)
  {
    hide RouteEndpointKey;
    var e :| e in h.endpoints && MatchesEndpoint(h, e, r) && EndpointNodeId(e.id) in visible;
    assert h.id == k.id && h.bootId == k.bootId && h.session == k.session;
    assert e in k.endpoints && MatchesEndpoint(k, e, r);
  }

  lemma ReportsCarry(one: seq<RemoteHost>, two: seq<RemoteHost>, now: Uint64, visible: set<string>, r: Route)
    requires SameReports(one, two) && r in Claims(one, now, visible)
    ensures r in Claims(two, now, visible)
  {
    hide Registered, FreshDiagnostics, SameHost;
    var h :| h in one && r in h.diagnostics.routes && Reports(h, r, now, visible);
    var k :| k in two && SameHost(h, k);
    HostCarries(h, k, now, visible, r);
  }

  /** Hosts, routes and endpoints in any order and with any repetition give the identical list of verified routes. The
      rates in the program's edge text are not part of this: when one side reports a key several times, they are those
      of its last report, so with different rates they follow the order. */
  lemma RoutesIgnoreOrder(one: seq<RemoteHost>, two: seq<RemoteHost>, now: Uint64, visible: set<string>,
                          keys: seq<RouteKey>, other: seq<RouteKey>)
    requires SameReports(one, two)
    requires AreVerified(Claims(one, now, visible), keys) && AreVerified(Claims(two, now, visible), other)
    ensures keys == other && VerifiedEdges(keys) == VerifiedEdges(other)
  {
    hide Reports, KeyLess, RouteKeyOf, Claims, SameReports;
    forall r ensures r in Claims(one, now, visible) <==> r in Claims(two, now, visible) {
      if r in Claims(one, now, visible) { ReportsCarry(one, two, now, visible, r); }
      if r in Claims(two, now, visible) {
        SameReportsBack(one, two);
        ReportsCarry(two, one, now, visible, r);
      }
    }
    assert Claims(one, now, visible) == Claims(two, now, visible);
    KeySortedUnique(RouteOrder, keys, other);
  }

  lemma SameHostBack(a: RemoteHost, b: RemoteHost)
    requires SameHost(a, b)
    ensures SameHost(b, a)
  {
  }

  lemma SameReportsBack(one: seq<RemoteHost>, two: seq<RemoteHost>)
    requires SameReports(one, two)
    ensures SameReports(two, one)
  {
    hide SameHost;
    forall h, k | SameHost(h, k) ensures SameHost(k, h) { SameHostBack(h, k); }
  }

  /** One side of a verified route: the host that owns the endpoint reports it, fresh, in this session, and
      draws it. */
  ghost predicate Vouches(h: RemoteHost, e: RemoteEndpoint, r: Route, k: RouteKey, now: Uint64, visible: set<string>) {
    && FreshDiagnostics(h, now) && r in h.diagnostics.routes && r.state == ACTIVE && RouteKeyOf(r) == k
    && e in h.endpoints && e.kind == "T" && EndpointNodeId(e.id) in visible
    && (if r.sending then e.role == "PUBLISHER" && e.id == k.source && k.sourceSession == h.session
                          && r.source.hostId == h.id && r.source.bootId == h.bootId
        else e.role == "SUBSCRIBER" && e.id == k.destination && k.destinationSession == h.session
             && r.destination.hostId == h.id && r.destination.bootId == h.bootId)
  }

  lemma ClaimVouches(hosts: seq<RemoteHost>, now: Uint64, visible: set<string>, r: Route)
    requires r in Claims(hosts, now, visible)
    ensures exists h, e :: h in hosts && Vouches(h, e, r, RouteKeyOf(r), now, visible)
  {
    var h :| h in hosts && r in h.diagnostics.routes && Reports(h, r, now, visible);
    var e :| e in h.endpoints && MatchesEndpoint(h, e, r) && EndpointNodeId(e.id) in visible;
    assert Vouches(h, e, r, RouteKeyOf(r), now, visible);
  }

  lemma VouchesClaim(hosts: seq<RemoteHost>, now: Uint64, visible: set<string>, h: RemoteHost, e: RemoteEndpoint,
                     r: Route)
    requires h in hosts && Vouches(h, e, r, RouteKeyOf(r), now, visible)
    ensures r in Claims(hosts, now, visible)
  {
    assert MatchesEndpoint(h, e, r);
    assert Reports(h, r, now, visible);
  }

  ghost predicate Witnessed(hosts: seq<RemoteHost>, now: Uint64, visible: set<string>, k: RouteKey, s: Route,
                            r: Route)
  {
    && s.sending && !r.sending
    && (exists h, e :: h in hosts && Vouches(h, e, s, k, now, visible))
    && (exists h, e :: h in hosts && Vouches(h, e, r, k, now, visible))
  }

  /** An edge is drawn if and only if its publisher's host and its subscriber's host both vouch for it. */
  lemma VerifiedExactly(hosts: seq<RemoteHost>, now: Uint64, visible: set<string>, keys: seq<RouteKey>, k: RouteKey)
    requires AreVerified(Claims(hosts, now, visible), keys)
    ensures k in keys <==> exists s, r :: Witnessed(hosts, now, visible, k, s, r)
  {
    hide Vouches, Claims, RouteKeyOf, KeySorted;
    if k in keys {
      var s :| s in Claims(hosts, now, visible) && s.sending && RouteKeyOf(s) == k;
      var r :| r in Claims(hosts, now, visible) && !r.sending && RouteKeyOf(r) == k;
      ClaimVouches(hosts, now, visible, s);
      ClaimVouches(hosts, now, visible, r);
      assert Witnessed(hosts, now, visible, k, s, r);
    }
    if exists s, r :: Witnessed(hosts, now, visible, k, s, r) {
      var s, r :| Witnessed(hosts, now, visible, k, s, r);
      var h, e :| h in hosts && Vouches(h, e, s, k, now, visible);
      var i, f :| i in hosts && Vouches(i, f, r, k, now, visible);
      VouchedKey(h, e, s, k, now, visible);
      VouchedKey(i, f, r, k, now, visible);
      VouchesClaim(hosts, now, visible, h, e, s);
      VouchesClaim(hosts, now, visible, i, f, r);
    }
  }

  lemma VouchedKey(h: RemoteHost, e: RemoteEndpoint, r: Route, k: RouteKey, now: Uint64, visible: set<string>)
    requires Vouches(h, e, r, k, now, visible)
    ensures RouteKeyOf(r) == k
  {
  }

  /** With colon-free host ids, sender and receiver of a verified route speak of the same two endpoints, each on its
      own host. */
  lemma SidesMeet(hosts: seq<RemoteHost>, now: Uint64, visible: set<string>, k: RouteKey, s: Route, r: Route)
    requires Witnessed(hosts, now, visible, k, s, r)
    requires ColonFree(s.source.hostId) && ColonFree(s.destination.hostId)
    requires ColonFree(r.source.hostId) && ColonFree(r.destination.hostId)
    ensures SameRoute(hosts, s, r)
  {
    hide FreshDiagnostics;
    var h, e :| h in hosts && Vouches(h, e, s, k, now, visible);
    var i, f :| i in hosts && Vouches(i, f, r, k, now, visible);
    assert RouteKeyOf(s) == k == RouteKeyOf(r);
    assert RouteEndpointKey(s.source) == k.source == RouteEndpointKey(r.source) by { hide RouteEndpointKey; }
    assert RouteEndpointKey(s.destination) == k.destination == RouteEndpointKey(r.destination) by {
      hide RouteEndpointKey;
    }
    RouteEndpointKeyInjective(s.source, r.source);
    RouteEndpointKeyInjective(s.destination, r.destination);
  }

  /** Both reports are of one route between two endpoints, sent from the source's host and received at the
      destination's. */
  ghost predicate SameRoute(hosts: seq<RemoteHost>, s: Route, r: Route) {
    && s.source == r.source && s.destination == r.destination && s.routeId == r.routeId
    && (exists h ::
          h in hosts && h.id == s.source.hostId && h.bootId == s.source.bootId
          && h.session == s.sourceSession)
    && (exists h ::
          h in hosts && h.id == s.destination.hostId && h.bootId == s.destination.bootId
          && h.session == s.destinationSession)
  }

  /** Each host shows what the observer has on record for it. */
  ghost predicate ShowCache(hosts: seq<RemoteHost>, cache: map<string, DiagnosticsCache.Cached>) {
    forall h <- hosts :: h.id in cache && h.diagnostics == cache[h.id].value
  }

  /** In a snapshot published from the observer's cache every verified route is one route: a colliding key cannot
      arise. That the cache is sound is what every tick keeps. */
  lemma ObservedSidesMeet(hosts: seq<RemoteHost>, cache: map<string, DiagnosticsCache.Cached>, now: Uint64,
                          visible: set<string>, keys: seq<RouteKey>, k: RouteKey)
    requires DiagnosticsCache.CacheInv(cache) && ShowCache(hosts, cache)
    requires AreVerified(Claims(hosts, now, visible), keys) && k in keys
    ensures exists s, r :: Witnessed(hosts, now, visible, k, s, r) && SameRoute(hosts, s, r)
  {
    hide Claims, KeySorted, SameRoute, Conversion.RoutesConverted, Vouches;
    VerifiedExactly(hosts, now, visible, keys, k);
    var s, r :| Witnessed(hosts, now, visible, k, s, r);
    assert forall h <- hosts :: Conversion.RoutesConverted(h.diagnostics);
    WitnessesConverted(hosts, now, visible, k, s, r);
    SidesMeet(hosts, now, visible, k, s, r);
  }

  lemma WitnessesConverted(hosts: seq<RemoteHost>, now: Uint64, visible: set<string>, k: RouteKey, s: Route, r: Route)
    requires (forall h <- hosts :: Conversion.RoutesConverted(h.diagnostics)) && Witnessed(hosts, now, visible, k, s, r)
    ensures Conversion.ColonFreeIds(s.source) && Conversion.ColonFreeIds(s.destination)
            && Conversion.ColonFreeIds(r.source)
    ensures Conversion.ColonFreeIds(r.destination)
  {
    hide FreshDiagnostics, RouteEndpointKey;
    Conversion.ConvertedColonFree(s.source);
    Conversion.ConvertedColonFree(s.destination);
    Conversion.ConvertedColonFree(r.source);
    Conversion.ConvertedColonFree(r.destination);
  }

  /** Both ends of a verified edge are drawn topic nodes of remote hosts. */
  lemma VerifiedHang(hosts: seq<RemoteHost>, now: Uint64, g: GraphModel.Graph, keys: seq<RouteKey>,
                     e: GraphModel.GraphEdge)
    requires AreVerified(Claims(hosts, now, Visible(g.nodes)), keys) && e in VerifiedEdges(keys)
    ensures e.start in Visible(g.nodes) && e.end in Visible(g.nodes)
  {
    hide Vouches, Claims, RouteKeyOf, KeySorted, Visible, FreshDiagnostics;
    var i :| 0 <= i < |keys| && VerifiedEdges(keys)[i] == e;
    var (k, visible) := (keys[i], Visible(g.nodes));
    assert k in keys;
    VerifiedExactly(hosts, now, visible, keys, k);
    var s, r :| Witnessed(hosts, now, visible, k, s, r);
    var h, p :| h in hosts && Vouches(h, p, s, k, now, visible);
    var j, q :| j in hosts && Vouches(j, q, r, k, now, visible);
    VouchedEnds(h, p, s, k, now, visible);
    VouchedEnds(j, q, r, k, now, visible);
  }

  lemma VouchedEnds(h: RemoteHost, e: RemoteEndpoint, r: Route, k: RouteKey, now: Uint64, visible: set<string>)
    requires Vouches(h, e, r, k, now, visible)
    ensures EndpointNodeId(if r.sending then k.source else k.destination) in visible
  {
  }
}
