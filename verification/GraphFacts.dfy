/** A local graph read back against the discovered records: what each group, node and edge says about them. */
module GraphFacts {
  import opened Results
  import Numerals
  import Ordering
  import opened GraphModel
  import GraphFilter

  // ---- Groups ----

  /** An unsupervised element stands alone. */
  function GroupOf(supervisor: RuntimeIdentity): string {
    if supervisor.pid > 0
    then Numerals.PrintInt(supervisor.pid) + ":" + Numerals.PrintInt(supervisor.startTicks) else "standalone"
  }

  function AsText(id: RuntimeIdentity): string {
    Numerals.PrintInt(id.pid) + ":" + Numerals.PrintInt(id.startTicks)
  }

  /** Application i is the last one listed under this id. */
  predicate LastListed(applications: seq<Application>, i: int, id: string) {
    && 0 <= i < |applications| && AsText(applications[i].supervisor) == id
    && forall j :: i < j < |applications| ==> AsText(applications[j].supervisor) != id
  }

  /** Element i is the first one of this group. */
  predicate FirstListed(elements: seq<Element>, i: int, id: string) {
    0 <= i < |elements| && GroupOf(elements[i].supervisor) == id && forall j :: 0 <= j < i ==>
        GroupOf(elements[j].supervisor) != id
  }

  function Label(name: string, id: string): string { name + " [" + id + "]" }

  function FallbackLabel(e: Element, id: string): string {
    if id == "standalone" then "Standalone"
    else Label(if e.applicationName == "" then "Supervisor" else e.applicationName, id)
  }

  lemma {:induction false} LastApplicationAt(applications: seq<Application>, id: string)
    ensures forall i :: LastListed(applications, i, id) ==>
              LastApplication(applications, id) == Some(applications[i])
    ensures LastApplication(applications, id).Some? ==> exists i :: LastListed(applications, i, id)
  {
    hide Numerals.PrintInt;
    if applications != [] {
      var n := |applications| - 1;
      LastApplicationAt(applications[..n], id);
      if AsText(applications[n].supervisor) == id {
        assert LastListed(applications, n, id);
      } else {
        forall i | LastListed(applications, i, id) ensures LastListed(applications[..n], i, id) { assert i != n; }
        forall i | LastListed(applications[..n], i, id) ensures LastListed(applications, i, id) {
          forall j | i < j < |applications| ensures AsText(applications[j].supervisor) != id {
            if j < n { assert applications[..n][j] == applications[j]; }
          }
        }
      }
    }
  }

  lemma {:induction false} FirstElementAt(elements: seq<Element>, id: string)
    ensures forall i :: FirstListed(elements, i, id) ==> FirstElement(elements, id) == Some(elements[i])
    ensures FirstElement(elements, id).Some? ==> exists i :: FirstListed(elements, i, id)
  {
    hide Numerals.PrintInt;
    if elements != [] {
      var n := |elements| - 1;
      FirstElementAt(elements[..n], id);
      forall i | FirstListed(elements, i, id) && i < n ensures FirstListed(elements[..n], i, id) {
      }
      forall i | FirstListed(elements[..n], i, id) ensures FirstListed(elements, i, id) {
        forall j | 0 <= j < i ensures GroupOf(elements[j].supervisor) != id {
          assert elements[..n][j] == elements[j];
        }
      }
      if FirstElement(elements, id).Some? && FirstElement(elements[..n], id).None? {
        forall j | 0 <= j < n ensures GroupOf(elements[j].supervisor) != id { assert elements[j] in elements[..n]; }
        assert FirstListed(elements, n, id);
      }
    }
  }

  /** A group carries the name of the last application listed under its id; failing that, the application name of its
      first element. Groups never depend on the filter. */
  lemma GroupNamed(src: Snapshot, o: Options, g: Graph, id: string, text: string)
    requires IsGraph(src, o, g)
    ensures GraphGroup(id, text, "") in g.groups <==>
            || (exists i :: LastListed(src.applications, i, id) && text == Label(src.applications[i].name, id))
            || ((forall i :: !LastListed(src.applications, i, id))
                && exists i :: FirstListed(src.elements, i, id) && text == FallbackLabel(src.elements[i], id))
  {
    hide Numerals.PrintInt, IsNodes, IsEdges;
    LastApplicationAt(src.applications, id);
    FirstElementAt(src.elements, id);
    var x := GraphGroup(id, text, "");
    assert x in g.groups <==> GroupLabel(src.applications, src.elements, id) == Some(text);
  }

  // ---- Elements ----

  /** The group filter lets the element through. */
  predicate LetThrough(e: Element, group: string) { group == "" || GroupOf(e.supervisor) == group }

  /** Element i is the last one of its identity that is let through. */
  predicate LastOfIdentity(elements: seq<Element>, i: int, group: string) {
    && 0 <= i < |elements| && LetThrough(elements[i], group)
    && forall j :: i < j < |elements| && LetThrough(elements[j], group) ==>
         elements[j].identity != elements[i].identity
  }

  lemma LastStep(elements: seq<Element>, i: int, group: string)
    requires elements != []
    ensures var n := |elements| - 1;
            var e := elements[n];
            && (LastOfIdentity(elements, i, group) ==> 0 <= i <= n)
            && (LastOfIdentity(elements[..n], i, group) ==> 0 <= i < n)
            && (LastOfIdentity(elements, n, group) <==> LetThrough(e, group))
            && (0 <= i < n ==>
                  (LastOfIdentity(elements, i, group) <==>
                   LastOfIdentity(elements[..n], i, group)
                   && !(LetThrough(e, group) && e.identity == elements[i].identity)))
  {
    hide LetThrough;
    var n := |elements| - 1;
    forall k | 0 <= k < n ensures elements[..n][k] == elements[k] {
    }
  }

  lemma ShownIsLetThrough(e: Element, group: string)
    ensures Shown(e, group) <==> LetThrough(e, group)
  {
  }

  lemma LastShownStep(elements: seq<Element>, group: string, id: RuntimeIdentity)
    ensures elements == [] ==> LastShown(elements, group, id) == None
    ensures elements != [] ==>
              var e := elements[|elements| - 1];
              LastShown(elements, group, id) ==
              if LetThrough(e, group) && e.identity == id then Some(e)
              else LastShown(elements[..|elements| - 1], group, id)
  {
    if elements != [] {
      hide LetThrough, Shown;
      ShownIsLetThrough(elements[|elements| - 1], group);
    }
  }

  lemma {:induction false} LastShownAt(elements: seq<Element>, group: string, id: RuntimeIdentity)
    ensures forall i :: LastOfIdentity(elements, i, group) && elements[i].identity == id ==>
              LastShown(elements, group, id) == Some(elements[i])
    ensures LastShown(elements, group, id).Some? ==>
              exists i :: LastOfIdentity(elements, i, group) && elements[i].identity == id
  {
    hide LastShown, LetThrough, Shown;
    LastShownStep(elements, group, id);
    if elements != [] {
      hide LastOfIdentity;
      var n := |elements| - 1;
      LastShownAt(elements[..n], group, id);
      forall i | LastOfIdentity(elements, i, group) && elements[i].identity == id
        ensures LastShown(elements, group, id) == Some(elements[i])
      {
        LastStep(elements, i, group);
        assert i < n ==> elements[..n][i] == elements[i];
      }
      if LastShown(elements, group, id).Some? {
        LastStep(elements, n, group);
        if !(LetThrough(elements[n], group) && elements[n].identity == id) {
          var i :| LastOfIdentity(elements[..n], i, group) && elements[..n][i].identity == id;
          LastStep(elements, i, group);
          assert elements[..n][i] == elements[i];
        }
      }
    }
  }

  /** The element nodes are the last elements let through of each identity, under their names and in their groups. */
  lemma ElementNodes(src: Snapshot, o: Options, g: Graph, n: GraphNode)
    requires IsGraph(src, o, g) && n.kind == ElementKind
    ensures n in g.nodes <==>
            exists i :: LastOfIdentity(src.elements, i, o.group)
                        && n == GraphNode("element:" + AsText(src.elements[i].identity), src.elements[i].name,
                                          GroupOf(src.elements[i].supervisor), ElementKind, src.elements[i].identity,
                                              [],
                                          "", false)
  {
    hide Numerals.PrintInt, IsGroups, IsEdges;
    assert n in g.nodes <==> IsNode(src, o, n);
    LastShownAt(src.elements, o.group, n.runtime);
  }

  // ---- Channels ----

  /** Without a filter everything listed is drawn; with one, what belongs to an element let through. */
  ghost predicate OwnerShown(src: Snapshot, o: Options, id: EndpointIdentity) {
    o.group == "" || exists e :: e in src.elements && LetThrough(e, o.group) && e.identity == id.runtime
  }

  lemma OwnedByElement(src: Snapshot, o: Options, r: Registration)
    ensures Owned(src, o, r) <==>
            exists e :: e in src.elements && LetThrough(e, o.group) && e.identity == r.identity.runtime
  {
    hide Numerals.PrintInt;
    assert forall e: Element :: LetThrough(e, o.group) <==> Shown(e, o.group);
  }

  /** What a channel of each kind lists. */
  ghost predicate Lists(src: Snapshot, o: Options, kind: GraphKind, name: string, x: GraphEndpoint) {
    match kind
    case TopicKind =>
      o.topics && Topic(name, x.identity, x.role) in src.topics && (x.role == "PUBLISHER" || x.role == "SUBSCRIBER")
    case ParameterKind =>
      o.parameters && Parameter(name, x.identity, x.role) in src.parameters && (x.role == "OWNER" || x.role == "CLIENT")
    case ServiceKind => o.services && Service(name, x.identity) in src.services && x.role == "SERVER"
    case _ => false
  }

  lemma DrawnExactly(src: Snapshot, o: Options, r: Registration)
    ensures r in Drawn(src, o) <==>
            Lists(src, o, r.kind, r.name, GraphEndpoint(r.identity, r.role)) && OwnerShown(src, o, r.identity)
  {
    OwnedByElement(src, o, r);
    if r in OfTopics(src.topics) {
      var t :| t in src.topics && IsTopicRole(t.role) && r == OfTopic(t);
      assert t == Topic(r.name, r.identity, r.role);
    }
    if r in OfParameters(src.parameters) {
      var p :| p in src.parameters && IsParameterRole(p.role) && r == OfParameter(p);
      assert p == Parameter(r.name, r.identity, r.role);
    }
    if r in OfServices(src.services) {
      var s :| s in src.services && r == OfService(s);
      assert s == Service(r.name, r.identity);
    }
    if Lists(src, o, r.kind, r.name, GraphEndpoint(r.identity, r.role)) {
      match r.kind
      case TopicKind => assert r == OfTopic(Topic(r.name, r.identity, r.role));
      case ParameterKind => assert r == OfParameter(Parameter(r.name, r.identity, r.role));
      case ServiceKind => assert r == OfService(Service(r.name, r.identity));
      case _ =>
    }
  }

  /** A channel node lists registrations of its own name: a topic or parameter all of them, a service exactly one. */
  lemma ChannelNodes(src: Snapshot, o: Options, g: Graph, n: GraphNode)
    requires IsGraph(src, o, g) && n in g.nodes && n.kind != ElementKind
    ensures n.kind in {TopicKind, ParameterKind, ServiceKind} && n.group == "" && n.endpoints != []
    ensures forall x <- n.endpoints :: Lists(src, o, n.kind, n.text, x) && OwnerShown(src, o, x.identity)
    ensures n.kind != ServiceKind ==>
              forall x :: Lists(src, o, n.kind, n.text, x) && OwnerShown(src, o, x.identity) ==> x in n.endpoints
    ensures n.kind == ServiceKind ==> forall x <- n.endpoints, y <- n.endpoints :: x == y
  {
    hide Drawn, Lists, OwnerShown, IsGroups, IsEdges, Numerals.PrintInt;
    assert IsNode(src, o, n);
    forall x: GraphEndpoint
      ensures RegistrationOf(n, x) in Drawn(src, o) <==>
              Lists(src, o, n.kind, n.text, x) && OwnerShown(src, o, x.identity)
    {
      DrawnExactly(src, o, RegistrationOf(n, x));
    }
    var first := n.endpoints[0];
    assert first in n.endpoints;
    if n.kind != ServiceKind {
      forall x | RegistrationOf(n, x) in Drawn(src, o) ensures x in n.endpoints {
        SharedByName(RegistrationOf(n, x), RegistrationOf(n, first));
      }
    } else {
      forall x, y | x in n.endpoints && y in n.endpoints ensures x == y {
        ServicesApart(src, o, n, x, y);
      }
    }
  }

  lemma SharedByName(a: Registration, b: Registration)
    requires a.kind == b.kind != ServiceKind && a.name == b.name
    ensures ChannelId(a) == ChannelId(b)
  {
  }

  lemma ServicesApart(src: Snapshot, o: Options, n: GraphNode, x: GraphEndpoint, y: GraphEndpoint)
    requires IsNode(src, o, n) && n.kind == ServiceKind && x in n.endpoints && y in n.endpoints
    ensures x == y
  {
    hide ChannelId, Numerals.PrintInt, Drawn;
    ChannelIdNames(RegistrationOf(n, x), RegistrationOf(n, y));
    DrawnExactly(src, o, RegistrationOf(n, x));
    DrawnExactly(src, o, RegistrationOf(n, y));
  }

  /** Everything listed has its channel node, which holds it. */
  lemma ListedIsShown(src: Snapshot, o: Options, g: Graph, kind: GraphKind, name: string, x: GraphEndpoint)
    returns (n: GraphNode)
    requires IsGraph(src, o, g) && Lists(src, o, kind, name, x) && OwnerShown(src, o, x.identity)
    ensures n in g.nodes && n.kind == kind && n.text == name && x in n.endpoints
  {
    hide Lists, OwnerShown, Drawn, ChannelId, Numerals.PrintInt, IsGroups, IsEdges;
    var r := Registration(kind, name, x.identity, x.role);
    DrawnExactly(src, o, r);
    GraphFilter.DrawnAreChannels(src, o);
    n := GraphFilter.ChannelExists(Drawn(src, o), r);
    GraphFilter.ChannelNotElement(Drawn(src, o), n);
    assert IsNode(src, o, n);
    assert RegistrationOf(n, x) == r;
  }

  /** Everything listed whose element is let through has its edge with that element, in the direction of its role. */
  lemma ListedIsJoined(src: Snapshot, o: Options, g: Graph, kind: GraphKind, name: string, x: GraphEndpoint)
    returns (e: GraphEdge, element: GraphNode, channel: GraphNode)
    requires IsGraph(src, o, g) && Lists(src, o, kind, name, x)
    requires exists y :: y in src.elements && LetThrough(y, o.group) && y.identity == x.identity.runtime
    ensures e in g.edges && e.endpoint == x.identity && e.role == x.role
    ensures element in g.nodes && channel in g.nodes && channel.kind == kind && channel.text == name
    ensures GraphFilter.Joins(e, element, channel)
  {
    hide Lists, Drawn, ChannelId, ElementId, Numerals.PrintInt, GraphFilter.Joins, Outgoing;
    var r := Registration(kind, name, x.identity, x.role);
    assert OwnerShown(src, o, x.identity);
    DrawnExactly(src, o, r);
    OwnedByElement(src, o, r);
    e := EdgeOf(r);
    assert IsEdge(src, o, e);
    element, channel := GraphFilter.EdgeNodes(src, o, g, r);
  }

  // ---- Order ----

  /** Process, start and registration of an endpoint. */
  ghost predicate IdentityBefore(a: EndpointIdentity, b: EndpointIdentity) {
    || a.runtime.pid < b.runtime.pid
    || (a.runtime.pid == b.runtime.pid && a.runtime.startTicks < b.runtime.startTicks)
    || (a.runtime == b.runtime && a.registration < b.registration)
  }

  function Rank(k: GraphKind): nat {
    match k
    case ElementKind => 0
    case TopicKind => 1
    case ParameterKind => 2
    case ServiceKind => 3
    case ActionKind => 4
    case HostKind => 5
  }

  /** Elements, then topics, parameters and services; within a kind by group, label and id. */
  ghost predicate NodeBefore(a: GraphNode, b: GraphNode) {
    || Rank(a.kind) < Rank(b.kind)
    || (a.kind == b.kind && Ordering.TextBefore(a.group, b.group))
    || (a.kind == b.kind && a.group == b.group && Ordering.TextBefore(a.text, b.text))
    || (a.kind == b.kind && a.group == b.group && a.text == b.text && Ordering.TextBefore(a.id, b.id))
  }

  /** By start, end, role and endpoint. */
  ghost predicate EdgeBefore(a: GraphEdge, b: GraphEdge) {
    || Ordering.TextBefore(a.start, b.start)
    || (a.start == b.start && Ordering.TextBefore(a.end, b.end))
    || (a.start == b.start && a.end == b.end && Ordering.TextBefore(a.role, b.role))
    || (a.start == b.start && a.end == b.end && a.role == b.role && IdentityBefore(a.endpoint, b.endpoint))
  }

  ghost predicate EndpointBefore(a: GraphEndpoint, b: GraphEndpoint) {
    IdentityBefore(a.identity, b.identity) || (a.identity == b.identity && Ordering.TextBefore(a.role, b.role))
  }

  lemma NodeKeyOrder(a: GraphNode, b: GraphNode)
    requires Ordering.KeyLess(NodeKey(a), NodeKey(b))
    ensures NodeBefore(a, b)
  {
    hide Ordering.KeyLess, Ordering.AtomLess, Ordering.TextBefore;
    Ordering.AtomLessExactly();
    var (x, y) := (NodeKey(a), NodeKey(b));
    assert x == [x[0]] + x[1..] && x[1..] == [x[1]] + x[2..] && x[2..] == [x[2]] + x[3..] && x[3..] == [x[3]] + [];
    assert y == [y[0]] + y[1..] && y[1..] == [y[1]] + y[2..] && y[2..] == [y[2]] + y[3..] && y[3..] == [y[3]] + [];
    Ordering.KeyLessHead(x[0], x[1..], y[0], y[1..]);
    Ordering.KeyLessHead(x[1], x[2..], y[1], y[2..]);
    Ordering.KeyLessHead(x[2], x[3..], y[2], y[3..]);
    Ordering.KeyLessHead(x[3], [], y[3], []);
    Ordering.KeyIrreflexive([]);
  }

  lemma IdentityKeyOrder(a: EndpointIdentity, b: EndpointIdentity, s: seq<Ordering.Atom>, t: seq<Ordering.Atom>)
    requires Ordering.KeyLess(IdentityKey(a) + s, IdentityKey(b) + t)
    ensures IdentityBefore(a, b) || (a == b && Ordering.KeyLess(s, t))
  {
    hide Ordering.KeyLess, Ordering.AtomLess;
    Ordering.AtomLessExactly();
    var (x, y) := (IdentityKey(a), IdentityKey(b));
    assert x + s == [x[0]] + ([x[1]] + ([x[2]] + s)) && y + t == [y[0]] + ([y[1]] + ([y[2]] + t));
    Ordering.KeyLessHead(x[0], [x[1]] + ([x[2]] + s), y[0], [y[1]] + ([y[2]] + t));
    Ordering.KeyLessHead(x[1], [x[2]] + s, y[1], [y[2]] + t);
    Ordering.KeyLessHead(x[2], s, y[2], t);
  }

  lemma EndpointKeyOrder(a: GraphEndpoint, b: GraphEndpoint)
    requires Ordering.KeyLess(EndpointKey(a), EndpointKey(b))
    ensures EndpointBefore(a, b)
  {
    hide Ordering.KeyLess, Ordering.AtomLess, Ordering.TextBefore;
    Ordering.AtomLessExactly();
    IdentityKeyOrder(a.identity, b.identity, [Ordering.Text(a.role)], [Ordering.Text(b.role)]);
    Ordering.KeyLessHead(Ordering.Text(a.role), [], Ordering.Text(b.role), []);
    Ordering.KeyIrreflexive([]);
    assert [Ordering.Text(a.role)] + [] == [Ordering.Text(a.role)];
    assert [Ordering.Text(b.role)] + [] == [Ordering.Text(b.role)];
  }

  lemma EdgeKeyOrder(a: GraphEdge, b: GraphEdge)
    requires Ordering.KeyLess(EdgeKey(a), EdgeKey(b))
    ensures EdgeBefore(a, b)
  {
    hide Ordering.KeyLess, Ordering.AtomLess, Ordering.TextBefore;
    Ordering.AtomLessExactly();
    var (x, y) := (EdgeKey(a), EdgeKey(b));
    var (i, j) := (IdentityKey(a.endpoint), IdentityKey(b.endpoint));
    assert x == [x[0]] + ([x[1]] + ([x[2]] + i)) && y == [y[0]] + ([y[1]] + ([y[2]] + j));
    Ordering.KeyLessHead(x[0], [x[1]] + ([x[2]] + i), y[0], [y[1]] + ([y[2]] + j));
    Ordering.KeyLessHead(x[1], [x[2]] + i, y[1], [y[2]] + j);
    Ordering.KeyLessHead(x[2], i, y[2], j);
    if Ordering.KeyLess(i, j) {
      assert i + [] == i && j + [] == j;
      IdentityKeyOrder(a.endpoint, b.endpoint, [], []);
      Ordering.KeyIrreflexive([]);
    }
  }

  /** In what order groups, nodes, edges and the endpoints of a node stand. */
  lemma GraphInOrder(src: Snapshot, o: Options, g: Graph)
    requires IsGraph(src, o, g)
    ensures forall i, j :: 0 <= i < j < |g.groups| ==> Ordering.TextBefore(g.groups[i].id, g.groups[j].id)
    ensures forall i, j :: 0 <= i < j < |g.nodes| ==> NodeBefore(g.nodes[i], g.nodes[j])
    ensures forall i, j :: 0 <= i < j < |g.edges| ==> EdgeBefore(g.edges[i], g.edges[j])
    ensures forall n <- g.nodes :: n.kind != ElementKind ==>
              forall i, j :: 0 <= i < j < |n.endpoints| ==> EndpointBefore(n.endpoints[i], n.endpoints[j])
  {
    hide NodeBefore, EdgeBefore, EndpointBefore, Ordering.TextBefore, Ordering.KeyLess, NodeKey, EdgeKey, EndpointKey,
         IsChannel, IsEdge, GroupLabel, LastShown;
    forall i, j | 0 <= i < j < |g.groups| ensures Ordering.TextBefore(g.groups[i].id, g.groups[j].id) {
      GroupKeyOrder(g.groups[i], g.groups[j]);
    }
    forall i, j | 0 <= i < j < |g.nodes| ensures NodeBefore(g.nodes[i], g.nodes[j]) {
      NodeKeyOrder(g.nodes[i], g.nodes[j]);
    }
    forall i, j | 0 <= i < j < |g.edges| ensures EdgeBefore(g.edges[i], g.edges[j]) {
      EdgeKeyOrder(g.edges[i], g.edges[j]);
    }
    forall n | n in g.nodes && n.kind != ElementKind
      ensures forall i, j :: 0 <= i < j < |n.endpoints| ==> EndpointBefore(n.endpoints[i], n.endpoints[j])
    {
      assert IsNode(src, o, n);
      forall i, j | 0 <= i < j < |n.endpoints| ensures EndpointBefore(n.endpoints[i], n.endpoints[j]) {
        EndpointKeyOrder(n.endpoints[i], n.endpoints[j]);
      }
    }
  }

  lemma GroupKeyOrder(a: GraphGroup, b: GraphGroup)
    requires Ordering.KeyLess(GroupKey(a), GroupKey(b))
    ensures Ordering.TextBefore(a.id, b.id)
  {
    hide Ordering.TextBefore, Ordering.AtomLess;
    Ordering.AtomLessExactly();
    assert GroupKey(a)[0] == Ordering.Text(a.id) && GroupKey(b)[0] == Ordering.Text(b.id);
    Ordering.KeyIrreflexive([]);
  }
}
