/** The graph of a local discovery snapshot: what it must contain, said without any order of the discovered lists. */
module GraphModel {
  import opened Results
  import opened Numerals
  import opened Ordering

  // ---- Discovered records ----

  datatype RuntimeIdentity = RuntimeIdentity(pid: Int32, startTicks: Uint64)

  datatype EndpointIdentity = EndpointIdentity(runtime: RuntimeIdentity, registration: Uint64)

  datatype Application = Application(name: string, supervisor: RuntimeIdentity)

  datatype Element = Element(name: string, identity: RuntimeIdentity, supervisor: RuntimeIdentity,
                             applicationName: string)

  datatype Topic = Topic(name: string, identity: EndpointIdentity, role: string)

  datatype Parameter = Parameter(name: string, identity: EndpointIdentity, role: string)

  datatype Service = Service(name: string, identity: EndpointIdentity)

  datatype Snapshot = Snapshot(applications: seq<Application>, elements: seq<Element>, topics: seq<Topic>,
                               parameters: seq<Parameter>, services: seq<Service>)

  // ---- The graph ----

  datatype GraphKind = ElementKind | TopicKind | ParameterKind | ServiceKind | ActionKind | HostKind

  datatype GraphGroup = GraphGroup(id: string, text: string, host: string)

  datatype GraphEndpoint = GraphEndpoint(identity: EndpointIdentity, role: string)

  /** text is the label; a node of a remote host names that host. */
  datatype GraphNode = GraphNode(id: string, text: string, group: string, kind: GraphKind, runtime: RuntimeIdentity,
                                 endpoints: seq<GraphEndpoint>, host: string, lost: bool)

  datatype GraphEdge = GraphEdge(start: string, end: string, role: string, endpoint: EndpointIdentity, network: bool,
                                 detail: string)

  datatype Graph = Graph(groups: seq<GraphGroup>, nodes: seq<GraphNode>, edges: seq<GraphEdge>)

  datatype Options = Options(topics: bool, parameters: bool, services: bool, group: string, actions: bool,
                             local: bool, remote: bool, host: string)

  const NO_RUNTIME := RuntimeIdentity(0, 0)
  const NO_ENDPOINT := EndpointIdentity(NO_RUNTIME, 0)

  function KindNumber(k: GraphKind): nat {
    match k
    case ElementKind => 0
    case TopicKind => 1
    case ParameterKind => 2
    case ServiceKind => 3
    case ActionKind => 4
    case HostKind => 5
  }

  // ---- Identities as text ----

  function IdText(id: RuntimeIdentity): string { PrintInt(id.pid) + ":" + PrintInt(id.startTicks) }

  function ElementId(id: RuntimeIdentity): string { "element:" + IdText(id) }

  lemma IdTextInjective(a: RuntimeIdentity, b: RuntimeIdentity)
    requires IdText(a) == IdText(b)
    ensures a == b
  {
    PrintIntColonFree(a.startTicks);
    PrintIntColonFree(b.startTicks);
    SplitLast(PrintInt(a.pid), PrintInt(a.startTicks), PrintInt(b.pid), PrintInt(b.startTicks));
    PrintIntInjective(a.pid, b.pid);
    PrintIntInjective(a.startTicks, b.startTicks);
  }

  lemma ElementIdInjective(a: RuntimeIdentity, b: RuntimeIdentity)
    requires ElementId(a) == ElementId(b)
    ensures a == b
  {
    assert ElementId(a)[8..] == IdText(a) && ElementId(b)[8..] == IdText(b);
    IdTextInjective(a, b);
  }

  // ---- Registrations ----

  /** One endpoint of one runtime on a topic, parameter or service. */
  datatype Registration = Registration(kind: GraphKind, name: string, identity: EndpointIdentity, role: string)

  predicate IsChannelKind(k: GraphKind) { k == TopicKind || k == ParameterKind || k == ServiceKind }

  /** Topics and parameters are shared by name; every service registration is a node of its own. */
  function ChannelId(r: Registration): string { PrintInt(KindNumber(r.kind)) + ":" + ChannelText(r) }

  function ChannelText(r: Registration): string {
    if r.kind == ServiceKind then r.name + (":" + IdText(r.identity.runtime) + ":" + PrintInt(r.identity.registration))
    else r.name
  }

  predicate Outgoing(r: Registration) {
    match r.kind
    case TopicKind => r.role == "PUBLISHER"
    case ParameterKind => r.role == "OWNER"
    case _ => true
  }

  function EdgeOf(r: Registration): GraphEdge {
    var (element, channel) := (ElementId(r.identity.runtime), ChannelId(r));
    if Outgoing(r) then GraphEdge(element, channel, r.role, r.identity, false, "")
    else GraphEdge(channel, element, r.role, r.identity, false, "")
  }

  predicate IsTopicRole(role: string) { role == "PUBLISHER" || role == "SUBSCRIBER" }

  predicate IsParameterRole(role: string) { role == "OWNER" || role == "CLIENT" }

  function OfTopic(t: Topic): Registration { Registration(TopicKind, t.name, t.identity, t.role) }

  function OfParameter(p: Parameter): Registration { Registration(ParameterKind, p.name, p.identity, p.role) }

  function OfService(s: Service): Registration { Registration(ServiceKind, s.name, s.identity, "SERVER") }

  function OfTopics(topics: seq<Topic>): set<Registration> { set t | t in topics && IsTopicRole(t.role) :: OfTopic(t) }

  function OfParameters(parameters: seq<Parameter>): set<Registration> {
    set p | p in parameters && IsParameterRole(p.role) :: OfParameter(p)
  }

  function OfServices(services: seq<Service>): set<Registration> { set s | s in services :: OfService(s) }

  /** The registrations of the chosen kinds with a known role. */
  function Registrations(src: Snapshot, o: Options): set<Registration> {
    (if o.topics then OfTopics(src.topics) else {}) +
    (if o.parameters then OfParameters(src.parameters) else {}) +
    (if o.services then OfServices(src.services) else {})
  }

  lemma ChannelIdStart(r: Registration)
    requires IsChannelKind(r.kind)
    ensures ChannelId(r) != "" && IsDigit(ChannelId(r)[0])
  {
    PrintIsNumeral(KindNumber(r.kind));
  }

  lemma TailParts(name: string, i: EndpointIdentity)
    ensures name + (":" + IdText(i.runtime) + ":" + PrintInt(i.registration)) ==
            name + ":" + PrintInt(i.runtime.pid) + ":" + PrintInt(i.runtime.startTicks) + ":" + PrintInt(i.registration)
  {
  }

  lemma ServiceTailInjective(name: string, i: EndpointIdentity, text: string, j: EndpointIdentity)
    requires name + (":" + IdText(i.runtime) + ":" + PrintInt(i.registration))
          == text + (":" + IdText(j.runtime) + ":" + PrintInt(j.registration))
    ensures name == text && i == j
  {
    PrintIntColonFree(i.registration);
    PrintIntColonFree(j.registration);
    PrintIntColonFree(i.runtime.startTicks);
    PrintIntColonFree(j.runtime.startTicks);
    PrintIntColonFree(i.runtime.pid);
    PrintIntColonFree(j.runtime.pid);
    var (a2, b2) := (name + ":" + PrintInt(i.runtime.pid), text + ":" + PrintInt(j.runtime.pid));
    var (a1, b1) := (a2 + ":" + PrintInt(i.runtime.startTicks), b2 + ":" + PrintInt(j.runtime.startTicks));
    TailParts(name, i);
    TailParts(text, j);
    SplitLast(a1, PrintInt(i.registration), b1, PrintInt(j.registration));
    SplitLast(a2, PrintInt(i.runtime.startTicks), b2, PrintInt(j.runtime.startTicks));
    SplitLast(name, PrintInt(i.runtime.pid), text, PrintInt(j.runtime.pid));
    PrintIntInjective(i.registration, j.registration);
    PrintIntInjective(i.runtime.startTicks, j.runtime.startTicks);
    PrintIntInjective(i.runtime.pid, j.runtime.pid);
  }

  /** A channel's node id gives back its kind and name, and for a service the registration, whatever the name
      contains. */
  lemma ChannelIdNames(a: Registration, b: Registration)
    requires IsChannelKind(a.kind) && IsChannelKind(b.kind) && ChannelId(a) == ChannelId(b)
    ensures a.kind == b.kind && a.name == b.name
    ensures a.kind == ServiceKind ==> a.identity == b.identity
  {
    PrintIntColonFree(KindNumber(a.kind));
    PrintIntColonFree(KindNumber(b.kind));
    SplitFirst(PrintInt(KindNumber(a.kind)), ChannelText(a), PrintInt(KindNumber(b.kind)), ChannelText(b));
    PrintIntInjective(KindNumber(a.kind), KindNumber(b.kind));
    if a.kind == ServiceKind {
      ServiceTailInjective(a.name, a.identity, b.name, b.identity);
    }
  }

  /** Registrations and their edges are one to one. */
  lemma EdgeOfInjective(a: Registration, b: Registration)
    requires IsChannelKind(a.kind) && IsChannelKind(b.kind) && EdgeOf(a) == EdgeOf(b)
    ensures a == b
  {
    ChannelIdStart(a);
    ChannelIdStart(b);
    assert ElementId(a.identity.runtime)[0] == 'e' && ElementId(b.identity.runtime)[0] == 'e';
    assert ChannelId(a) == ChannelId(b);
    ChannelIdNames(a, b);
  }

  // ---- Sort keys ----

  function IdentityKey(id: EndpointIdentity): seq<Atom> {
    [Number(id.runtime.pid), Number(id.runtime.startTicks), Number(id.registration)]
  }

  function GroupKey(g: GraphGroup): seq<Atom> { [Text(g.id)] }

  function EndpointKey(e: GraphEndpoint): seq<Atom> { IdentityKey(e.identity) + [Text(e.role)] }

  function NodeKey(n: GraphNode): seq<Atom> { [Number(KindNumber(n.kind)), Text(n.group), Text(n.text), Text(n.id)] }

  function EdgeKey(e: GraphEdge): seq<Atom> { [Text(e.start), Text(e.end), Text(e.role)] + IdentityKey(e.endpoint) }

  lemma IdentityKeyInjective(a: EndpointIdentity, b: EndpointIdentity)
    requires IdentityKey(a) == IdentityKey(b)
    ensures a == b
  {
    var (k, l) := (IdentityKey(a), IdentityKey(b));
    assert k[0] == l[0] && k[1] == l[1] && k[2] == l[2];
  }

  lemma EndpointKeyInjective(a: GraphEndpoint, b: GraphEndpoint)
    requires EndpointKey(a) == EndpointKey(b)
    ensures a == b
  {
    var (k, l) := (EndpointKey(a), EndpointKey(b));
    assert k[..3] == IdentityKey(a.identity) && l[..3] == IdentityKey(b.identity);
    assert k[3] == l[3];
    IdentityKeyInjective(a.identity, b.identity);
  }

  lemma NodeKeyNames(a: GraphNode, b: GraphNode)
    requires NodeKey(a) == NodeKey(b)
    ensures a.id == b.id
  {
    assert NodeKey(a)[3] == NodeKey(b)[3];
  }

  lemma EdgeKeyNames(a: GraphEdge, b: GraphEdge)
    requires EdgeKey(a) == EdgeKey(b)
    ensures a.start == b.start && a.end == b.end && a.role == b.role && a.endpoint == b.endpoint
  {
    var (k, l) := (EdgeKey(a), EdgeKey(b));
    assert k[0] == l[0] && k[1] == l[1] && k[2] == l[2];
    assert k[3..] == IdentityKey(a.endpoint) && l[3..] == IdentityKey(b.endpoint);
    IdentityKeyInjective(a.endpoint, b.endpoint);
  }

  // ---- Groups ----

  function GroupId(e: Element): string { if e.supervisor.pid > 0 then IdText(e.supervisor) else "standalone" }

  function AppLabel(a: Application): string { a.name + " [" + IdText(a.supervisor) + "]" }

  function DerivedLabel(e: Element): string {
    if GroupId(e) == "standalone" then "Standalone"
    else (if e.applicationName == "" then "Supervisor" else e.applicationName) + " [" + GroupId(e) + "]"
  }

  function LastApplication(applications: seq<Application>, group: string): (r: Option<Application>)
    ensures r.Some? ==> r.value in applications && IdText(r.value.supervisor) == group
    ensures r.None? ==> forall a :: a in applications ==> IdText(a.supervisor) != group
  {
    if applications == [] then None else
      var (before, a) := (applications[..|applications| - 1], applications[|applications| - 1]);
      if IdText(a.supervisor) == group then Some(a) else LastApplication(before, group)
  }

  function FirstElement(elements: seq<Element>, group: string): (r: Option<Element>)
    ensures r.Some? ==> r.value in elements && GroupId(r.value) == group
    ensures r.None? ==> forall e :: e in elements ==> GroupId(e) != group
  {
    if elements == [] then None else
      var (before, e) := (elements[..|elements| - 1], elements[|elements| - 1]);
      var first := FirstElement(before, group);
      if first.None? && GroupId(e) == group then Some(e) else first
  }

  /** A listed application names its group; otherwise the group's first element does; otherwise there is no such
      group. */
  function GroupLabel(applications: seq<Application>, elements: seq<Element>, group: string): Option<string> {
    match LastApplication(applications, group)
    case Some(a) => Some(AppLabel(a))
    case None =>
      match FirstElement(elements, group)
      case Some(e) => Some(DerivedLabel(e))
      case None => None
  }

  ghost predicate IsGroups(src: Snapshot, groups: seq<GraphGroup>) {
    && KeySorted(GroupKey, groups)
    && forall g: GraphGroup :: g in groups <==>
         g.host == ""
         && GroupLabel(src.applications, src.elements, g.id) == Some(g.text)
  }

  // ---- Nodes and edges ----

  predicate Shown(e: Element, group: string) { group == "" || GroupId(e) == group }

  /** The last element with this identity among those the group filter lets through. */
  function LastShown(elements: seq<Element>, group: string, id: RuntimeIdentity): (r: Option<Element>)
    ensures r.Some? ==> r.value in elements && Shown(r.value, group) && r.value.identity == id
    ensures r.None? ==> forall e :: e in elements && Shown(e, group) ==> e.identity != id
  {
    if elements == [] then None else
      var (before, e) := (elements[..|elements| - 1], elements[|elements| - 1]);
      if Shown(e, group) && e.identity == id then Some(e) else LastShown(before, group, id)
  }

  function ElementNode(e: Element): GraphNode {
    GraphNode(ElementId(e.identity), e.name, GroupId(e), ElementKind, e.identity, [], "", false)
  }

  predicate Owned(src: Snapshot, o: Options, r: Registration) {
    LastShown(src.elements, o.group, r.identity.runtime).Some?
  }

  /** With a group filter, only endpoints of shown elements are drawn; without one, endpoints of vanished runtimes are
      too. */
  function Drawn(src: Snapshot, o: Options): set<Registration> {
    set r | r in Registrations(src, o) && (o.group == "" || Owned(src, o, r))
  }

  function RegistrationOf(n: GraphNode, e: GraphEndpoint): Registration {
    Registration(n.kind, n.text, e.identity, e.role)
  }

  /** A channel node: no group, no runtime, and exactly the registrations that share its id. */
  ghost predicate IsChannel(drawn: set<Registration>, n: GraphNode) {
    && IsChannelKind(n.kind)
    && n == GraphNode(n.id, n.text, "", n.kind, NO_RUNTIME, n.endpoints, "", false)
    && n.endpoints != []
    && forall e: GraphEndpoint ::
         e in n.endpoints <==> RegistrationOf(n, e) in drawn && ChannelId(RegistrationOf(n, e)) == n.id
  }

  ghost predicate IsNode(src: Snapshot, o: Options, n: GraphNode) {
    if n.kind == ElementKind then
      LastShown(src.elements, o.group, n.runtime).Some?
          && n == ElementNode(LastShown(src.elements, o.group, n.runtime).value)
    else
      IsChannel(Drawn(src, o), n) && KeySorted(EndpointKey, n.endpoints)
  }

  ghost predicate IsNodes(src: Snapshot, o: Options, nodes: seq<GraphNode>) {
    KeySorted(NodeKey, nodes) && forall n: GraphNode :: n in nodes <==> IsNode(src, o, n)
  }

  ghost predicate IsEdge(src: Snapshot, o: Options, e: GraphEdge) {
    exists r :: r in Drawn(src, o) && Owned(src, o, r) && e == EdgeOf(r)
  }

  ghost predicate IsEdges(src: Snapshot, o: Options, edges: seq<GraphEdge>) {
    KeySorted(EdgeKey, edges) && forall e: GraphEdge :: e in edges <==> IsEdge(src, o, e)
  }

  /** Says of every group, node and edge whether it belongs, and in which order they stand. */
  ghost predicate IsGraph(src: Snapshot, o: Options, g: Graph) {
    IsGroups(src, g.groups) && IsNodes(src, o, g.nodes) && IsEdges(src, o, g.edges)
  }

  /** There is at most one such graph. */
  lemma GraphUnique(src: Snapshot, o: Options, g: Graph, h: Graph)
    requires IsGraph(src, o, g) && IsGraph(src, o, h)
    ensures g == h
  {
    KeySortedUnique(GroupKey, g.groups, h.groups);
    KeySortedUnique(NodeKey, g.nodes, h.nodes);
    KeySortedUnique(EdgeKey, g.edges, h.edges);
  }
}
