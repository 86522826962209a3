/** Laws of the graph: when the order of the lists matters, what a group filter keeps, and that edges hang
    together. */
module GraphLaws {
  import Results
  import opened Ordering
  import opened GraphModel
  import GraphFilter

  // ---- Order independence ----

  ghost predicate IsArrangement(src: Snapshot, dst: Snapshot) {
    && multiset(src.applications) == multiset(dst.applications) && multiset(src.elements) == multiset(dst.elements)
    && multiset(src.topics) == multiset(dst.topics) && multiset(src.parameters) == multiset(dst.parameters)
    && multiset(src.services) == multiset(dst.services)
  }

  ghost predicate SameMembers(src: Snapshot, dst: Snapshot) {
    && (forall x :: x in src.applications <==> x in dst.applications)
    && (forall x :: x in src.elements <==> x in dst.elements)
    && (forall x :: x in src.topics <==> x in dst.topics)
    && (forall x :: x in src.parameters <==> x in dst.parameters)
    && (forall x :: x in src.services <==> x in dst.services)
  }

  predicate Listed(applications: seq<Application>, group: string) {
    exists a :: a in applications && IdText(a.supervisor) == group
  }

  predicate NamesAgree(applications: seq<Application>) {
    forall a, b :: a in applications && b in applications && a.supervisor == b.supervisor ==> a.name == b.name
  }

  predicate ElementsAgree(elements: seq<Element>, group: string) {
    forall e, f :: e in elements && f in elements && Shown(e, group) && Shown(f, group) && e.identity == f.identity
                   ==> e.name == f.name && GroupId(e) == GroupId(f)
  }

  predicate LabelsAgree(src: Snapshot) {
    forall e, f ::
      e in src.elements && f in src.elements && GroupId(e) == GroupId(f) && !Listed(src.applications, GroupId(e)) ==>
      DerivedLabel(e) == DerivedLabel(f)
  }

  /** Records with the same identity, and elements of one unlisted supervisor, do not contradict one another. */
  predicate Coherent(src: Snapshot, group: string) {
    NamesAgree(src.applications) && ElementsAgree(src.elements, group) && LabelsAgree(src)
  }

  lemma SameLabel(src: Snapshot, dst: Snapshot, group: string)
    requires SameMembers(src, dst) && NamesAgree(src.applications) && LabelsAgree(src)
    ensures GroupLabel(src.applications, src.elements, group) == GroupLabel(dst.applications, dst.elements, group)
  {
    hide DerivedLabel, GroupId, IdText;
    var (a, b) := (LastApplication(src.applications, group), LastApplication(dst.applications, group));
    if a.Some? && b.Some? {
      IdTextInjective(a.value.supervisor, b.value.supervisor);
    }
  }

  lemma SameElement(src: Snapshot, dst: Snapshot, group: string, x: RuntimeIdentity)
    requires SameMembers(src, dst) && ElementsAgree(src.elements, group)
    ensures var (e, f) := (LastShown(src.elements, group, x), LastShown(dst.elements, group, x));
            (e.Some? <==> f.Some?) && (e.Some? ==> ElementNode(e.value) == ElementNode(f.value))
  {
    hide GroupId, IdText;
  }

  lemma SameDrawn(src: Snapshot, dst: Snapshot, o: Options)
    requires SameMembers(src, dst) && ElementsAgree(src.elements, o.group)
    ensures Drawn(src, o) == Drawn(dst, o)
    ensures forall r :: Owned(src, o, r) <==> Owned(dst, o, r)
  {
    forall r: Registration ensures Owned(src, o, r) <==> Owned(dst, o, r) {
      SameElement(src, dst, o.group, r.identity.runtime);
    }
    assert Registrations(src, o) == Registrations(dst, o);
  }

  /** Lists with the same members, in any order and with any repetition, give the identical graph. */
  lemma OrderIndependent(src: Snapshot, dst: Snapshot, o: Options, g: Graph, h: Graph)
    requires SameMembers(src, dst) && Coherent(src, o.group)
    requires IsGraph(src, o, g) && IsGraph(dst, o, h)
    ensures g == h
  {
    hide Drawn, Registrations, ElementNode, GroupLabel, LastShown, KeyLess, EdgeOf, NamesAgree, ElementsAgree,
         LabelsAgree;
    forall t: string
      ensures GroupLabel(src.applications, src.elements, t) == GroupLabel(dst.applications, dst.elements, t)
    {
      SameLabel(src, dst, t);
    }
    SameDrawn(src, dst, o);
    forall n: GraphNode ensures IsNode(src, o, n) <==> IsNode(dst, o, n) {
      SameElement(src, dst, o.group, n.runtime);
    }
    assert forall e: GraphEdge :: IsEdge(src, o, e) <==> IsEdge(dst, o, e);
    GraphUnique(dst, o, g, h);
  }

  function MoveLast<T>(s: seq<T>, i: nat): seq<T>
    requires i < |s|
  {
    s[..i] + s[i + 1..] + [s[i]]
  }

  function MoveFirst<T>(s: seq<T>, i: nat): seq<T>
    requires i < |s|
  {
    [s[i]] + s[..i] + s[i + 1..]
  }

  lemma MovesArrange<T>(s: seq<T>, i: nat)
    requires i < |s|
    ensures multiset(MoveLast(s, i)) == multiset(s) == multiset(MoveFirst(s, i))
  {
    assert s == s[..i] + [s[i]] + s[i + 1..];
    assert multiset(s) == multiset(s[..i]) + multiset{s[i]} + multiset(s[i + 1..]);
  }

  lemma ApplicationsArranged(src: Snapshot, i: nat)
    requires i < |src.applications|
    ensures IsArrangement(src, src.(applications := MoveLast(src.applications, i)))
  {
    MovesArrange(src.applications, i);
  }

  lemma ElementsArranged(src: Snapshot, i: nat)
    requires i < |src.elements|
    ensures IsArrangement(src, src.(elements := MoveLast(src.elements, i)))
    ensures IsArrangement(src, src.(elements := MoveFirst(src.elements, i)))
  {
    MovesArrange(src.elements, i);
  }

  lemma LastApplicationMoved(applications: seq<Application>, i: nat)
    requires i < |applications|
    ensures LastApplication(MoveLast(applications, i), IdText(applications[i].supervisor)) ==
              Results.Some(applications[i])
  {
    var moved := MoveLast(applications, i);
    assert moved[|moved| - 1] == applications[i];
  }

  lemma LastShownMoved(elements: seq<Element>, i: nat, group: string)
    requires i < |elements| && Shown(elements[i], group)
    ensures LastShown(MoveLast(elements, i), group, elements[i].identity) == Results.Some(elements[i])
  {
    var moved := MoveLast(elements, i);
    assert moved[|moved| - 1] == elements[i];
  }

  lemma {:induction false} FirstIsFirst(elements: seq<Element>, group: string)
    requires elements != [] && GroupId(elements[0]) == group
    ensures FirstElement(elements, group) == Results.Some(elements[0])
  {
    if |elements| > 1 { FirstIsFirst(elements[..|elements| - 1], group); }
  }

  lemma AppLabelNames(a: Application, b: Application)
    requires AppLabel(a) == AppLabel(b) && a.supervisor == b.supervisor
    ensures a.name == b.name
  {
    assert |a.name| == |b.name|;
    assert a.name == AppLabel(a)[..|a.name|] && b.name == AppLabel(b)[..|b.name|];
  }

  ghost predicate Differ(one: Snapshot, two: Snapshot, o: Options) {
    forall g, h :: IsGraph(one, o, g) && IsGraph(two, o, h) ==> g != h
  }

  /** Incoherent lists have two orders whose graphs differ. */
  lemma IncoherentDiffers(src: Snapshot, o: Options) returns (one: Snapshot, two: Snapshot)
    requires !Coherent(src, o.group)
    ensures IsArrangement(src, one) && IsArrangement(src, two) && Differ(one, two, o)
  {
    hide NamesAgree, ElementsAgree, LabelsAgree, IsArrangement, Differ;
    if !NamesAgree(src.applications) {
      one, two := ApplicationsDiffer(src, o);
    } else if !ElementsAgree(src.elements, o.group) {
      one, two := ElementsDiffer(src, o);
    } else {
      one, two := LabelsDiffer(src, o);
    }
  }

  lemma LabelDiffers(one: Snapshot, two: Snapshot, o: Options, group: string)
    requires GroupLabel(one.applications, one.elements, group).Some?
    requires GroupLabel(one.applications, one.elements, group) != GroupLabel(two.applications, two.elements, group)
    ensures Differ(one, two, o)
  {
    hide GroupLabel, IsNodes, IsEdges, KeySorted;
    var x := GraphGroup(group, GroupLabel(one.applications, one.elements, group).value, "");
    forall g, h | IsGraph(one, o, g) && IsGraph(two, o, h) ensures g != h {
      assert x in g.groups && x !in h.groups;
    }
  }

  lemma NodeDiffers(one: Snapshot, two: Snapshot, o: Options, n: GraphNode)
    requires IsNode(one, o, n) && !IsNode(two, o, n)
    ensures Differ(one, two, o)
  {
    hide IsNode, IsGroups, IsEdges, KeySorted;
    forall g, h | IsGraph(one, o, g) && IsGraph(two, o, h) ensures g != h {
      assert n in g.nodes && n !in h.nodes;
    }
  }

  lemma ApplicationsDiffer(src: Snapshot, o: Options) returns (one: Snapshot, two: Snapshot)
    requires !NamesAgree(src.applications)
    ensures IsArrangement(src, one) && IsArrangement(src, two) && Differ(one, two, o)
  {
    hide IsArrangement, IdText, AppLabel, LastApplication, FirstElement, MoveLast, Differ;
    var a, b :| a in src.applications && b in src.applications && a.supervisor == b.supervisor && a.name != b.name;
    var i :| 0 <= i < |src.applications| && src.applications[i] == a;
    var j :| 0 <= j < |src.applications| && src.applications[j] == b;
    ApplicationsArranged(src, i);
    ApplicationsArranged(src, j);
    one := src.(applications := MoveLast(src.applications, i));
    two := src.(applications := MoveLast(src.applications, j));
    LastApplicationMoved(src.applications, i);
    LastApplicationMoved(src.applications, j);
    if AppLabel(a) == AppLabel(b) { AppLabelNames(a, b); }
    LabelDiffers(one, two, o, IdText(a.supervisor));
  }

  lemma ElementsDiffer(src: Snapshot, o: Options) returns (one: Snapshot, two: Snapshot)
    requires !ElementsAgree(src.elements, o.group)
    ensures IsArrangement(src, one) && IsArrangement(src, two) && Differ(one, two, o)
  {
    hide IsArrangement, IdText, GroupId, LastShown, MoveLast, Differ, IsNode, ElementNode;
    var e, f :| e in src.elements && f in src.elements && Shown(e, o.group) && Shown(f, o.group)
        && e.identity == f.identity
                && !(e.name == f.name && GroupId(e) == GroupId(f));
    var i :| 0 <= i < |src.elements| && src.elements[i] == e;
    var j :| 0 <= j < |src.elements| && src.elements[j] == f;
    ElementsArranged(src, i);
    ElementsArranged(src, j);
    one := src.(elements := MoveLast(src.elements, i));
    two := src.(elements := MoveLast(src.elements, j));
    LastShownMoved(src.elements, i, o.group);
    LastShownMoved(src.elements, j, o.group);
    ElementNodeDiffers(one, two, o, e, f);
  }

  lemma ElementNodeDiffers(one: Snapshot, two: Snapshot, o: Options, e: Element, f: Element)
    requires e.identity == f.identity && !(e.name == f.name && GroupId(e) == GroupId(f))
    requires LastShown(one.elements, o.group, e.identity) == Results.Some(e)
    requires LastShown(two.elements, o.group, f.identity) == Results.Some(f)
    ensures Differ(one, two, o)
  {
    hide IdText, GroupId, ElementId, LastShown, Differ, IsChannel, KeySorted;
    NodeDiffers(one, two, o, ElementNode(e));
  }

  lemma LabelsDiffer(src: Snapshot, o: Options) returns (one: Snapshot, two: Snapshot)
    requires !LabelsAgree(src)
    ensures IsArrangement(src, one) && IsArrangement(src, two) && Differ(one, two, o)
  {
    hide IsArrangement, DerivedLabel, GroupId, IdText, FirstElement, LastApplication, Differ;
    var e, f :| e in src.elements && f in src.elements && GroupId(e) == GroupId(f)
        && !Listed(src.applications, GroupId(e))
                && DerivedLabel(e) != DerivedLabel(f);
    var i :| 0 <= i < |src.elements| && src.elements[i] == e;
    var j :| 0 <= j < |src.elements| && src.elements[j] == f;
    ElementsArranged(src, i);
    ElementsArranged(src, j);
    one := src.(elements := MoveFirst(src.elements, i));
    two := src.(elements := MoveFirst(src.elements, j));
    FirstIsFirst(one.elements, GroupId(e));
    FirstIsFirst(two.elements, GroupId(e));
    LabelDiffers(one, two, o, GroupId(e));
  }

  // ---- Every snapshot has a graph ----

  lemma GroupsExist(src: Snapshot) returns (groups: seq<GraphGroup>)
    ensures IsGroups(src, groups)
  {
    hide KeyLess, IdText, GroupId, AppLabel, DerivedLabel;
    var ids := (set a | a in src.applications :: IdText(a.supervisor)) + (set e | e in src.elements :: GroupId(e));
    forall id: string ensures id in ids <==> GroupLabel(src.applications, src.elements, id).Some? {}
    var all := set id | id in ids :: GraphGroup(id, GroupLabel(src.applications, src.elements, id).value, "");
    forall x, y | x in all && y in all && GroupKey(x) == GroupKey(y) ensures x == y {
      assert GroupKey(x)[0] == GroupKey(y)[0];
    }
    groups := Arrange(GroupKey, all);
  }

  lemma SomeChannel(all: set<Registration>, r: Registration)
    requires r in all && forall q :: q in all ==> IsChannelKind(q.kind)
    ensures exists m :: IsChannel(all, m) && KeySorted(EndpointKey, m.endpoints) && m.id == ChannelId(r)
  {
    var m := GraphFilter.ChannelExists(all, r);
  }

  ghost function Channel(all: set<Registration>, r: Registration): (m: GraphNode)
    requires r in all && forall q :: q in all ==> IsChannelKind(q.kind)
    ensures IsChannel(all, m) && KeySorted(EndpointKey, m.endpoints) && m.id == ChannelId(r)
  {
    SomeChannel(all, r);
    var m :| IsChannel(all, m) && KeySorted(EndpointKey, m.endpoints) && m.id == ChannelId(r);
    m
  }

  lemma NodesExist(src: Snapshot, o: Options) returns (nodes: seq<GraphNode>)
    ensures IsNodes(src, o, nodes)
  {
    hide KeyLess, NodeKey, EndpointKey, ElementId, IdText, GroupId, ChannelId, Drawn, IsChannel;
    var drawn := Drawn(src, o);
    GraphFilter.DrawnAreChannels(src, o);
    var elements := set e | e in src.elements
        && Shown(e, o.group) :: ElementNode(LastShown(src.elements, o.group, e.identity).value);
    var channels := set r | r in drawn :: Channel(drawn, r);
    forall n: GraphNode ensures n in elements + channels <==> IsNode(src, o, n) {
      if n in channels { GraphFilter.ChannelNotElement(drawn, n); }
      if IsNode(src, o, n) && n.kind != ElementKind {
        var r := FirstRegistration(drawn, n);
        GraphFilter.ChannelsUnique(drawn, n, Channel(drawn, r));
      }
    }
    forall m, n | IsNode(src, o, m) && IsNode(src, o, n) && NodeKey(m) == NodeKey(n) ensures m == n {
      NodeIdNames(src, o, m, n);
    }
    nodes := Arrange(NodeKey, elements + channels);
  }

  lemma FirstRegistration(drawn: set<Registration>, n: GraphNode) returns (r: Registration)
    requires IsChannel(drawn, n)
    ensures r in drawn && ChannelId(r) == n.id
  {
    assert n.endpoints[0] in n.endpoints;
    r := RegistrationOf(n, n.endpoints[0]);
  }

  lemma NodeIdNames(src: Snapshot, o: Options, m: GraphNode, n: GraphNode)
    requires IsNode(src, o, m) && IsNode(src, o, n) && NodeKey(m) == NodeKey(n)
    ensures m == n
  {
    hide Drawn, IdText, ElementId, ChannelId, IsChannel, LastShown;
    NodeKeyNames(m, n);
    assert NodeKey(m)[0] == NodeKey(n)[0];
    assert m.kind == ElementKind <==> n.kind == ElementKind;
    if m.kind == ElementKind {
      ElementIdInjective(m.runtime, n.runtime);
    } else {
      GraphFilter.ChannelsUnique(Drawn(src, o), m, n);
    }
  }

  lemma EdgesExist(src: Snapshot, o: Options) returns (edges: seq<GraphEdge>)
    ensures IsEdges(src, o, edges)
  {
    hide KeyLess, EdgeKey, Drawn, EdgeOf, LastShown;
    GraphFilter.DrawnAreChannels(src, o);
    var all := set r | r in Drawn(src, o) && Owned(src, o, r) :: EdgeOf(r);
    forall x, y | x in all && y in all && EdgeKey(x) == EdgeKey(y) ensures x == y {
      EdgeKeyNames(x, y);
      EdgeIsLocal(src, o, x);
      EdgeIsLocal(src, o, y);
    }
    edges := Arrange(EdgeKey, all);
  }

  lemma EdgeIsLocal(src: Snapshot, o: Options, e: GraphEdge)
    requires IsEdge(src, o, e)
    ensures !e.network && e.detail == ""
  {
    hide ChannelId, ElementId, Drawn;
  }

  lemma GraphExists(src: Snapshot, o: Options) returns (g: Graph)
    ensures IsGraph(src, o, g)
  {
    hide IsGroups, IsNodes, IsEdges;
    var groups := GroupsExist(src);
    var nodes := NodesExist(src, o);
    var edges := EdgesExist(src, o);
    g := Graph(groups, nodes, edges);
  }

  /** An element listed again under another supervisor is shown in its old group by the filter, and not by the cut. */
  lemma FilterDiffers() returns (src: Snapshot, o: Options, g: Graph, f: Graph)
    ensures o.group != "" && IsGraph(src, o.(group := ""), g) && IsGraph(src, o, f)
            && f != GraphFilter.RestrictGraph(g, o.group)
  {
    hide IsGraph, GraphFilter.RestrictGraph, IdText;
    var id := RuntimeIdentity(100, 7);
    var (early, late) := (Element("camera", id, RuntimeIdentity(10, 1), "a"),
                          Element("camera", id, RuntimeIdentity(20, 1), "b"));
    src := Snapshot([], [early, late], [], [], []);
    o := Options(true, true, true, GroupId(early), false, true, true, "");
    GroupNotEmpty(early.supervisor);
    if GroupId(early) == GroupId(late) { IdTextInjective(early.supervisor, late.supervisor); }
    g := GraphExists(src, o.(group := ""));
    f := GraphExists(src, o);
    assert LastShown(src.elements, "", id) == Results.Some(late);
    assert early in src.elements && !GraphFilter.LastStays(src.elements, o.group);
    GraphFilter.FilterRestricts(src, o, g, f);
  }

  lemma GroupNotEmpty(id: RuntimeIdentity)
    ensures IdText(id) != ""
  {
  }

  /** Two applications with one supervisor and different names: reversing them relabels the group. */
  lemma OrderMatters() returns (src: Snapshot, dst: Snapshot, o: Options, g: Graph, h: Graph)
    ensures IsArrangement(src, dst) && IsGraph(src, o, g) && IsGraph(dst, o, h) && g != h
  {
    hide IsGraph, IsArrangement, IdText, AppLabel;
    var (a, b) := (Application("a", RuntimeIdentity(10, 1)), Application("b", RuntimeIdentity(10, 1)));
    src := Snapshot([a, b], [], [], [], []);
    dst := Snapshot([b, a], [], [], [], []);
    o := Options(true, true, true, "", false, true, true, "");
    assert [b, a] == MoveLast([a, b], 0);
    ApplicationsArranged(src, 0);
    assert src.(applications := [b, a]) == dst;
    g := GraphExists(src, o);
    h := GraphExists(dst, o);
    if AppLabel(a) == AppLabel(b) { AppLabelNames(a, b); }
    LabelDiffers(src, dst, o, IdText(a.supervisor));
  }

  // ---- Exactly when order does not matter ----

  ghost predicate Agree(one: Snapshot, two: Snapshot, o: Options) {
    forall g, h :: IsGraph(one, o, g) && IsGraph(two, o, h) ==> g == h
  }

  lemma ArrangementMembers(one: Snapshot, two: Snapshot)
    requires IsArrangement(one, two)
    ensures SameMembers(one, two)
  {
    MembersOfSame(one.applications, two.applications);
    MembersOfSame(one.elements, two.elements);
    MembersOfSame(one.topics, two.topics);
    MembersOfSame(one.parameters, two.parameters);
    MembersOfSame(one.services, two.services);
  }

  lemma CoherentArranged(src: Snapshot, one: Snapshot, group: string)
    requires SameMembers(src, one) && Coherent(src, group)
    ensures Coherent(one, group)
  {
    hide GroupId, DerivedLabel, IdText;
  }

  /** All orders of the lists give one graph if and only if the lists are coherent. */
  lemma OrderIndependentExactly(src: Snapshot, o: Options)
    ensures Coherent(src, o.group) <==>
            forall one, two :: IsArrangement(src, one) && IsArrangement(src, two) ==> Agree(one, two, o)
  {
    hide Coherent, IsGraph, IsArrangement, SameMembers;
    if Coherent(src, o.group) {
      forall one, two | IsArrangement(src, one) && IsArrangement(src, two) ensures Agree(one, two, o) {
        ArrangementsAgree(src, one, two, o);
      }
    } else {
      var one, two := IncoherentDiffers(src, o);
      var g := GraphExists(one, o);
      var h := GraphExists(two, o);
      assert !Agree(one, two, o);
    }
  }

  lemma ArrangementsAgree(src: Snapshot, one: Snapshot, two: Snapshot, o: Options)
    requires Coherent(src, o.group) && IsArrangement(src, one) && IsArrangement(src, two)
    ensures Agree(one, two, o)
  {
    hide Coherent, IsGraph;
    ArrangementMembers(src, one);
    ArrangementMembers(src, two);
    CoherentArranged(src, one, o.group);
    forall g, h | IsGraph(one, o, g) && IsGraph(two, o, h) ensures g == h {
      OrderIndependent(one, two, o, g, h);
    }
  }
}
