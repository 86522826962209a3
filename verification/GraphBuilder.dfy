/** BuildGraph: filling the group and node maps and the edge list, then sorting, yields the graph of the snapshot. */
module GraphBuilder {
  import opened Results
  import Numerals
  import opened Ordering
  import opened GraphModel

  // ---- The node map under construction ----

  /** Node ids of elements never begin with a digit, so no channel can take one. */
  ghost predicate AreElements(elements: map<string, GraphNode>) {
    forall id :: id in elements ==>
      id != "" && !Numerals.IsDigit(id[0]) && elements[id].id == id
      && elements[id].kind == ElementKind
      && elements[id].endpoints == []
  }

  ghost predicate ChannelUnder(added: set<Registration>, id: string, n: GraphNode) {
    n.id == id && IsChannel(added, n) && DistinctKeys(EndpointKey, n.endpoints)
  }

  ghost predicate ChannelOf(nodes: map<string, GraphNode>, r: Registration) {
    && ChannelId(r) in nodes
    && nodes[ChannelId(r)].kind == r.kind && nodes[ChannelId(r)].text == r.name
    && GraphEndpoint(r.identity, r.role) in nodes[ChannelId(r)].endpoints
  }

  /** The nodes are the elements and one channel for each id of an added registration. */
  ghost predicate NodesMatch(elements: map<string, GraphNode>, added: set<Registration>,
                             nodes: map<string, GraphNode>)
  {
    && (forall id :: id in elements ==> id in nodes && nodes[id] == elements[id])
    && (forall id :: id in nodes && id !in elements ==> ChannelUnder(added, id, nodes[id]))
    && (forall r :: r in added ==> IsChannelKind(r.kind) && ChannelOf(nodes, r))
  }

  ghost predicate EdgesMatch(elements: map<string, GraphNode>, added: set<Registration>, edges: seq<GraphEdge>) {
    && DistinctKeys(EdgeKey, edges)
    && forall e: GraphEdge :: e in edges <==> exists r ::
         r in added && ElementId(r.identity.runtime) in elements
         && e == EdgeOf(r)
  }

  class Draft {
    var nodes: map<string, GraphNode>
    var edges: seq<GraphEdge>
    ghost const elements: map<string, GraphNode>
    ghost var added: set<Registration>

    constructor (elements: map<string, GraphNode>)
      requires AreElements(elements)
      ensures Valid() && this.elements == elements && added == {}
    {
      nodes, edges := elements, [];
      this.elements, added := elements, {};
    }

    ghost predicate Valid()
      reads this
    {
      AreElements(elements) && NodesMatch(elements, added, nodes) && EdgesMatch(elements, added, edges)
    }

    /** Draws a registration once, unless a group is chosen and its element is not shown. */
    method Add(filtered: bool, r: Registration)
      requires Valid() && IsChannelKind(r.kind)
      modifies this
      ensures Valid()
      ensures added == old(added) + if filtered && ElementId(r.identity.runtime) !in elements then {} else {r}
    {
      var element := ElementId(r.identity.runtime);
      ChannelIdStart(r);
      assert element[0] == 'e';
      OwnerKnown(element);
      var owned := element in nodes;
      if filtered && !owned { return; }
      var id := ChannelId(r);
      var e := GraphEndpoint(r.identity, r.role);
      var n := if id in nodes then nodes[id] else GraphNode(id, r.name, "", r.kind, NO_RUNTIME, [], "", false);
      NameHolds(n, r);
      if e in n.endpoints {
        assert RegistrationOf(n, e) == r;
        assert added + {r} == added;
        return;
      }
      assert r !in added;
      var after := n.(endpoints := n.endpoints + [e]);
      AddedToNodes(elements, added, nodes, n, r);
      if owned { AddedToEdges(elements, added, edges, r); } else { UnownedEdges(elements, added, edges, r); }
      nodes := nodes[id := after];
      if owned { edges := edges + [EdgeOf(r)]; }
      added := added + {r};
    }

    lemma Parts()
      requires Valid()
      ensures AreElements(elements) && NodesMatch(elements, added, nodes) && EdgesMatch(elements, added, edges)
      ensures DistinctKeys(EdgeKey, edges)
    {
    }

    lemma OwnerKnown(element: string)
      requires Valid() && element != "" && !Numerals.IsDigit(element[0])
      ensures element in nodes <==> element in elements
    {
      if element in nodes && element !in elements {
        var n := nodes[element];
        var e := n.endpoints[0];
        assert e in n.endpoints;
        ChannelIdStart(RegistrationOf(n, e));
      }
    }

    /** The node that a registration's id leads to is the registration's own channel. */
    lemma NameHolds(n: GraphNode, r: Registration)
      requires Valid() && IsChannelKind(r.kind)
      requires ChannelId(r) in nodes ==> n == nodes[ChannelId(r)]
      requires ChannelId(r) !in nodes ==> n == GraphNode(ChannelId(r), r.name, "", r.kind, NO_RUNTIME, [], "", false)
      ensures ChannelId(r) !in elements && n.kind == r.kind && n.text == r.name
    {
      ChannelIdStart(r);
      if ChannelId(r) in nodes {
        assert ChannelUnder(added, ChannelId(r), n);
        var e := n.endpoints[0];
        assert e in n.endpoints;
        ChannelIdNames(RegistrationOf(n, e), r);
      }
    }
  }

  lemma AddedToNodes(elements: map<string, GraphNode>, added: set<Registration>, nodes: map<string, GraphNode>,
                     n: GraphNode, r: Registration)
    requires AreElements(elements) && NodesMatch(elements, added, nodes) && IsChannelKind(r.kind) && r !in added
    requires ChannelId(r) !in elements && n.kind == r.kind && n.text == r.name
    requires ChannelId(r) in nodes ==> n == nodes[ChannelId(r)]
    requires ChannelId(r) !in nodes ==> n == GraphNode(ChannelId(r), r.name, "", r.kind, NO_RUNTIME, [], "", false)
    requires GraphEndpoint(r.identity, r.role) !in n.endpoints
    ensures NodesMatch(elements, added + {r},
                       nodes[ChannelId(r) := n.(endpoints := n.endpoints + [GraphEndpoint(r.identity, r.role)])])
  {
    var id := ChannelId(r);
    var e := GraphEndpoint(r.identity, r.role);
    var after := n.(endpoints := n.endpoints + [e]);
    var now := nodes[id := after];
    forall x | x in now && x !in elements ensures ChannelUnder(added + {r}, x, now[x]) {
      if x == id {
        GrownChannel(added, nodes, n, r);
      } else {
        assert ChannelUnder(added, x, nodes[x]);
      }
    }
    forall q | q in added + {r} ensures IsChannelKind(q.kind) && ChannelOf(now, q) {
      if q != r {
        assert ChannelOf(nodes, q);
      }
    }
  }

  lemma GrownChannel(added: set<Registration>, nodes: map<string, GraphNode>, n: GraphNode, r: Registration)
    requires IsChannelKind(r.kind) && n.kind == r.kind && n.text == r.name
    requires ChannelId(r) in nodes ==> n == nodes[ChannelId(r)] && ChannelUnder(added, ChannelId(r), n)
    requires ChannelId(r) !in nodes ==> n == GraphNode(ChannelId(r), r.name, "", r.kind, NO_RUNTIME, [], "", false)
    requires forall q :: q in added ==> ChannelOf(nodes, q)
    requires GraphEndpoint(r.identity, r.role) !in n.endpoints
    ensures ChannelUnder(added + {r}, ChannelId(r), n.(endpoints := n.endpoints + [GraphEndpoint(r.identity, r.role)]))
  {
    var e := GraphEndpoint(r.identity, r.role);
    var after := n.(endpoints := n.endpoints + [e]);
    forall x: GraphEndpoint
      ensures x in after.endpoints <==>
                RegistrationOf(after, x) in added + {r}
                && ChannelId(RegistrationOf(after, x)) == after.id
    {
      var q := RegistrationOf(after, x);
      assert q == RegistrationOf(n, x);
      assert q == r <==> x == e;
      if q in added && ChannelId(q) == after.id {
        assert ChannelOf(nodes, q);
      }
    }
    forall i, j | 0 <= i < j < |after.endpoints|
      ensures EndpointKey(after.endpoints[i]) != EndpointKey(after.endpoints[j])
    {
      assert after.endpoints[i] in n.endpoints;
      if EndpointKey(after.endpoints[i]) == EndpointKey(after.endpoints[j]) {
        EndpointKeyInjective(after.endpoints[i], after.endpoints[j]);
      }
    }
  }

  lemma AddedToEdges(elements: map<string, GraphNode>, added: set<Registration>, edges: seq<GraphEdge>, r: Registration)
    requires EdgesMatch(elements, added, edges) && r !in added && ElementId(r.identity.runtime) in elements
    requires IsChannelKind(r.kind) && forall q :: q in added ==> IsChannelKind(q.kind)
    ensures EdgesMatch(elements, added + {r}, edges + [EdgeOf(r)])
  {
    var now := edges + [EdgeOf(r)];
    forall i, j | 0 <= i < j < |now| ensures EdgeKey(now[i]) != EdgeKey(now[j]) {
      if j == |edges| {
        assert now[i] in edges;
        var q :| q in added && ElementId(q.identity.runtime) in elements && now[i] == EdgeOf(q);
        if EdgeKey(now[i]) == EdgeKey(now[j]) {
          EdgeKeyNames(now[i], now[j]);
          EdgeOfInjective(q, r);
        }
      }
    }
    forall e: GraphEdge
      ensures e in now <==> exists q :: q in added + {r} && ElementId(q.identity.runtime) in elements && e == EdgeOf(q)
    {
      if e in edges {
        var q :| q in added && ElementId(q.identity.runtime) in elements && e == EdgeOf(q);
        assert q in added + {r};
      }
    }
  }

  lemma UnownedEdges(elements: map<string, GraphNode>, added: set<Registration>, edges: seq<GraphEdge>, r: Registration)
    requires EdgesMatch(elements, added, edges) && ElementId(r.identity.runtime) !in elements
    ensures EdgesMatch(elements, added + {r}, edges)
  {
    forall e: GraphEdge
      ensures e in edges <==> exists q ::
                q in added + {r} && ElementId(q.identity.runtime) in elements
                && e == EdgeOf(q)
    {
      if e in edges {
        var q :| q in added && ElementId(q.identity.runtime) in elements && e == EdgeOf(q);
        assert q in added + {r};
      }
    }
  }

  // ---- Groups and elements ----

  ghost predicate ElementsMatch(elements: seq<Element>, group: string, nodes: map<string, GraphNode>) {
    && (forall id :: id in nodes ==>
          && LastShown(elements, group, nodes[id].runtime).Some? && id == ElementId(nodes[id].runtime)
          && nodes[id] == ElementNode(LastShown(elements, group, nodes[id].runtime).value))
    && (forall x: RuntimeIdentity :: LastShown(elements, group, x).Some? ==> ElementId(x) in nodes)
  }

  ghost predicate GroupsMatch(applications: seq<Application>, elements: seq<Element>, groups: map<string, string>) {
    forall g: string :: Lookup(groups, g) == GroupLabel(applications, elements, g)
  }

  method CollectApplications(applications: seq<Application>) returns (groups: map<string, string>)
    ensures GroupsMatch(applications, [], groups)
  {
    groups := map[];
    for i := 0 to |applications|
      invariant GroupsMatch(applications[..i], [], groups)
    {
      var a := applications[i];
      assert applications[..i + 1][..i] == applications[..i];
      ApplicationStored(applications[..i + 1], groups);
      groups := groups[IdText(a.supervisor) := AppLabel(a)];
    }
    assert applications[..|applications|] == applications;
  }

  lemma ApplicationStored(applications: seq<Application>, groups: map<string, string>)
    requires applications != [] && GroupsMatch(applications[..|applications| - 1], [], groups)
    ensures var a := applications[|applications| - 1];
            GroupsMatch(applications, [], groups[IdText(a.supervisor) := AppLabel(a)])
  {
    hide AppLabel, IdText, DerivedLabel, GroupId, FirstElement;
    var a := applications[|applications| - 1];
    var now := groups[IdText(a.supervisor) := AppLabel(a)];
    forall g: string ensures Lookup(now, g) == GroupLabel(applications, [], g) {
      assert Lookup(groups, g) == GroupLabel(applications[..|applications| - 1], [], g);
    }
  }

  method CollectElements(applications: seq<Application>, elements: seq<Element>, group: string, before: map<string,
                         string>)
    returns (groups: map<string, string>, nodes: map<string, GraphNode>)
    requires GroupsMatch(applications, [], before)
    ensures GroupsMatch(applications, elements, groups) && ElementsMatch(elements, group, nodes)
  {
    hide AppLabel, DerivedLabel, GroupLabel, LastShown, ElementNode, IdText, ElementId, GroupId;
    groups, nodes := before, map[];
    NoElements(group, nodes);
    for i := 0 to |elements|
      invariant GroupsMatch(applications, elements[..i], groups)
      invariant ElementsMatch(elements[..i], group, nodes)
    {
      var e := elements[i];
      assert elements[..i + 1][..i] == elements[..i];
      GroupStored(applications, elements[..i + 1], groups);
      if GroupId(e) !in groups { groups := groups[GroupId(e) := DerivedLabel(e)]; }
      ElementStored(elements[..i + 1], group, nodes);
      if group == "" || group == GroupId(e) { nodes := nodes[ElementId(e.identity) := ElementNode(e)]; }
    }
    assert elements[..|elements|] == elements;
  }

  lemma NoElements(group: string, nodes: map<string, GraphNode>)
    requires nodes == map[]
    ensures ElementsMatch([], group, nodes)
  {
  }

  lemma GroupStored(applications: seq<Application>, elements: seq<Element>, groups: map<string, string>)
    requires elements != [] && GroupsMatch(applications, elements[..|elements| - 1], groups)
    ensures var e := elements[|elements| - 1];
            GroupsMatch(applications, elements,
                        if GroupId(e) in groups then groups else groups[GroupId(e) := DerivedLabel(e)])
  {
    hide AppLabel, IdText, DerivedLabel, GroupId, LastApplication;
    var e := elements[|elements| - 1];
    var now := if GroupId(e) in groups then groups else groups[GroupId(e) := DerivedLabel(e)];
    forall g: string ensures Lookup(now, g) == GroupLabel(applications, elements, g) {
      assert Lookup(groups, g) == GroupLabel(applications, elements[..|elements| - 1], g);
    }
  }

  lemma ElementStored(elements: seq<Element>, group: string, nodes: map<string, GraphNode>)
    requires elements != [] && ElementsMatch(elements[..|elements| - 1], group, nodes)
    ensures var e := elements[|elements| - 1];
            ElementsMatch(elements, group,
                          if group == "" || group == GroupId(e) then nodes[ElementId(e.identity) := ElementNode(e)]
                          else nodes)
  {
    hide IdText, ElementId, GroupId;
    var e := elements[|elements| - 1];
    var now := if group == "" || group == GroupId(e) then nodes[ElementId(e.identity) := ElementNode(e)] else nodes;
    forall id | id in now
      ensures LastShown(elements, group, now[id].runtime).Some? && id == ElementId(now[id].runtime)
      ensures now[id] == ElementNode(LastShown(elements, group, now[id].runtime).value)
    {
      if id in nodes && now[id].runtime == nodes[id].runtime != e.identity {
        assert now[id] == nodes[id];
      }
    }
  }

  method ListGroups(groups: map<string, string>) returns (r: seq<GraphGroup>)
    ensures KeySorted(GroupKey, r)
    ensures forall g: GraphGroup :: g in r <==> g.host == "" && Lookup(groups, g.id) == Some(g.text)
  {
    r := [];
    var rest := groups.Keys;
    while rest != {}
      invariant rest <= groups.Keys
      invariant forall g: GraphGroup ::
                  g in r <==> g.host == "" && g.id !in rest && Lookup(groups, g.id) == Some(g.text)
      invariant DistinctKeys(GroupKey, r)
    {
      var id :| id in rest;
      var g := GraphGroup(id, groups[id], "");
      forall i | 0 <= i < |r| ensures GroupKey(r[i]) != GroupKey(g) {
        assert r[i] in r;
        assert GroupKey(r[i])[0] == Text(r[i].id);
      }
      r, rest := r + [g], rest - {id};
    }
    r := SortByKey(GroupKey, r);
  }

  // ---- Nodes and edges ----

  ghost predicate Finished(n: GraphNode, f: GraphNode) {
    f == n.(endpoints := f.endpoints) && KeySorted(EndpointKey, f.endpoints)
        && (forall e :: e in f.endpoints <==> e in n.endpoints)
  }

  method FinishNodes(nodes: map<string, GraphNode>) returns (r: seq<GraphNode>, ghost finished: map<string, GraphNode>)
    requires forall id :: id in nodes ==> nodes[id].id == id && DistinctKeys(EndpointKey, nodes[id].endpoints)
    ensures KeySorted(NodeKey, r)
    ensures finished.Keys == nodes.Keys && forall id :: id in nodes ==> Finished(nodes[id], finished[id])
    ensures forall n :: n in r <==> n.id in finished && finished[n.id] == n
  {
    r, finished := [], map[];
    var rest := nodes.Keys;
    while rest != {}
      invariant rest <= nodes.Keys && finished.Keys == nodes.Keys - rest
      invariant forall id :: id in finished ==> Finished(nodes[id], finished[id])
      invariant forall n :: n in r <==> n.id in finished && finished[n.id] == n
      invariant DistinctKeys(NodeKey, r)
    {
      var id :| id in rest;
      var endpoints := SortByKey(EndpointKey, nodes[id].endpoints);
      var f := nodes[id].(endpoints := endpoints);
      forall i | 0 <= i < |r| ensures NodeKey(r[i]) != NodeKey(f) {
        assert r[i] in r;
        if NodeKey(r[i]) == NodeKey(f) { NodeKeyNames(r[i], f); }
      }
      r, finished, rest := r + [f], finished[id := f], rest - {id};
    }
    r := SortByKey(NodeKey, r);
  }

  function Kept(elements: map<string, GraphNode>, filtered: bool, all: set<Registration>): set<Registration> {
    set r | r in all && (!filtered || ElementId(r.identity.runtime) in elements)
  }

  method AddTopics(draft: Draft, filtered: bool, topics: seq<Topic>)
    requires draft.Valid()
    modifies draft
    ensures draft.Valid() && draft.added == old(draft.added) + Kept(draft.elements, filtered, OfTopics(topics))
  {
    hide *;
    ghost var before := draft.added;
    NoTopics(draft.elements, filtered);
    assert topics[..0] == [];
    for i := 0 to |topics|
      invariant draft.Valid() && draft.added == before + Kept(draft.elements, filtered, OfTopics(topics[..i]))
    {
      var t := topics[i];
      TopicKept(draft.elements, filtered, topics, i);
      if IsTopicRole(t.role) { draft.Add(filtered, OfTopic(t)); }
    }
    assert topics[..|topics|] == topics;
  }

  lemma NoTopics(elements: map<string, GraphNode>, filtered: bool)
    ensures Kept(elements, filtered, OfTopics([])) == {}
  {
  }

  lemma TopicKept(elements: map<string, GraphNode>, filtered: bool, topics: seq<Topic>, i: nat)
    requires i < |topics|
    ensures IsChannelKind(OfTopic(topics[i]).kind)
    ensures Kept(elements, filtered, OfTopics(topics[..i + 1])) == Kept(elements, filtered, OfTopics(topics[..i])) +
            if !IsTopicRole(topics[i].role) then {}
            else if filtered && ElementId(OfTopic(topics[i]).identity.runtime) !in elements then {}
            else {OfTopic(topics[i])}
  {
    assert topics[..i + 1] == topics[..i] + [topics[i]];
    assert forall t :: t in topics[..i + 1] <==> t in topics[..i] || t == topics[i];
  }

  method AddParameters(draft: Draft, filtered: bool, parameters: seq<Parameter>)
    requires draft.Valid()
    modifies draft
    ensures draft.Valid() && draft.added == old(draft.added) + Kept(draft.elements, filtered, OfParameters(parameters))
  {
    hide *;
    ghost var before := draft.added;
    NoParameters(draft.elements, filtered);
    assert parameters[..0] == [];
    for i := 0 to |parameters|
      invariant draft.Valid() && draft.added == before + Kept(draft.elements, filtered, OfParameters(parameters[..i]))
    {
      var p := parameters[i];
      ParameterKept(draft.elements, filtered, parameters, i);
      if IsParameterRole(p.role) { draft.Add(filtered, OfParameter(p)); }
    }
    assert parameters[..|parameters|] == parameters;
  }

  lemma NoParameters(elements: map<string, GraphNode>, filtered: bool)
    ensures Kept(elements, filtered, OfParameters([])) == {}
  {
  }

  lemma ParameterKept(elements: map<string, GraphNode>, filtered: bool, parameters: seq<Parameter>, i: nat)
    requires i < |parameters|
    ensures IsChannelKind(OfParameter(parameters[i]).kind)
    ensures Kept(elements, filtered, OfParameters(parameters[..i + 1])) ==
            Kept(elements, filtered, OfParameters(parameters[..i])) +
            if !IsParameterRole(parameters[i].role) then {}
            else if filtered && ElementId(OfParameter(parameters[i]).identity.runtime) !in elements then {}
            else {OfParameter(parameters[i])}
  {
    assert parameters[..i + 1] == parameters[..i] + [parameters[i]];
    assert forall p :: p in parameters[..i + 1] <==> p in parameters[..i] || p == parameters[i];
  }

  method AddServices(draft: Draft, filtered: bool, services: seq<Service>)
    requires draft.Valid()
    modifies draft
    ensures draft.Valid() && draft.added == old(draft.added) + Kept(draft.elements, filtered, OfServices(services))
  {
    hide *;
    ghost var before := draft.added;
    NoServices(draft.elements, filtered);
    assert services[..0] == [];
    for i := 0 to |services|
      invariant draft.Valid() && draft.added == before + Kept(draft.elements, filtered, OfServices(services[..i]))
    {
      var s := services[i];
      ServiceKept(draft.elements, filtered, services, i);
      draft.Add(filtered, OfService(s));
    }
    assert services[..|services|] == services;
  }

  lemma NoServices(elements: map<string, GraphNode>, filtered: bool)
    ensures Kept(elements, filtered, OfServices([])) == {}
  {
  }

  lemma ServiceKept(elements: map<string, GraphNode>, filtered: bool, services: seq<Service>, i: nat)
    requires i < |services|
    ensures IsChannelKind(OfService(services[i]).kind)
    ensures Kept(elements, filtered, OfServices(services[..i + 1])) ==
            Kept(elements, filtered, OfServices(services[..i])) +
            if filtered && ElementId(OfService(services[i]).identity.runtime) !in elements then {}
            else {OfService(services[i])}
  {
    assert services[..i + 1] == services[..i] + [services[i]];
    assert forall s :: s in services[..i + 1] <==> s in services[..i] || s == services[i];
  }

  lemma OwnedIsElement(src: Snapshot, o: Options, elements: map<string, GraphNode>, r: Registration)
    requires ElementsMatch(src.elements, o.group, elements)
    ensures Owned(src, o, r) <==> ElementId(r.identity.runtime) in elements
  {
    var id := ElementId(r.identity.runtime);
    if id in elements {
      ElementIdInjective(elements[id].runtime, r.identity.runtime);
    }
  }

  lemma AddedIsDrawn(src: Snapshot, o: Options, elements: map<string, GraphNode>, added: set<Registration>)
    requires ElementsMatch(src.elements, o.group, elements)
    requires added == (if o.topics then Kept(elements, o.group != "", OfTopics(src.topics)) else {}) +
                      (if o.parameters then Kept(elements, o.group != "", OfParameters(src.parameters)) else {}) +
                      (if o.services then Kept(elements, o.group != "", OfServices(src.services)) else {})
    ensures added == Drawn(src, o)
  {
    hide OfTopics, OfParameters, OfServices, ElementId;
    forall r: Registration ensures Owned(src, o, r) <==> ElementId(r.identity.runtime) in elements {
      OwnedIsElement(src, o, elements, r);
    }
  }

  lemma GraphMade(src: Snapshot, o: Options, groups: map<string, string>, g: Graph)
    requires GroupsMatch(src.applications, src.elements, groups) && KeySorted(GroupKey, g.groups)
    requires forall x: GraphGroup :: x in g.groups <==> x.host == "" && Lookup(groups, x.id) == Some(x.text)
    requires IsNodes(src, o, g.nodes) && IsEdges(src, o, g.edges)
    ensures IsGraph(src, o, g)
  {
    hide GroupLabel;
  }

  method BuildGraph(src: Snapshot, o: Options) returns (g: Graph)
    ensures IsGraph(src, o, g)
  {
    hide *;
    var byApplication := CollectApplications(src.applications);
    var groups, nodes := CollectElements(src.applications, src.elements, o.group, byApplication);
    var choices := ListGroups(groups);
    ElementsAreElements(src.elements, o.group, nodes);
    ghost var elements := nodes;
    var draft := new Draft(nodes);
    if o.topics { AddTopics(draft, o.group != "", src.topics); }
    if o.parameters { AddParameters(draft, o.group != "", src.parameters); }
    if o.services { AddServices(draft, o.group != "", src.services); }
    AddedIsDrawn(src, o, elements, draft.added);
    draft.Parts();
    DraftNames(elements, draft.added, draft.nodes);
    var shown;
    ghost var finished;
    shown, finished := FinishNodes(draft.nodes);
    NodesComplete(src, o, elements, draft.nodes, finished, shown);
    var edges := SortByKey(EdgeKey, draft.edges);
    EdgesComplete(src, o, elements, draft.edges, edges);
    g := Graph(choices, shown, edges);
    GraphMade(src, o, groups, g);
  }

  lemma ElementsAreElements(elements: seq<Element>, group: string, nodes: map<string, GraphNode>)
    requires ElementsMatch(elements, group, nodes)
    ensures AreElements(nodes)
  {
    forall id | id in nodes ensures id != "" && !Numerals.IsDigit(id[0]) {
      assert id[0] == 'e';
    }
  }

  lemma DraftNames(elements: map<string, GraphNode>, added: set<Registration>, nodes: map<string, GraphNode>)
    requires AreElements(elements) && NodesMatch(elements, added, nodes)
    ensures forall id :: id in nodes ==> nodes[id].id == id && DistinctKeys(EndpointKey, nodes[id].endpoints)
  {
    forall id | id in nodes ensures nodes[id].id == id && DistinctKeys(EndpointKey, nodes[id].endpoints) {
      if id !in elements { assert ChannelUnder(added, id, nodes[id]); }
    }
  }

  lemma NodesComplete(src: Snapshot, o: Options, elements: map<string, GraphNode>, nodes: map<string, GraphNode>,
                      finished: map<string, GraphNode>, shown: seq<GraphNode>)
    requires AreElements(elements) && ElementsMatch(src.elements, o.group, elements)
    requires NodesMatch(elements, Drawn(src, o), nodes)
    requires finished.Keys == nodes.Keys && forall id :: id in nodes ==> Finished(nodes[id], finished[id])
    requires KeySorted(NodeKey, shown) && forall n :: n in shown <==> n.id in finished && finished[n.id] == n
    ensures IsNodes(src, o, shown)
  {
    forall n: GraphNode ensures n in shown <==> IsNode(src, o, n) {
      if n in shown { ShownIsNode(src, o, elements, nodes, finished, n); }
      if IsNode(src, o, n) { NodeIsShown(src, o, elements, nodes, finished, n); }
    }
  }

  lemma FinishedAlike(n: GraphNode, f: GraphNode)
    requires Finished(n, f)
    ensures n.endpoints == [] <==> f.endpoints == []
  {
    if n.endpoints != [] { assert n.endpoints[0] in n.endpoints; }
    if f.endpoints != [] { assert f.endpoints[0] in f.endpoints; }
  }

  lemma ShownIsNode(src: Snapshot, o: Options, elements: map<string, GraphNode>, nodes: map<string, GraphNode>,
                    finished: map<string, GraphNode>, n: GraphNode)
    requires AreElements(elements) && ElementsMatch(src.elements, o.group, elements)
    requires NodesMatch(elements, Drawn(src, o), nodes)
    requires n.id in nodes && n.id in finished && finished[n.id] == n && Finished(nodes[n.id], n)
    ensures IsNode(src, o, n)
  {
    hide Drawn, IdText, ElementId;
    if n.id in elements {
      FinishedAlike(nodes[n.id], n);
    } else {
      assert ChannelUnder(Drawn(src, o), n.id, nodes[n.id]);
      FinishedChannel(Drawn(src, o), nodes[n.id], n);
    }
  }

  lemma NodeIsShown(src: Snapshot, o: Options, elements: map<string, GraphNode>, nodes: map<string, GraphNode>,
                    finished: map<string, GraphNode>, n: GraphNode)
    requires AreElements(elements) && ElementsMatch(src.elements, o.group, elements)
    requires NodesMatch(elements, Drawn(src, o), nodes)
    requires finished.Keys == nodes.Keys && forall id :: id in nodes ==> Finished(nodes[id], finished[id])
    requires IsNode(src, o, n)
    ensures n.id in finished && finished[n.id] == n
  {
    hide Drawn, IdText, ElementId;
    if n.kind == ElementKind {
      assert n.id in elements && n.id == ElementId(elements[n.id].runtime);
      ElementIdInjective(n.runtime, elements[n.id].runtime);
      FinishedAlike(nodes[n.id], finished[n.id]);
    } else {
      ChannelIsFinished(elements, Drawn(src, o), nodes, n, if n.id in finished then finished[n.id] else n);
    }
  }

  lemma FinishedChannel(drawn: set<Registration>, n: GraphNode, f: GraphNode)
    requires IsChannel(drawn, n) && Finished(n, f)
    ensures IsChannel(drawn, f)
  {
    assert n.endpoints[0] in n.endpoints;
    forall e: GraphEndpoint ensures RegistrationOf(f, e) == RegistrationOf(n, e) {}
  }

  /** The channel of an id is settled by the registrations: any two sorted descriptions of it agree. */
  lemma ChannelIsFinished(elements: map<string, GraphNode>, drawn: set<Registration>, nodes: map<string, GraphNode>,
                          n: GraphNode, f: GraphNode)
    requires AreElements(elements) && NodesMatch(elements, drawn, nodes)
    requires IsChannel(drawn, n) && KeySorted(EndpointKey, n.endpoints)
    requires n.id in nodes ==> Finished(nodes[n.id], f)
    ensures n.id in nodes && f == n
  {
    var e := n.endpoints[0];
    assert e in n.endpoints;
    var r := RegistrationOf(n, e);
    assert ChannelOf(nodes, r);
    ChannelIdStart(r);
    assert ChannelUnder(drawn, n.id, nodes[n.id]);
    forall x: GraphEndpoint ensures x in f.endpoints <==> x in n.endpoints {
      assert RegistrationOf(n, x) == RegistrationOf(nodes[n.id], x);
    }
    KeySortedUnique(EndpointKey, f.endpoints, n.endpoints);
  }

  lemma EdgesComplete(src: Snapshot, o: Options, elements: map<string, GraphNode>, drafted: seq<GraphEdge>,
                      edges: seq<GraphEdge>)
    requires ElementsMatch(src.elements, o.group, elements) && EdgesMatch(elements, Drawn(src, o), drafted)
    requires KeySorted(EdgeKey, edges) && forall e :: e in edges <==> e in drafted
    ensures IsEdges(src, o, edges)
  {
    forall e: GraphEdge ensures e in edges <==> IsEdge(src, o, e) {
      forall r: Registration ensures Owned(src, o, r) <==> ElementId(r.identity.runtime) in elements {
        OwnedIsElement(src, o, elements, r);
      }
    }
  }
}
