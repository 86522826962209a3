/** A refreshed cache hangs together whatever the list calls answered, and its graph draws every registration once. */
module DiscoveryLaws {
  import Results
  import Ordering
  import opened GraphModel
  import GraphFilter
  import GraphLaws
  import opened Discovery

  // ---- Integrity ----

  ghost predicate HasElement(c: Cache, id: RuntimeIdentity) { exists e :: e in c.elements && e.model.identity == id }

  ghost predicate OwnersKnown(c: Cache) {
    && (forall t :: t in c.topics ==> HasElement(c, t.model.identity.runtime) && IsTopicRole(t.model.role))
    && (forall p :: p in c.parameters ==> HasElement(c, p.identity.runtime) && IsParameterRole(p.role))
    && (forall s :: s in c.services ==> HasElement(c, s.identity.runtime))
  }

  lemma ContributedOwners(c: Cache, e: ElementRecord, endpoints: Results.Result<seq<EndpointInfo>>,
                          services: Results.Result<seq<ServiceInfo>>)
    requires OwnersKnown(c)
    ensures OwnersKnown(Contributed(c, e, endpoints, services))
  {
    hide TopicsOf, ParametersOf, ServicesOf, IsTopicRole, IsParameterRole;
    var after := Contributed(c, e, endpoints, services);
    assert e in after.elements;
    forall id | HasElement(c, id) ensures HasElement(after, id) {
      var x :| x in c.elements && x.model.identity == id;
      assert x in after.elements;
    }
  }

  lemma {:induction false} ScannedOwners(a: Answers, supervisors: seq<Supervisor>, runtimes: seq<RuntimeInfo>, n: nat)
    requires n <= |runtimes|
    ensures OwnersKnown(Scanned(a, supervisors, runtimes, n))
  {
    hide OwnersKnown, Contributed, Associated;
    if n == 0 {
      EmptyOwners();
    } else {
      ScannedOwners(a, supervisors, runtimes, n - 1);
      var r := runtimes[n - 1];
      ContributedOwners(Scanned(a, supervisors, runtimes, n - 1),
                        Associated(supervisors, r.identity, r.executable,
                                   r.standalone), a.endpoints(n - 1), a.services(n - 1));
    }
  }

  lemma EmptyOwners()
    ensures OwnersKnown(NO_CACHE)
  {
  }

  lemma PrunedOwners(c: Cache, live: seq<RuntimeIdentity>)
    requires OwnersKnown(c)
    ensures OwnersKnown(Pruned(c, live))
    ensures forall e :: e in Pruned(c, live).elements ==> e.model.identity in live
  {
    hide IsTopicRole, IsParameterRole;
    var kept := Pruned(c, live);
    forall id | HasElement(c, id) && id in live ensures HasElement(kept, id) {
      var e :| e in c.elements && e.model.identity == id;
      assert e in kept.elements;
    }
  }

  lemma SettledOwners(c: Cache, live: seq<RuntimeIdentity>, supervisors: seq<Supervisor>)
    requires OwnersKnown(c)
    ensures OwnersKnown(Settled(c, live, supervisors))
    ensures forall e :: e in Settled(c, live, supervisors).elements ==> e.model.identity in live
  {
    hide IsTopicRole, IsParameterRole, PlaceOf, NameOf, Pruned;
    PrunedOwners(c, live);
    var (kept, done) := (Pruned(c, live), Settled(c, live, supervisors));
    forall id | HasElement(kept, id) ensures HasElement(done, id) {
      var e :| e in kept.elements && e.model.identity == id;
      var i :| 0 <= i < |kept.elements| && kept.elements[i] == e;
      assert done.elements[i].model.identity == id && done.elements[i] in done.elements;
    }
    forall t | t in done.topics ensures HasElement(done, t.model.identity.runtime) && IsTopicRole(t.model.role) {
      var i :| 0 <= i < |done.topics| && done.topics[i] == t;
      assert kept.topics[i] in kept.topics && t.model == kept.topics[i].model;
    }
    forall e | e in done.elements ensures e.model.identity in live {
      var i :| 0 <= i < |done.elements| && done.elements[i] == e;
      assert kept.elements[i] in kept.elements;
    }
  }

  /** A topic is listed under the current name of an element that is its runtime. */
  ghost predicate OwnerNamed(c: Cache, t: TopicRecord) {
    exists e :: e in c.elements && e.model.identity == t.model.identity.runtime && e.model.name == t.owner
  }

  /** Unsupervised, or supervised by a cached application and under that application's name. */
  ghost predicate Supervised(c: Cache, e: ElementRecord) {
    e.model.supervisor == NO_RUNTIME || Application(e.model.applicationName, e.model.supervisor) in c.applications
  }

  lemma TopicsNamed(c: Cache, live: seq<RuntimeIdentity>, supervisors: seq<Supervisor>, t: TopicRecord)
    requires OwnersKnown(Settled(c, live, supervisors)) && t in Settled(c, live, supervisors).topics
    ensures OwnerNamed(Settled(c, live, supervisors), t)
  {
    hide Pruned, Reassociated, Applications, IsTopicRole, IsParameterRole;
    var done := Settled(c, live, supervisors);
    var i :| 0 <= i < |done.topics| && done.topics[i] == t;
    var before := Pruned(c, live).topics[i];
    assert t == Renamed(done.elements, before) && t.model == before.model;
    assert HasElement(done, t.model.identity.runtime);
  }

  lemma ElementsSupervised(c: Cache, live: seq<RuntimeIdentity>, supervisors: seq<Supervisor>, e: ElementRecord)
    requires e in Settled(c, live, supervisors).elements
    ensures Supervised(Settled(c, live, supervisors), e)
  {
    hide Pruned, RenamedTopics, PlaceOf;
    var done := Settled(c, live, supervisors);
    var i :| 0 <= i < |done.elements| && done.elements[i] == e;
    var p := PlaceOf(supervisors, e.model.identity);
    if p.Some? {
      var s :| s in supervisors && s.identity == p.value.supervisor && s.applicationName == p.value.applicationName;
      var k :| 0 <= k < |supervisors| && supervisors[k] == s;
      assert Applications(supervisors)[k] == Application(e.model.applicationName, e.model.supervisor);
    }
  }

  /** After any successful refresh every record's runtime is a cached live element and every supervisor a cached
      application. */
  lemma RefreshIntegrity(a: Answers)
    requires Refreshed(a).Ok?
    ensures var c := Refreshed(a).value;
            && OwnersKnown(c)
            && (forall e :: e in c.elements ==> e.model.identity in a.live.value && Supervised(c, e))
            && (forall t :: t in c.topics ==> OwnerNamed(c, t))
  {
    hide OwnersKnown, OwnerNamed, Supervised, Settled, Scanned;
    var (live, current, runtimes) := (a.live.value, a.currentSupervisors.value, a.runtimes.value);
    var scanned := Scanned(a, a.supervisors.value, runtimes, |runtimes|);
    var c := Settled(scanned, live, current);
    ScannedOwners(a, a.supervisors.value, runtimes, |runtimes|);
    SettledOwners(scanned, live, current);
    forall e | e in c.elements ensures Supervised(c, e) { ElementsSupervised(scanned, live, current, e); }
    forall t | t in c.topics ensures OwnerNamed(c, t) { TopicsNamed(scanned, live, current, t); }
  }

  // ---- The first supervisor list leaves no trace ----

  /** Equal up to what the first supervisor list decided: element placement and the owner names taken from it. */
  ghost predicate SameScan(c: Cache, d: Cache) {
    && |c.elements| == |d.elements| && |c.topics| == |d.topics|
    && (forall i :: 0 <= i < |c.elements| ==> SameRuntime(c.elements[i], d.elements[i]))
    && (forall i :: 0 <= i < |c.topics| ==> c.topics[i].model == d.topics[i].model)
    && c.parameters == d.parameters && c.services == d.services
  }

  predicate SameRuntime(e: ElementRecord, f: ElementRecord) {
    e.model.identity == f.model.identity && e.executable == f.executable && e.standalone == f.standalone
  }

  lemma {:induction false} SameTopics(e: ElementRecord, f: ElementRecord, es: seq<EndpointInfo>)
    requires SameRuntime(e, f)
    ensures |TopicsOf(e, es)| == |TopicsOf(f, es)| && ParametersOf(e, es) == ParametersOf(f, es)
    ensures forall i :: 0 <= i < |TopicsOf(e, es)| ==> TopicsOf(e, es)[i].model == TopicsOf(f, es)[i].model
  {
    if es != [] { SameTopics(e, f, es[..|es| - 1]); }
  }

  lemma {:induction false} SameScanned(a: Answers, b: Answers, one: seq<Supervisor>, two: seq<Supervisor>,
                                       runtimes: seq<RuntimeInfo>, n: nat)
    requires n <= |runtimes| && a.endpoints == b.endpoints && a.services == b.services
    ensures SameScan(Scanned(a, one, runtimes, n), Scanned(b, two, runtimes, n))
  {
    hide Contributed, PlaceOf, SameScan;
    if n > 0 {
      SameScanned(a, b, one, two, runtimes, n - 1);
      var r := runtimes[n - 1];
      var (e, f) := (Associated(one, r.identity, r.executable, r.standalone),
                     Associated(two, r.identity, r.executable, r.standalone));
      SameContributed(Scanned(a, one, runtimes, n - 1), Scanned(b, two, runtimes, n - 1), e, f, a.endpoints(n - 1),
                      a.services(n - 1));
    } else {
      SameNothing();
    }
  }

  lemma SameNothing()
    ensures SameScan(NO_CACHE, NO_CACHE)
  {
  }

  lemma SameContributed(c: Cache, d: Cache, e: ElementRecord, f: ElementRecord,
                        endpoints: Results.Result<seq<EndpointInfo>>, services: Results.Result<seq<ServiceInfo>>)
    requires SameScan(c, d) && SameRuntime(e, f)
    ensures SameScan(Contributed(c, e, endpoints, services), Contributed(d, f, endpoints, services))
  {
    hide TopicsOf, ParametersOf;
    SameTopics(e, f, Answered(endpoints));
  }

  lemma {:induction false} SameFilter<T(!new), U(!new)>(s: seq<T>, t: seq<U>, keep: T -> bool, also: U -> bool,
                                        same: (T, U) -> bool)
    requires |s| == |t| && forall i :: 0 <= i < |s| ==> same(s[i], t[i])
    requires forall x, y :: same(x, y) ==> (keep(x) <==> also(y))
    ensures |Ordering.Filter(keep, s)| == |Ordering.Filter(also, t)|
    ensures forall i :: 0 <= i < |Ordering.Filter(keep, s)| ==>
              same(Ordering.Filter(keep, s)[i], Ordering.Filter(also, t)[i])
  {
    if s != [] { SameFilter(s[..|s| - 1], t[..|t| - 1], keep, also, same); }
  }

  lemma SamePruned(c: Cache, d: Cache, live: seq<RuntimeIdentity>)
    requires SameScan(c, d)
    ensures SameScan(Pruned(c, live), Pruned(d, live))
  {
    var keepElement := (e: ElementRecord) => e.model.identity in live;
    var keepTopic := (t: TopicRecord) => t.model.identity.runtime in live;
    SameFilter(c.elements, d.elements, keepElement, keepElement, SameRuntime);
    SameFilter(c.topics, d.topics, keepTopic, keepTopic, (t: TopicRecord, u: TopicRecord) => t.model == u.model);
  }

  lemma SameSettled(c: Cache, d: Cache, live: seq<RuntimeIdentity>, supervisors: seq<Supervisor>)
    requires SameScan(c, d) && OwnersKnown(Settled(c, live, supervisors))
    ensures Settled(c, live, supervisors) == Settled(d, live, supervisors)
  {
    hide PlaceOf, NameOf, Pruned;
    SamePruned(c, d, live);
    var (one, two) := (Settled(c, live, supervisors), Settled(d, live, supervisors));
    var (p, q) := (Pruned(c, live), Pruned(d, live));
    assert one.elements == two.elements;
    forall i | 0 <= i < |one.topics| ensures one.topics[i] == two.topics[i] {
      assert one.topics[i] == Renamed(one.elements, p.topics[i]) && two.topics[i] == Renamed(one.elements, q.topics[i]);
      assert one.topics[i] in one.topics && HasElement(one, p.topics[i].model.identity.runtime);
    }
    assert one.topics == two.topics;
  }

  /** Only the second supervisor list shows in the result; the first could have been any other. */
  lemma FirstListForgotten(a: Answers, b: Answers)
    requires a.supervisors.Ok? && b.supervisors.Ok? && b == a.(supervisors := b.supervisors)
    ensures Refreshed(a) == Refreshed(b)
  {
    hide Settled, Scanned, SameScan, OwnersKnown;
    if a.runtimes.Ok? && a.live.Ok? && a.currentSupervisors.Ok? {
      var runtimes := a.runtimes.value;
      SameScanned(a, b, a.supervisors.value, b.supervisors.value, runtimes, |runtimes|);
      ScannedOwners(a, a.supervisors.value, runtimes, |runtimes|);
      SettledOwners(Scanned(a, a.supervisors.value, runtimes, |runtimes|), a.live.value, a.currentSupervisors.value);
      SameSettled(Scanned(a, a.supervisors.value, runtimes, |runtimes|),
                  Scanned(b, b.supervisors.value, runtimes, |runtimes|),
                  a.live.value, a.currentSupervisors.value);
    }
  }

  // ---- Nothing lost, nothing invented ----

  /** The n-th scanned runtime listed this endpoint. */
  ghost predicate Lists(a: Answers, n: nat, x: EndpointInfo) { x in Answered(a.endpoints(n)) }

  function TopicFrom(id: RuntimeIdentity, x: EndpointInfo): Topic {
    Topic(x.name, EndpointIdentity(id, x.registration), if x.provider then "PUBLISHER" else "SUBSCRIBER")
  }

  function ParameterFrom(id: RuntimeIdentity, x: EndpointInfo): Parameter {
    Parameter(x.name, EndpointIdentity(id, x.registration), if x.provider then "OWNER" else "CLIENT")
  }

  ghost predicate TopicListed(a: Answers, runtimes: seq<RuntimeInfo>, n: nat, t: Topic)
    requires n <= |runtimes|
  {
    exists k, x :: 0 <= k < n && Lists(a, k, x) && x.kind == TOPIC && t == TopicFrom(runtimes[k].identity, x)
  }

  ghost predicate ParameterListed(a: Answers, runtimes: seq<RuntimeInfo>, n: nat, p: Parameter)
    requires n <= |runtimes|
  {
    exists k, x :: 0 <= k < n && Lists(a, k, x) && x.kind == PARAMETER && p == ParameterFrom(runtimes[k].identity, x)
  }

  ghost predicate ServiceListed(a: Answers, runtimes: seq<RuntimeInfo>, n: nat, s: Service)
    requires n <= |runtimes|
  {
    exists k, x :: 0 <= k < n && a.services(k).Ok? && x in a.services(k).value
                   && s == Service(x.name, EndpointIdentity(runtimes[k].identity, x.registration))
  }

  ghost predicate HasTopic(topics: seq<TopicRecord>, t: Topic) { exists r :: r in topics && r.model == t }

  lemma {:induction false} TopicsOfAll(e: ElementRecord, es: seq<EndpointInfo>, t: Topic)
    ensures HasTopic(TopicsOf(e, es), t) <==> exists x ::
              x in es && x.kind == TOPIC && t == TopicFrom(e.model.identity, x)
  {
    if es != [] {
      var (before, x) := (es[..|es| - 1], es[|es| - 1]);
      assert es == before + [x];
      TopicsOfAll(e, before, t);
      var own := TopicRecord(TopicFrom(e.model.identity, x), e.model.name);
      assert TopicsOf(e, es) == TopicsOf(e, before) + if x.kind != TOPIC then [] else [own];
      assert x.kind == TOPIC ==> own in TopicsOf(e, es);
      if HasTopic(TopicsOf(e, before), t) {
        var r :| r in TopicsOf(e, before) && r.model == t;
        assert r in TopicsOf(e, es);
      }
    }
  }

  lemma {:induction false} ParametersOfAll(e: ElementRecord, es: seq<EndpointInfo>, p: Parameter)
    ensures p in ParametersOf(e, es) <==> exists x ::
              x in es && x.kind == PARAMETER && p == ParameterFrom(e.model.identity, x)
  {
    if es != [] {
      assert es == es[..|es| - 1] + [es[|es| - 1]];
      ParametersOfAll(e, es[..|es| - 1], p);
    }
  }

  lemma ServicesOfAll(e: ElementRecord, ss: seq<ServiceInfo>, s: Service)
    ensures s in ServicesOf(e, ss) <==>
            exists x :: x in ss && s == Service(x.name, EndpointIdentity(e.model.identity, x.registration))
  {
    if s in ServicesOf(e, ss) {
      var i :| 0 <= i < |ss| && ServicesOf(e, ss)[i] == s;
      assert ss[i] in ss;
    }
    if exists x :: x in ss && s == Service(x.name, EndpointIdentity(e.model.identity, x.registration)) {
      var x :| x in ss && s == Service(x.name, EndpointIdentity(e.model.identity, x.registration));
      var i :| 0 <= i < |ss| && ss[i] == x;
      assert ServicesOf(e, ss)[i] == s;
    }
  }

  lemma {:induction false} ScannedTopics(a: Answers, supervisors: seq<Supervisor>, runtimes: seq<RuntimeInfo>, n: nat,
                                         t: Topic)
    requires n <= |runtimes|
    ensures HasTopic(Scanned(a, supervisors, runtimes, n).topics, t) <==> TopicListed(a, runtimes, n, t)
  {
    hide TopicsOf, ParametersOf, ServicesOf, PlaceOf, TopicFrom;
    if n > 0 {
      var r := runtimes[n - 1];
      var e := Associated(supervisors, r.identity, r.executable, r.standalone);
      var (before, own) := (Scanned(a, supervisors, runtimes, n - 1).topics, TopicsOf(e, Answered(a.endpoints(n - 1))));
      ScannedTopics(a, supervisors, runtimes, n - 1, t);
      TopicsOfAll(e, Answered(a.endpoints(n - 1)), t);
      assert Scanned(a, supervisors, runtimes, n).topics == before + own;
      assert HasTopic(before + own, t) <==> HasTopic(before, t) || HasTopic(own, t);
    }
  }

  lemma {:induction false} ScannedParameters(a: Answers, supervisors: seq<Supervisor>, runtimes: seq<RuntimeInfo>,
                                             n: nat, p: Parameter)
    requires n <= |runtimes|
    ensures p in Scanned(a, supervisors, runtimes, n).parameters <==> ParameterListed(a, runtimes, n, p)
  {
    hide TopicsOf, ParametersOf, ServicesOf, PlaceOf, ParameterFrom;
    if n > 0 {
      var r := runtimes[n - 1];
      var e := Associated(supervisors, r.identity, r.executable, r.standalone);
      ScannedParameters(a, supervisors, runtimes, n - 1, p);
      ParametersOfAll(e, Answered(a.endpoints(n - 1)), p);
    }
  }

  lemma {:induction false} ScannedServices(a: Answers, supervisors: seq<Supervisor>, runtimes: seq<RuntimeInfo>,
                                           n: nat, s: Service)
    requires n <= |runtimes|
    ensures s in Scanned(a, supervisors, runtimes, n).services <==> ServiceListed(a, runtimes, n, s)
  {
    hide TopicsOf, ParametersOf, ServicesOf, PlaceOf;
    if n > 0 {
      var r := runtimes[n - 1];
      var e := Associated(supervisors, r.identity, r.executable, r.standalone);
      ScannedServices(a, supervisors, runtimes, n - 1, s);
      ServicesOfAll(e, Answered(a.services(n - 1)), s);
    }
  }

  lemma {:induction false} ScannedElements(a: Answers, supervisors: seq<Supervisor>, runtimes: seq<RuntimeInfo>, n: nat)
    requires n <= |runtimes|
    ensures var es := Scanned(a, supervisors, runtimes, n).elements;
            |es| == n && forall k :: 0 <= k < n ==>
              es[k] == Associated(supervisors, runtimes[k].identity, runtimes[k].executable, runtimes[k].standalone)
  {
    hide TopicsOf, ParametersOf, ServicesOf, Associated;
    if n > 0 { ScannedElements(a, supervisors, runtimes, n - 1); }
  }

  lemma SettledTopics(c: Cache, live: seq<RuntimeIdentity>, supervisors: seq<Supervisor>, t: Topic)
    ensures HasTopic(Settled(c, live, supervisors).topics, t) <==> HasTopic(c.topics, t) && t.identity.runtime in live
  {
    hide PlaceOf, NameOf;
    var (kept, done) := (Pruned(c, live).topics, Settled(c, live, supervisors).topics);
    if HasTopic(done, t) {
      var r :| r in done && r.model == t;
      var i :| 0 <= i < |done| && done[i] == r;
      assert kept[i] in kept && kept[i].model == t;
    }
    if HasTopic(c.topics, t) && t.identity.runtime in live {
      var r :| r in c.topics && r.model == t;
      assert r in kept;
      var i :| 0 <= i < |kept| && kept[i] == r;
      assert done[i] in done && done[i].model == t;
    }
  }

  /** The cache holds exactly what scanned runtimes that are still alive listed: every name, role and registration. */
  lemma RefreshExact(a: Answers)
    requires Refreshed(a).Ok?
    ensures var (c, live, runtimes) := (Refreshed(a).value, a.live.value, a.runtimes.value);
            && (forall t :: HasTopic(c.topics, t) <==>
                  TopicListed(a, runtimes, |runtimes|, t)
                  && t.identity.runtime in live)
            && (forall p :: p in c.parameters <==>
                  ParameterListed(a, runtimes, |runtimes|, p)
                  && p.identity.runtime in live)
            && (forall s :: s in c.services <==>
                  ServiceListed(a, runtimes, |runtimes|, s)
                  && s.identity.runtime in live)
  {
    hide Scanned, TopicListed, ParameterListed, ServiceListed, HasTopic, Reassociated, RenamedTopics;
    var (live, current, runtimes) := (a.live.value, a.currentSupervisors.value, a.runtimes.value);
    var n := |runtimes|;
    var scanned := Scanned(a, a.supervisors.value, runtimes, n);
    forall t: Topic
      ensures HasTopic(Settled(scanned, live, current).topics, t) <==>
                TopicListed(a, runtimes, n, t)
                && t.identity.runtime in live
    {
      ScannedTopics(a, a.supervisors.value, runtimes, n, t);
      SettledTopics(scanned, live, current, t);
    }
    forall p: Parameter ensures p in scanned.parameters <==> ParameterListed(a, runtimes, n, p) {
      ScannedParameters(a, a.supervisors.value, runtimes, n, p);
    }
    forall s: Service ensures s in scanned.services <==> ServiceListed(a, runtimes, n, s) {
      ScannedServices(a, a.supervisors.value, runtimes, n, s);
    }
  }

  /** The elements are the scanned runtimes that are still alive, in scan order, each placed by the second supervisor
      list. */
  lemma ElementsExact(a: Answers)
    requires Refreshed(a).Ok?
    ensures var runtimes := Ordering.Filter((r: RuntimeInfo) => r.identity in a.live.value, a.runtimes.value);
            && |Refreshed(a).value.elements| == |runtimes|
            && forall i :: 0 <= i < |runtimes| ==>
                 Refreshed(a).value.elements[i] ==
                 Associated(a.currentSupervisors.value, runtimes[i].identity, runtimes[i].executable,
                            runtimes[i].standalone)
  {
    hide Associated, RenamedTopics;
    var (live, first, all) := (a.live.value, a.supervisors.value, a.runtimes.value);
    ScannedElements(a, first, all, |all|);
    var scanned := Scanned(a, first, all, |all|).elements;
    forall i | 0 <= i < |all| ensures FromRuntime(scanned[i], all[i]) { AssociatedRuntime(first, all[i]); }
    SameFilter(scanned, all, (e: ElementRecord) => e.model.identity in live, (r: RuntimeInfo) => r.identity in live,
               FromRuntime);
  }

  predicate FromRuntime(e: ElementRecord, r: RuntimeInfo) {
    e.model.identity == r.identity && e.executable == r.executable && e.standalone == r.standalone
  }

  lemma AssociatedRuntime(supervisors: seq<Supervisor>, r: RuntimeInfo)
    ensures FromRuntime(Associated(supervisors, r.identity, r.executable, r.standalone), r)
  {
  }

  // ---- The graph of a refreshed cache ----

  function SnapshotOf(c: Cache): Snapshot {
    Snapshot(c.applications, seq(|c.elements|, i requires 0 <= i < |c.elements| => c.elements[i].model),
             seq(|c.topics|, i requires 0 <= i < |c.topics| => c.topics[i].model), c.parameters, c.services)
  }

  /** Every cached registration, whatever its role. */
  function EveryRegistration(c: Cache): set<Registration> {
    (set t | t in c.topics :: OfTopic(t.model)) + (set p | p in c.parameters :: OfParameter(p)) +
        (set s | s in c.services :: OfService(s))
  }

  lemma ModelsOf(c: Cache)
    ensures forall e :: e in c.elements ==> e.model in SnapshotOf(c).elements
    ensures forall t :: t in SnapshotOf(c).topics <==> exists r :: r in c.topics && r.model == t
    ensures forall m :: m in SnapshotOf(c).elements ==> exists e :: e in c.elements && e.model == m
  {
    forall e | e in c.elements ensures e.model in SnapshotOf(c).elements {
      var i :| 0 <= i < |c.elements| && c.elements[i] == e;
      assert SnapshotOf(c).elements[i] == e.model;
    }
    forall r | r in c.topics ensures r.model in SnapshotOf(c).topics {
      var i :| 0 <= i < |c.topics| && c.topics[i] == r;
      assert SnapshotOf(c).topics[i] == r.model;
    }
    forall t | t in SnapshotOf(c).topics ensures exists r :: r in c.topics && r.model == t {
      var i :| 0 <= i < |c.topics| && SnapshotOf(c).topics[i] == t;
      assert c.topics[i] in c.topics;
    }
    forall m | m in SnapshotOf(c).elements ensures exists e :: e in c.elements && e.model == m {
      var i :| 0 <= i < |c.elements| && SnapshotOf(c).elements[i] == m;
      assert c.elements[i] in c.elements;
    }
  }

  lemma AllDrawn(c: Cache, o: Options)
    requires OwnersKnown(c) && o.topics && o.parameters && o.services && o.group == ""
    ensures Drawn(SnapshotOf(c), o) == EveryRegistration(c)
    ensures forall r :: r in EveryRegistration(c) ==> Owned(SnapshotOf(c), o, r)
  {
    hide LastShown;
    ModelsOf(c);
    var src := SnapshotOf(c);
    assert Registrations(src, o) == EveryRegistration(c);
    forall r | r in EveryRegistration(c) ensures Owned(src, o, r) {
      assert HasElement(c, r.identity.runtime);
      var e :| e in c.elements && e.model.identity == r.identity.runtime;
      assert Shown(e.model, o.group);
    }
  }

  /** With every local kind on and no group chosen, the graph of a refreshed cache has one edge per distinct
      registration. */
  lemma EveryRegistrationDrawn(a: Answers, o: Options, g: Graph)
    requires Refreshed(a).Ok? && IsGraph(SnapshotOf(Refreshed(a).value), o, g)
    requires o.topics && o.parameters && o.services && o.group == ""
    ensures |g.edges| == |EveryRegistration(Refreshed(a).value)|
    ensures forall r :: r in EveryRegistration(Refreshed(a).value) ==> EdgeOf(r) in g.edges
  {
    hide Drawn, EdgeOf, OwnersKnown, Ordering.KeySorted, OwnerNamed, Supervised, SnapshotOf, EveryRegistration, Owned;
    var c := Refreshed(a).value;
    RefreshIntegrity(a);
    AllDrawn(c, o);
    GraphFilter.EdgeForEach(SnapshotOf(c), o, g);
    assert (set r | r in Drawn(SnapshotOf(c), o) && Owned(SnapshotOf(c), o, r)) == EveryRegistration(c);
    forall r | r in EveryRegistration(c) ensures EdgeOf(r) in g.edges {
      assert IsEdge(SnapshotOf(c), o, EdgeOf(r));
    }
  }

  /** However often a process was scanned, it has one supervisor. */
  lemma OneSupervisor(a: Answers, e: Element, f: Element)
    requires Refreshed(a).Ok? && e.identity == f.identity
    requires e in SnapshotOf(Refreshed(a).value).elements && f in SnapshotOf(Refreshed(a).value).elements
    ensures e.supervisor == f.supervisor
  {
    hide Refreshed, PlaceOf;
    ElementsExact(a);
    var elements := Refreshed(a).value.elements;
    var i :| 0 <= i < |elements| && elements[i].model == e;
    var k :| 0 <= k < |elements| && elements[k].model == f;
  }

  /** A refreshed cache never lists one process under two supervisors, so its filtered graph is always its full graph
      cut down to the group. */
  lemma RefreshedCut(a: Answers, o: Options, g: Graph, f: Graph)
    requires Refreshed(a).Ok? && o.group != ""
    requires IsGraph(SnapshotOf(Refreshed(a).value), o.(group := ""), g)
             && IsGraph(SnapshotOf(Refreshed(a).value), o, f)
    ensures f == GraphFilter.RestrictGraph(g, o.group)
  {
    hide IsGraph, GraphFilter.RestrictGraph, Refreshed, SnapshotOf, IdText;
    var src := SnapshotOf(Refreshed(a).value);
    forall e | e in src.elements && GroupId(e) == o.group
      ensures LastShown(src.elements, "", e.identity).Some?
      ensures GroupId(LastShown(src.elements, "", e.identity).value) == o.group
    {
      assert Shown(e, "");
      OneSupervisor(a, e, LastShown(src.elements, "", e.identity).value);
    }
    GraphFilter.FilterRestricts(src, o, g, f);
  }

  /** Distinct live processes and agreeing application names are enough for the order of the lists not to matter. */
  lemma RefreshedCoherent(a: Answers, group: string)
    requires Refreshed(a).Ok?
    requires GraphLaws.NamesAgree(Refreshed(a).value.applications)
    requires var elements := Refreshed(a).value.elements;
             forall e, f :: e in elements && f in elements && e.model.identity == f.model.identity ==> e == f
    ensures GraphLaws.Coherent(SnapshotOf(Refreshed(a).value), group)
  {
    hide GroupId, IdText, DerivedLabel, OwnersKnown, OwnerNamed, Refreshed;
    var c := Refreshed(a).value;
    RefreshIntegrity(a);
    ModelsOf(c);
    forall e, f | e in SnapshotOf(c).elements && f in SnapshotOf(c).elements && GroupId(e) == GroupId(f)
        && !GraphLaws.Listed(c.applications, GroupId(e))
      ensures DerivedLabel(e) == DerivedLabel(f)
    {
      UnlistedStandalone(c, e);
      UnlistedStandalone(c, f);
    }
  }

  /** An element outside the listed applications is standalone, so its label does not depend on it. */
  lemma UnlistedStandalone(c: Cache, e: Element)
    requires forall x :: x in c.elements ==> Supervised(c, x)
    requires e in SnapshotOf(c).elements && !GraphLaws.Listed(c.applications, GroupId(e))
    ensures DerivedLabel(e) == "Standalone"
  {
    hide IdText;
    ModelsOf(c);
    var x :| x in c.elements && x.model == e;
    assert Supervised(c, x);
  }

  // ---- Choosing by name ----

  /** The choice by name does not depend on the order in which registrations were discovered. */
  lemma SelectIgnoresOrder(list: seq<Choice>, other: seq<Choice>, name: string, preferred: string)
    requires multiset(list) == multiset(other)
    ensures Chosen(list, name, preferred) == Chosen(other, name, preferred)
  {
    hide Ordering.Filter;
    Ordering.FilterArranged((c: Choice) => c.name == name, list, other);
    var (named, alike) := (Named(list, name), Named(other, name));
    Ordering.FilterArranged((c: Choice) => c.role == preferred, named, alike);
    Ordering.MembersOfSame(named, alike);
    Ordering.MembersOfSame(InRole(named, preferred), InRole(alike, preferred));
    OnlyMember(named, alike);
    OnlyMember(InRole(named, preferred), InRole(alike, preferred));
  }

  lemma OnlyMember(s: seq<Choice>, t: seq<Choice>)
    requires multiset(s) == multiset(t) && |s| == |t|
    ensures |s| == 1 ==> s[0] == t[0]
  {
    if |s| == 1 { assert s[0] in multiset(s); }
  }

  // ---- Placement ----

  /** Supervisor i lists the process as member k, and nothing listed later does. */
  predicate LastMember(supervisors: seq<Supervisor>, i: int, k: int, id: RuntimeIdentity) {
    && 0 <= i < |supervisors| && 0 <= k < |supervisors[i].members| && supervisors[i].members[k].identity == id
    && (forall l :: k < l < |supervisors[i].members| ==> supervisors[i].members[l].identity != id)
    && (forall j, l :: i < j < |supervisors| && 0 <= l < |supervisors[j].members| ==>
          supervisors[j].members[l].identity != id)
  }

  predicate Unlisted(supervisors: seq<Supervisor>, id: RuntimeIdentity) {
    forall j, l :: 0 <= j < |supervisors| && 0 <= l < |supervisors[j].members| ==>
      supervisors[j].members[l].identity != id
  }

  lemma {:induction false} MemberAt(s: Supervisor, members: seq<Member>, id: RuntimeIdentity)
    ensures MemberOf(s, members, id).None? ==> forall k :: 0 <= k < |members| ==> members[k].identity != id
    ensures MemberOf(s, members, id).Some? ==>
              exists k :: 0 <= k < |members| && members[k].identity == id
                  && MemberOf(s, members, id) == Results.Some(Place(members[k].name, s.identity, s.applicationName))
                  && forall l :: k < l < |members| ==> members[l].identity != id
  {
    if members != [] {
      var n := |members| - 1;
      if members[n].identity != id {
        MemberAt(s, members[..n], id);
        forall k | 0 <= k < n ensures members[..n][k] == members[k] {
        }
      }
    }
  }

  /** A process is placed by its last listing: the member's name, under that supervisor and its application. */
  lemma {:induction false} PlacedByLast(supervisors: seq<Supervisor>, id: RuntimeIdentity) returns (i: int, k: int)
    ensures match PlaceOf(supervisors, id)
            case None => Unlisted(supervisors, id)
            case Some(p) =>
              && LastMember(supervisors, i, k, id)
              && p == Place(supervisors[i].members[k].name, supervisors[i].identity, supervisors[i].applicationName)
  {
    hide MemberOf;
    i, k := 0, 0;
    if supervisors != [] {
      var n := |supervisors| - 1;
      var s := supervisors[n];
      MemberAt(s, s.members, id);
      if MemberOf(s, s.members, id).Some? {
        i := n;
        k :| 0 <= k < |s.members| && s.members[k].identity == id
          && MemberOf(s, s.members, id) == Results.Some(Place(s.members[k].name, s.identity, s.applicationName))
          && forall l :: k < l < |s.members| ==> s.members[l].identity != id;
      } else {
        i, k := PlacedByLast(supervisors[..n], id);
        PlacedEarlier(supervisors, i, k, id);
      }
    }
  }

  lemma PlacedEarlier(supervisors: seq<Supervisor>, i: int, k: int, id: RuntimeIdentity)
    requires supervisors != []
    requires var members := supervisors[|supervisors| - 1].members;
             forall l :: 0 <= l < |members| ==> members[l].identity != id
    ensures LastMember(supervisors[..|supervisors| - 1], i, k, id) ==>
              LastMember(supervisors, i, k, id) && supervisors[..|supervisors| - 1][i] == supervisors[i]
    ensures Unlisted(supervisors[..|supervisors| - 1], id) ==> Unlisted(supervisors, id)
  {
    var init := supervisors[..|supervisors| - 1];
    forall j | 0 <= j < |init| ensures init[j] == supervisors[j] {
    }
  }

  /** What a cached element shows of a process, given the supervisors asked last. */
  ghost predicate PlacedAs(supervisors: seq<Supervisor>, r: RuntimeInfo, e: Element) {
    && e.identity == r.identity
    && if exists i, k :: LastMember(supervisors, i, k, r.identity) then
         exists i, k :: LastMember(supervisors, i, k, r.identity)
                        && e == Element(supervisors[i].members[k].name, r.identity, supervisors[i].identity,
                                        supervisors[i].applicationName)
       else e == Element(r.executable, r.identity, RuntimeIdentity(0, 0),
                         if r.standalone then "Standalone" else "Unassigned")
  }

  /** After a refresh, element by element: the live processes in scan order, each under the name, supervisor and
      application of its last listing, or under its executable when no supervisor lists it; and the applications are the
      supervisors asked last. */
  lemma ElementsPlaced(a: Answers)
    requires Refreshed(a).Ok?
    ensures var (c, current) := (Refreshed(a).value, a.currentSupervisors.value);
            var live := Ordering.Filter((r: RuntimeInfo) => r.identity in a.live.value, a.runtimes.value);
            && |c.elements| == |live|
            && (forall i :: 0 <= i < |live| ==> PlacedAs(current, live[i], c.elements[i].model))
            && |c.applications| == |current|
            && forall i :: 0 <= i < |current| ==>
                 c.applications[i] == Application(current[i].applicationName, current[i].identity)
  {
    ElementsExact(a);
    hide Scanned, Reassociated, RenamedTopics, Pruned, PlaceOf, LastMember, PlacedAs;
    var current := a.currentSupervisors.value;
    var live := Ordering.Filter((r: RuntimeInfo) => r.identity in a.live.value, a.runtimes.value);
    forall i | 0 <= i < |live| ensures PlacedAs(current, live[i], Refreshed(a).value.elements[i].model) {
      AssociatedPlainly(current, live[i]);
    }
  }

  lemma AssociatedPlainly(supervisors: seq<Supervisor>, r: RuntimeInfo)
    ensures PlacedAs(supervisors, r, Associated(supervisors, r.identity, r.executable, r.standalone).model)
  {
    hide PlaceOf;
    var i, k := PlacedByLast(supervisors, r.identity);
  }

  /** The first list call to fail decides the error; calls about single processes never do. */
  lemma RefreshErrors(a: Answers)
    ensures Refreshed(a).Ok? <==> a.supervisors.Ok? && a.runtimes.Ok? && a.live.Ok? && a.currentSupervisors.Ok?
    ensures Refreshed(a).Err? ==>
              Refreshed(a).code == if a.supervisors.Err? then a.supervisors.code
              else if a.runtimes.Err? then a.runtimes.code
                                   else if a.live.Err? then a.live.code else a.currentSupervisors.code
  {
    hide Settled, Scanned;
  }

  // ---- Selection ----

  predicate OnlyOne(list: seq<Choice>, i: int, name: string, role: string) {
    && 0 <= i < |list| && list[i].name == name && list[i].role == role
    && forall j :: 0 <= j < |list| && j != i && list[j].name == name ==> list[j].role != role
  }

  predicate OnlyNamed(list: seq<Choice>, i: int, name: string) {
    && 0 <= i < |list| && list[i].name == name
    && forall j :: 0 <= j < |list| && j != i ==> list[j].name != name
  }

  /** The registration chosen is the only one of the name in the preferred role, or, when none is in that role, the only
      one of the name at all. */
  ghost predicate Picks(list: seq<Choice>, i: int, name: string, preferred: string) {
    || OnlyOne(list, i, name, preferred)
    || (OnlyNamed(list, i, name) && list[i].role != preferred)
  }

  predicate Only<T>(keep: T -> bool, s: seq<T>, i: int) {
    0 <= i < |s| && keep(s[i]) && forall j :: 0 <= j < |s| && j != i ==> !keep(s[j])
  }

  lemma FilterLast<T(!new)>(keep: T -> bool, s: seq<T>)
    ensures Ordering.Filter(keep, s) ==
            if s == [] then []
            else Ordering.Filter(keep, s[..|s| - 1]) + if keep(s[|s| - 1]) then [s[|s| - 1]] else []
  {
  }

  lemma OnlyLast<T(!new)>(keep: T -> bool, s: seq<T>, i: int)
    requires s != []
    ensures Only(keep, s, i) ==> i == |s| - 1 || (Only(keep, s[..|s| - 1], i) && !keep(s[|s| - 1]))
    ensures Only(keep, s[..|s| - 1], i) && !keep(s[|s| - 1]) ==> Only(keep, s, i)
    ensures keep(s[|s| - 1]) && (forall x <- s[..|s| - 1] :: !keep(x)) <==> Only(keep, s, |s| - 1)
  {
    forall k | 0 <= k < |s| - 1 ensures s[..|s| - 1][k] == s[k] {
    }
  }

  lemma {:induction false} FilteredAt<T(!new)>(keep: T -> bool, s: seq<T>)
    ensures Ordering.Filter(keep, s) == [] <==> forall x <- s :: !keep(x)
    ensures forall i :: Only(keep, s, i) ==> Ordering.Filter(keep, s) == [s[i]]
    ensures |Ordering.Filter(keep, s)| == 1 ==> exists i :: Only(keep, s, i)
  {
    hide Ordering.Filter, Only;
    FilterLast(keep, s);
    OnlyInside(keep, s);
    if s != [] {
      var init := s[..|s| - 1];
      FilteredAt(keep, init);
      assert s == init + [s[|s| - 1]];
      forall i | Only(keep, s, i) ensures Ordering.Filter(keep, s) == [s[i]] {
        OnlyLast(keep, s, i);
        OnlyInside(keep, init);
        if i < |s| - 1 { assert init[i] == s[i]; }
      }
      if |Ordering.Filter(keep, s)| == 1 {
        OnlyLast(keep, s, |s| - 1);
        if !keep(s[|s| - 1]) {
          var i :| Only(keep, init, i);
          OnlyLast(keep, s, i);
        }
      }
    }
  }

  lemma OnlyInside<T>(keep: T -> bool, s: seq<T>)
    ensures forall i :: Only(keep, s, i) ==> 0 <= i < |s|
  {
  }

  lemma SingleInRole(list: seq<Choice>, name: string, role: string)
    ensures var pool := InRole(Named(list, name), role);
            && (pool == [] <==> forall c <- list :: !(c.name == name && c.role == role))
            && (forall i :: OnlyOne(list, i, name, role) ==> pool == [list[i]])
            && (|pool| == 1 ==> exists i :: OnlyOne(list, i, name, role))
  {
    hide Ordering.Filter;
    var keep := (c: Choice) => c.name == name && c.role == role;
    FilteredAt(keep, list);
    FilterTwice(list, name, role);
    assert InRole(Named(list, name), role) == Ordering.Filter(keep, list);
    if |Ordering.Filter(keep, list)| == 1 {
      var i :| Only(keep, list, i);
      assert OnlyOne(list, i, name, role);
    }
  }

  lemma SingleNamed(list: seq<Choice>, name: string)
    ensures Named(list, name) == [] <==> forall c <- list :: c.name != name
    ensures forall i :: OnlyNamed(list, i, name) ==> Named(list, name) == [list[i]]
    ensures |Named(list, name)| == 1 ==> exists i :: OnlyNamed(list, i, name)
  {
    hide Ordering.Filter;
    var keep := (c: Choice) => c.name == name;
    FilteredAt(keep, list);
    assert Named(list, name) == Ordering.Filter(keep, list);
    if |Ordering.Filter(keep, list)| == 1 {
      var i :| Only(keep, list, i);
      assert OnlyNamed(list, i, name);
    }
  }

  /** Exactly when a name is missing, chosen or ambiguous. */
  lemma ChosenExactly(list: seq<Choice>, name: string, preferred: string)
    ensures Chosen(list, name, preferred) == Results.Err(-2) <==> forall c <- list :: c.name != name
    ensures forall id :: Chosen(list, name, preferred) == Results.Ok(id) <==>
              exists i :: Picks(list, i, name, preferred) && list[i].identity == id
    ensures Chosen(list, name, preferred).Err? ==> Chosen(list, name, preferred).code in {-2, -76}
  {
    hide Named, InRole;
    SingleInRole(list, name, preferred);
    SingleNamed(list, name);
    var (best, named) := (InRole(Named(list, name), preferred), Named(list, name));
    forall i | OnlyNamed(list, i, name) && list[i].role != preferred
      ensures best == [] && named == [list[i]]
    {
      forall c | c in list ensures !(c.name == name && c.role == preferred) {
        var k :| 0 <= k < |list| && list[k] == c;
      }
    }
    forall i | OnlyOne(list, i, name, preferred) ensures best == [list[i]] {
    }
    if best == [] && |named| == 1 {
      var i :| OnlyNamed(list, i, name);
      assert list[i] in list && list[i].role != preferred && Picks(list, i, name, preferred);
    }
    if |best| == 1 {
      var i :| OnlyOne(list, i, name, preferred);
      assert Picks(list, i, name, preferred);
    }
    if best == [] && (exists c <- list :: c.name == name) { assert named != []; }
    if best != [] && forall c <- list :: c.name != name { assert false; }
  }

  lemma {:induction false} FilterTwice(list: seq<Choice>, name: string, role: string)
    ensures InRole(Named(list, name), role) ==
            Ordering.Filter((c: Choice) => c.name == name && c.role == role, list)
  {
    if list != [] {
      var (init, c) := (list[..|list| - 1], list[|list| - 1]);
      FilterTwice(init, name, role);
      var named := Named(init, name);
      if c.name == name { assert (named + [c])[..|named|] == named; }
    }
  }
}
