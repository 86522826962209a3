/** Local discovery: a scan that is not atomic, then pruning and association with what is alive afterwards. */
module Discovery {
  import opened Results
  import Numerals
  import Ordering
  import opened GraphModel

  // ---- What the framework's list calls answer ----

  datatype Member = Member(identity: RuntimeIdentity, name: string)

  datatype Supervisor = Supervisor(applicationName: string, identity: RuntimeIdentity, members: seq<Member>)

  datatype RuntimeInfo = RuntimeInfo(identity: RuntimeIdentity, executable: string, standalone: bool)

  datatype EndpointKind = TOPIC | PARAMETER | OTHER

  /** provider: a publisher or a parameter owner. */
  datatype EndpointInfo = EndpointInfo(kind: EndpointKind, name: string, registration: Numerals.Uint64,
                                       provider: bool)

  datatype ServiceInfo = ServiceInfo(name: string, registration: Numerals.Uint64)

  /** Arbitrary answers, in the order of the calls; endpoints and services are asked of each scanned runtime. */
  datatype Answers = Answers(supervisors: Result<seq<Supervisor>>, runtimes: Result<seq<RuntimeInfo>>,
                             endpoints: nat -> Result<seq<EndpointInfo>>, services: nat -> Result<seq<ServiceInfo>>,
                             live: Result<seq<RuntimeIdentity>>, currentSupervisors: Result<seq<Supervisor>>)

  // ---- The cache ----

  datatype ElementRecord = ElementRecord(model: Element, executable: string, standalone: bool)

  /** owner is the element name listed as publisher or subscriber. */
  datatype TopicRecord = TopicRecord(model: Topic, owner: string)

  datatype Cache = Cache(applications: seq<Application>, elements: seq<ElementRecord>, topics: seq<TopicRecord>,
                         parameters: seq<Parameter>, services: seq<Service>)

  const NO_CACHE := Cache([], [], [], [], [])

  // ---- Association ----

  datatype Place = Place(name: string, supervisor: RuntimeIdentity, applicationName: string)

  function MemberOf(s: Supervisor, members: seq<Member>, id: RuntimeIdentity): Option<Place> {
    if members == [] then None else
      var (before, m) := (members[..|members| - 1], members[|members| - 1]);
      if m.identity == id then Some(Place(m.name, s.identity, s.applicationName)) else MemberOf(s, before, id)
  }

  /** Where the supervisors place a runtime: the last listing counts. */
  function PlaceOf(supervisors: seq<Supervisor>, id: RuntimeIdentity): (p: Option<Place>)
    ensures p.Some? ==>
              exists s :: s in supervisors && s.identity == p.value.supervisor
                  && s.applicationName == p.value.applicationName
  {
    if supervisors == [] then None else
      var (before, s) := (supervisors[..|supervisors| - 1], supervisors[|supervisors| - 1]);
      var here := MemberOf(s, s.members, id);
      MemberPlace(s, s.members, id);
      assert s in supervisors;
      if here.Some? then here else PlaceOf(before, id)
  }

  lemma {:induction false} MemberPlace(s: Supervisor, members: seq<Member>, id: RuntimeIdentity)
    ensures var p := MemberOf(s, members, id);
            p.Some? ==> p.value.supervisor == s.identity && p.value.applicationName == s.applicationName
  {
    if members != [] { MemberPlace(s, members[..|members| - 1], id); }
  }

  function Unplaced(executable: string, standalone: bool): Place {
    Place(executable, NO_RUNTIME, if standalone then "Standalone" else "Unassigned")
  }

  function Located(id: RuntimeIdentity, p: Place): Element { Element(p.name, id, p.supervisor, p.applicationName) }

  /** The element a runtime is shown as, given the supervisors. */
  function Associated(supervisors: seq<Supervisor>, id: RuntimeIdentity, executable: string,
                      standalone: bool): ElementRecord
  {
    var p := PlaceOf(supervisors, id);
    ElementRecord(Located(id, if p.Some? then p.value else Unplaced(executable, standalone)), executable, standalone)
  }

  method Associate(supervisors: seq<Supervisor>, id: RuntimeIdentity, executable: string, standalone: bool)
    returns (e: ElementRecord)
    ensures e == Associated(supervisors, id, executable, standalone)
  {
    var first := Unplaced(executable, standalone);
    var p := first;
    for i := 0 to |supervisors|
      invariant p == Or(PlaceOf(supervisors[..i], id), first)
    {
      var s := supervisors[i];
      assert supervisors[..i + 1][..i] == supervisors[..i];
      ghost var before := p;
      for k := 0 to |s.members|
        invariant p == Or(MemberOf(s, s.members[..k], id), before)
      {
        assert s.members[..k + 1][..k] == s.members[..k];
        if s.members[k].identity == id { p := Place(s.members[k].name, s.identity, s.applicationName); }
      }
      assert s.members[..|s.members|] == s.members;
    }
    assert supervisors[..|supervisors|] == supervisors;
    e := ElementRecord(Located(id, p), executable, standalone);
  }

  function Or(p: Option<Place>, other: Place): Place { if p.Some? then p.value else other }

  // ---- The scan ----

  function TopicsOf(e: ElementRecord, es: seq<EndpointInfo>): (r: seq<TopicRecord>)
    ensures forall t :: t in r ==> t.model.identity.runtime == e.model.identity && IsTopicRole(t.model.role)
  {
    if es == [] then [] else
      var (before, x) := (es[..|es| - 1], es[|es| - 1]);
      TopicsOf(e, before) + if x.kind != TOPIC then [] else
        [TopicRecord(Topic(x.name, EndpointIdentity(e.model.identity, x.registration),
                           if x.provider then "PUBLISHER" else "SUBSCRIBER"),
                     e.model.name)]
  }

  function ParametersOf(e: ElementRecord, es: seq<EndpointInfo>): (r: seq<Parameter>)
    ensures forall p :: p in r ==> p.identity.runtime == e.model.identity && IsParameterRole(p.role)
  {
    if es == [] then [] else
      var (before, x) := (es[..|es| - 1], es[|es| - 1]);
      ParametersOf(e, before) + if x.kind != PARAMETER then [] else
        [Parameter(x.name, EndpointIdentity(e.model.identity, x.registration),
                   if x.provider then "OWNER" else "CLIENT")]
  }

  function ServicesOf(e: ElementRecord, ss: seq<ServiceInfo>): (r: seq<Service>)
    ensures forall s :: s in r ==> s.identity.runtime == e.model.identity
  {
    seq(|ss|, i requires 0 <= i < |ss| => Service(ss[i].name, EndpointIdentity(e.model.identity, ss[i].registration)))
  }

  function Answered<T>(answer: Result<seq<T>>): seq<T> { if answer.Ok? then answer.value else [] }

  function Contributed(c: Cache, e: ElementRecord, endpoints: Result<seq<EndpointInfo>>,
                       services: Result<seq<ServiceInfo>>): Cache
  {
    Cache(c.applications, c.elements + [e], c.topics + TopicsOf(e, Answered(endpoints)),
          c.parameters + ParametersOf(e, Answered(endpoints)), c.services + ServicesOf(e, Answered(services)))
  }

  /** What the first n runtimes contribute; a runtime whose list calls fail contributes no endpoints but stays. */
  function Scanned(a: Answers, supervisors: seq<Supervisor>, runtimes: seq<RuntimeInfo>, n: nat): Cache
    requires n <= |runtimes|
  {
    if n == 0 then NO_CACHE else
      var before := Scanned(a, supervisors, runtimes, n - 1);
      var r := runtimes[n - 1];
      var e := Associated(supervisors, r.identity, r.executable, r.standalone);
      Contributed(before, e, a.endpoints(n - 1), a.services(n - 1))
  }

  // ---- Pruning and the second association ----

  function Applications(supervisors: seq<Supervisor>): seq<Application> {
    seq(|supervisors|,
        i requires 0 <= i < |supervisors| => Application(supervisors[i].applicationName, supervisors[i].identity))
  }

  function Pruned(c: Cache, live: seq<RuntimeIdentity>): Cache {
    Cache(c.applications,
          Ordering.Filter((e: ElementRecord) => e.model.identity in live, c.elements),
          Ordering.Filter((t: TopicRecord) => t.model.identity.runtime in live, c.topics),
          Ordering.Filter((p: Parameter) => p.identity.runtime in live, c.parameters),
          Ordering.Filter((s: Service) => s.identity.runtime in live, c.services))
  }

  function Reassociated(supervisors: seq<Supervisor>, elements: seq<ElementRecord>): seq<ElementRecord> {
    seq(|elements|, i requires 0 <= i < |elements| =>
      Associated(supervisors, elements[i].model.identity, elements[i].executable, elements[i].standalone))
  }

  /** The name of the last element with this identity, if any. */
  function NameOf(elements: seq<ElementRecord>, id: RuntimeIdentity): (name: Option<string>)
    ensures name.Some? ==> exists e :: e in elements && e.model.identity == id && e.model.name == name.value
    ensures name.None? ==> forall e :: e in elements ==> e.model.identity != id
  {
    if elements == [] then None else
      var (before, e) := (elements[..|elements| - 1], elements[|elements| - 1]);
      assert e in elements;
      if e.model.identity == id then Some(e.model.name) else NameOf(before, id)
  }

  function Renamed(elements: seq<ElementRecord>, t: TopicRecord): TopicRecord {
    var name := NameOf(elements, t.model.identity.runtime);
    if name.Some? then t.(owner := name.value) else t
  }

  function RenamedTopics(elements: seq<ElementRecord>, topics: seq<TopicRecord>): seq<TopicRecord> {
    seq(|topics|, i requires 0 <= i < |topics| => Renamed(elements, topics[i]))
  }

  function Settled(c: Cache, live: seq<RuntimeIdentity>, supervisors: seq<Supervisor>): Cache {
    var kept := Pruned(c, live);
    var elements := Reassociated(supervisors, kept.elements);
    Cache(Applications(supervisors), elements, RenamedTopics(elements, kept.topics), kept.parameters, kept.services)
  }

  /** The outcome of a refresh: the first failing list call's code, or the new cache. */
  function Refreshed(a: Answers): Result<Cache> {
    var supervisors :- a.supervisors;
    var runtimes :- a.runtimes;
    var live :- a.live;
    var current :- a.currentSupervisors;
    Ok(Settled(Scanned(a, supervisors, runtimes, |runtimes|), live, current))
  }

  // ---- The object ----

  datatype ConnectionState = DISCONNECTED | CONNECTED | FAULTED

  class Impl {
    var state: ConnectionState
    var cache: Cache

    constructor ()
      ensures state == DISCONNECTED && cache == NO_CACHE
    {
      state, cache := DISCONNECTED, NO_CACHE;
    }

    method Scan(a: Answers, supervisors: seq<Supervisor>, runtimes: seq<RuntimeInfo>)
      requires cache == NO_CACHE
      modifies this
      ensures cache == Scanned(a, supervisors, runtimes, |runtimes|) && state == old(state)
    {
      hide Contributed, Associated;
      for n := 0 to |runtimes|
        invariant cache == Scanned(a, supervisors, runtimes, n) && state == old(state)
      {
        var r := runtimes[n];
        var e := Associate(supervisors, r.identity, r.executable, r.standalone);
        AddContribution(e, a.endpoints(n), a.services(n));
      }
    }

    method AddContribution(e: ElementRecord, endpoints: Result<seq<EndpointInfo>>, services: Result<seq<ServiceInfo>>)
      modifies this
      ensures cache == Contributed(old(cache), e, endpoints, services) && state == old(state)
    {
      hide TopicsOf, ParametersOf, ServicesOf;
      var (topics, parameters, offered) := (cache.topics, cache.parameters, cache.services);
      NothingOf(e);
      if endpoints.Ok? {
        topics, parameters := topics + TopicsOf(e, endpoints.value), parameters + ParametersOf(e, endpoints.value);
      }
      if services.Ok? { offered := offered + ServicesOf(e, services.value); }
      cache := Cache(cache.applications, cache.elements + [e], topics, parameters, offered);
    }

    lemma NothingOf(e: ElementRecord)
      ensures TopicsOf(e, []) == [] && ParametersOf(e, []) == [] && ServicesOf(e, []) == []
    {
    }

    method Settle(live: seq<RuntimeIdentity>, supervisors: seq<Supervisor>)
      modifies this
      ensures cache == Settled(old(cache), live, supervisors) && state == old(state)
    {
      hide Pruned, Renamed, Associated, Applications;
      cache := Pruned(cache, live).(applications := Applications(supervisors));
      var elements := [];
      for i := 0 to |cache.elements|
        invariant cache == Pruned(old(cache), live).(applications := Applications(supervisors)) && state == old(state)
        invariant elements == Reassociated(supervisors, cache.elements[..i])
      {
        var e := cache.elements[i];
        var placed := Associate(supervisors, e.model.identity, e.executable, e.standalone);
        elements := elements + [placed];
      }
      assert cache.elements[..|cache.elements|] == cache.elements;
      var topics := [];
      for i := 0 to |cache.topics|
        invariant cache == Pruned(old(cache), live).(applications := Applications(supervisors)) && state == old(state)
        invariant topics == RenamedTopics(elements, cache.topics[..i])
      {
        var t := Rename(elements, cache.topics[i]);
        topics := topics + [t];
      }
      assert cache.topics[..|cache.topics|] == cache.topics;
      cache := cache.(elements := elements, topics := topics);
    }

    static method Rename(elements: seq<ElementRecord>, t: TopicRecord) returns (r: TopicRecord)
      ensures r == Renamed(elements, t)
    {
      r := t;
      for i := 0 to |elements|
        invariant r == Renamed(elements[..i], t)
      {
        assert elements[..i + 1][..i] == elements[..i];
        if elements[i].model.identity == t.model.identity.runtime { r := r.(owner := elements[i].model.name); }
      }
      assert elements[..|elements|] == elements;
    }
  }

  class KcfBackend {
    var impl: Impl

    constructor ()
      ensures fresh(impl) && impl.state == DISCONNECTED && impl.cache == NO_CACHE
    {
      impl := new Impl();
    }

    /** On success a new snapshot replaces the old one whole; on failure nothing stale is left behind. */
    method Refresh(a: Answers) returns (error: int)
      modifies this, impl
      ensures Refreshed(a).Ok? ==> error == 0 && impl.cache == Refreshed(a).value
      ensures Refreshed(a).Ok? ==>
                impl.state == if impl.cache.applications != [] || impl.cache.elements != [] then CONNECTED
                else DISCONNECTED
      ensures Refreshed(a).Err? ==>
                error == Refreshed(a).code && impl == old(impl) && impl.state == FAULTED && impl.cache == NO_CACHE
    {
      hide Scanned, Settled;
      var next := new Impl();
      var failed := true;
      error := 0;
      if a.supervisors.Err? {
        error := a.supervisors.code;
      } else if a.runtimes.Err? {
        error := a.runtimes.code;
      } else {
        next.Scan(a, a.supervisors.value, a.runtimes.value);
        if a.live.Err? {
          error := a.live.code;
        } else if a.currentSupervisors.Err? {
          error := a.currentSupervisors.code;
        } else {
          next.Settle(a.live.value, a.currentSupervisors.value);
          next.state := if next.cache.applications != [] || next.cache.elements != [] then CONNECTED else DISCONNECTED;
          impl, failed := next, false;
        }
      }
      if failed { impl.state, impl.cache := FAULTED, NO_CACHE; }
    }
  }

  // ---- Choosing a registration by name ----

  datatype Choice = Choice(name: string, role: string, identity: EndpointIdentity)

  function Named(list: seq<Choice>, name: string): seq<Choice> { Ordering.Filter((c: Choice) => c.name == name, list) }

  function InRole(list: seq<Choice>, role: string): seq<Choice> { Ordering.Filter((c: Choice) => c.role == role, list) }

  /** The only registration of that name in the preferred role, or the only one of that name when none has the
      role. */
  function Chosen(list: seq<Choice>, name: string, preferred: string): Result<EndpointIdentity> {
    var named := Named(list, name);
    var best := InRole(named, preferred);
    var pool := if best != [] then best else named;
    if pool == [] then Err(ENOENT) else if |pool| != 1 then Err(ENOTUNIQ) else Ok(pool[0].identity)
  }

  method Select(list: seq<Choice>, name: string, preferred: string) returns (r: Result<EndpointIdentity>)
    ensures r == Chosen(list, name, preferred)
  {
    var selected: Option<Choice>, best, matches := None, false, 0;
    for i := 0 to |list|
      invariant var named := Named(list[..i], name); var pool := InRole(named, preferred);
                && (best <==> pool != []) && (selected.Some? <==> named != [])
                && matches == (if best then |pool| else |named|)
                && (selected.Some? ==> selected.value == (if best then pool[0] else named[0]))
    {
      var c := list[i];
      assert list[..i + 1][..i] == list[..i];
      if c.name == name {
        var priority := c.role == preferred;
        ghost var named := Named(list[..i], name);
        assert Named(list[..i + 1], name) == named + [c];
        assert (named + [c])[..|named|] == named;
        if selected.None? || (priority && !best) {
          selected, best, matches := Some(c), priority, 1;
        } else if priority == best {
          matches := matches + 1;
        }
      }
    }
    assert list[..|list|] == list;
    if selected.None? { return Err(ENOENT); }
    if matches != 1 { return Err(ENOTUNIQ); }
    r := Ok(selected.value.identity);
  }
}
