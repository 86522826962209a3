/** The diagnostics worker over whole runs of ticks. */
module NetworkObserver {
  import opened Results
  import opened Ordering
  import opened NetworkRates
  import RateLaws
  import opened Conversion
  import opened DiagnosticsCache

  datatype State = State(cache: map<string, Cached>, cursor: string)

  /** A framework query: a failure code, or the snapshot of the very gateway generation that was asked. */
  type Query = Peer -> Result<RawDiagnostics>

  ghost predicate AnswersForItself(query: Query) {
    forall p: Peer :: query(p).Ok? ==> AnswerOf(query(p).value, p)
  }

  predicate AnswerOf(v: RawDiagnostics, p: Peer) {
    v.gatewayHost == p.host && v.gatewayBoot == p.boot && v.gatewaySession == p.session
  }

  /** What a tick does to the cursor and to when each host is next due. */
  ghost predicate TickStep(s: State, peers: seq<Peer>, now: int, selected: Option<string>, t: State) {
    && (match selected
        case None => t.cursor == s.cursor
        case Some(host) => t.cursor == host && IsNext(DueHosts(Reconciled(s.cache, peers), peers, now), s.cursor, host))
    && DueTimesKept(Reconciled(s.cache, peers), selected, t.cache)
  }

  /** Only the selected host's due time may move, except back to the epoch. */
  predicate DueTimesKept(before: map<string, Cached>, selected: Option<string>, after: map<string, Cached>) {
    forall host <- after ::
      selected == Some(host) || after[host].next == 0 || after[host].next == EntryOf(before, host).next
  }

  /** What is put on record for a queried generation: the framework's snapshot, or why there is none. */
  function AnswerValue(target: Peer, answer: Result<RawDiagnostics>, wall: nat): Diagnostics {
    match answer
    case Ok(raw) => Converted(raw, wall)
    case Err(code) =>
      var status := if code == ETIMEDOUT then TIMEOUT else ERROR;
      Blank(HostKey(target.host), HostKey(target.boot), target.session, status).(error := code)
  }

  /** The readings of the clocks when the answer came: the system's, the steady one, and the steady one at filing. */
  datatype Readings = Readings(wall: nat, observed: int, filed: int)

  /** The target's entry holds the answer, observed over its prior rates, and is due again in a second; no other entry
      differs. */
  ghost predicate Files(before: map<string, Cached>, target: Peer, answer: Result<RawDiagnostics>, at: Readings,
                        after: map<string, Cached>)
  {
    var host := HostKey(target.host);
    && host in after && after == before[host := after[host]] && after[host].next == at.filed + SECOND
    && ObservedInto(EntryOf(before, host).rates, AnswerValue(target, answer, at.wall), at.observed, after[host].value,
                    after[host].rates)
  }

  /** The very generation that was asked is still listed and may still be queried. */
  predicate StillCurrent(peers: seq<Peer>, target: Peer) {
    exists p <- peers :: p.host == target.host && p.boot == target.boot && p.session == target.session
        && Eligibility(p) == PENDING
  }

  /** The answer of a generation that is gone is dropped, any other is filed, over the cache reconciled with the later
      list. */
  ghost predicate AnswerHandled(before: map<string, Cached>, target: Peer, later: seq<Peer>,
                                answer: Result<RawDiagnostics>, at: Readings, after: map<string, Cached>)
  {
    if StillCurrent(later, target) then Files(Reconciled(before, later), target, answer, at, after)
    else after == Reconciled(before, later)
  }

  // ---- The answers behind an entry ----

  /** For each host, the answers filed since its entry was last reset. */
  type Logs = map<string, seq<Observation>>

  function LogOf(logs: Logs, host: string): seq<Observation> { if host in logs then logs[host] else [] }

  /** Reconciling forgets the answers of each entry it resets. */
  function Relogged(cache: map<string, Cached>, logs: Logs, peers: seq<Peer>): Logs {
    map host | host in HostKeys(peers) ::
      if exists p <- peers :: HostKey(p.host) == host && Resets(EntryOf(cache, host), p) then [] else LogOf(logs, host)
  }

  /** And filing adds the answer. */
  function LogsAfter(before: map<string, Cached>, logs: Logs, target: Peer, later: seq<Peer>,
                     answer: Result<RawDiagnostics>, at: Readings): Logs
  {
    var (host, kept) := (HostKey(target.host), Relogged(before, logs, later));
    if StillCurrent(later, target)
    then kept[host := LogOf(kept, host) + [Observation(AnswerValue(target, answer, at.wall), at.observed)]]
    else kept
  }

  /** The rates on a route of the latest answer, as its key's earlier answers and its own counters decide them. */
  function RatesAfter(earlier: seq<Observation>, last: Observation, r: Route): Rates {
    if Observed(last.snapshot, r)
    then RateLaws.Shown(Project(earlier, KeyOf(last.snapshot, r)) + [Sample(last.now, Some(r.counters))], |earlier|)
    else NO_RATES
  }

  /** The value is the latest answer, with those rates. */
  ghost predicate ShowsLast(v: Diagnostics, log: seq<Observation>)
    requires log != []
  {
    var (earlier, last) := (log[..|log| - 1], log[|log| - 1]);
    && v == last.snapshot.(routes := v.routes) && |v.routes| == |last.snapshot.routes|
    && forall i :: 0 <= i < |v.routes| ==>
         v.routes[i] == last.snapshot.routes[i].(rates := RatesAfter(earlier, last, last.snapshot.routes[i]))
  }

  /** An entry is what the answers since its last reset make of it. */
  ghost predicate Follows(entry: Cached, log: seq<Observation>) {
    && (forall key :: Lookup(entry.rates, key) == After(Project(log, key)))
    && if log == [] then !Answered(entry.value.status) && entry.value.routes == [] else ShowsLast(entry.value, log)
  }

  ghost predicate Logged(cache: map<string, Cached>, logs: Logs) {
    forall host <- cache :: Follows(cache[host], LogOf(logs, host))
  }

  lemma FiledFollows(entry: Cached, log: seq<Observation>, value: Diagnostics, observed: int, filed: Cached)
    requires Follows(entry, log) && ObservedInto(entry.rates, value, observed, filed.value, filed.rates)
    ensures Follows(filed, log + [Observation(value, observed)])
  {
    hide Measure, SampleOf;
    var last := Observation(value, observed);
    var after := log + [last];
    assert after[..|after| - 1] == log;
    forall key ensures Lookup(filed.rates, key) == After(Project(after, key)) {
      assert Project(after, key)[..|log|] == Project(log, key);
    }
    forall i | 0 <= i < |value.routes|
      ensures filed.value.routes[i] == value.routes[i].(rates := RatesAfter(log, last, value.routes[i]))
    {
      if Observed(value, value.routes[i]) {
        RateLaws.RouteShowsItsKey(entry.rates, log, value, value.routes[i], observed);
      }
    }
  }

  lemma NothingFiled(entry: Cached)
    requires entry.rates == map[] && !Answered(entry.value.status) && entry.value.routes == []
    ensures Follows(entry, [])
  {
  }

  /** Reconciling keeps every entry in line with its answers. */
  lemma ReloggedFollows(cache: map<string, Cached>, logs: Logs, peers: seq<Peer>)
    requires CacheInv(cache) && DistinctHosts(peers) && Logged(cache, logs)
    ensures Logged(Reconciled(cache, peers), Relogged(cache, logs, peers))
  {
    hide Reconciled, Follows, CacheInv, HostKey, Eligibility;
    ReconciledInStep(cache, peers);
    var (after, kept) := (Reconciled(cache, peers), Relogged(cache, logs, peers));
    forall host | host in after ensures Follows(after[host], LogOf(kept, host)) {
      var p :| p in peers && HostKey(p.host) == host;
      var entry := EntryOf(cache, host);
      assert after[host] == Refreshed(entry, p);
      if Resets(entry, p) {
        ResetFollows(entry, p);
      } else {
        assert forall q <- peers :: HostKey(q.host) == host ==> q == p by { SamePeer(peers, p); }
        NewResets(p);
      }
    }
  }

  lemma ResetFollows(entry: Cached, p: Peer)
    requires Resets(entry, p)
    ensures Follows(Refreshed(entry, p), [])
  {
    NothingFiled(Refreshed(entry, p));
  }

  lemma SamePeer(peers: seq<Peer>, p: Peer)
    requires DistinctHosts(peers) && p in peers
    ensures forall q <- peers :: HostKey(q.host) == HostKey(p.host) ==> q == p
  {
    hide HostKey;
    forall q | q in peers && HostKey(q.host) == HostKey(p.host) ensures q == p { HostKeyInjective(q.host, p.host); }
  }

  /** A measured rate on show rests on an earlier answer since the last reset, at least half a second before the
      latest, with the key seen in every answer between, and is the exact difference of its counters. */
  lemma ShownRateEvidence(entry: Cached, log: seq<Observation>, i: nat) returns (w: nat)
    requires Follows(entry, log) && i < |entry.value.routes| && entry.value.routes[i].rates.status == MEASURED
    ensures log != []
    ensures var (r, k) := (entry.value.routes[i], |log| - 1);
            var seen := Project(log, KeyOf(entry.value, r));
            && w < k && log[k].now - log[w].now >= WINDOW && RateLaws.Unbroken(seen, w, k - 1)
            && (forall n :: 0 <= n < 9 ==> r.rates.delta[n] == RateLaws.Gain(r.counters, seen[w].counters.value, n))
            && r.rates.intervalSeconds == Seconds(log[k].now - log[w].now)
            && r.rates.sendHz * r.rates.intervalSeconds == r.rates.delta[0] as real
            && r.rates.receiveHz * r.rates.intervalSeconds == r.rates.delta[1] as real
            && r.rates.publishHz * r.rates.intervalSeconds == r.rates.delta[2] as real
            && r.rates.skippedPerSecond * r.rates.intervalSeconds == r.rates.delta[8] as real
  {
    hide Measure, SampleOf, After, RateLaws.Shown;
    var (r, k) := (entry.value.routes[i], |log| - 1);
    var (earlier, last) := (log[..k], log[k]);
    var key := KeyOf(entry.value, r);
    assert key == KeyOf(last.snapshot, last.snapshot.routes[i]);
    var obs := Project(earlier, key) + [Sample(last.now, Some(r.counters))];
    assert RateLaws.Shown(obs, k) == r.rates;
    w := RateLaws.MeasuredEvidence(obs, k);
    assert RateLaws.Continues(obs, k);
    assert Project(log, key)[..k] == obs[..k];
    SameStretch(obs, Project(log, key), w, k - 1);
  }

  lemma SameStretch(a: seq<Sample>, b: seq<Sample>, w: nat, k: nat)
    requires w <= k < |a| && k < |b| && a[..k + 1] == b[..k + 1] && RateLaws.Unbroken(a, w, k)
    ensures RateLaws.Unbroken(b, w, k)
  {
    assert forall i :: 0 <= i <= k ==> a[i] == a[..k + 1][i] && b[i] == b[..k + 1][i];
    forall i | w < i <= k ensures RateLaws.Continues(b, i) { assert RateLaws.Continues(a, i); }
  }

  /** The endpoints of ready peers by kind and name, each with its peer's and its own position. */
  method IndexEndpoints(peers: seq<Peer>) returns (index: map<EndpointMeta, seq<(nat, nat)>>)
    ensures forall i, j :: 0 <= i < |peers| && peers[i].metadataReady && 0 <= j < |peers[i].endpoints| ==>
              peers[i].endpoints[j] in index && (i, j) in index[peers[i].endpoints[j]]
    ensures forall e <- index :: forall c <- index[e] ::
              c.0 < |peers| && peers[c.0].metadataReady && c.1 < |peers[c.0].endpoints|
                  && peers[c.0].endpoints[c.1] == e
  {
    index := map[];
    for a := 0 to |peers|
      invariant forall i, j :: 0 <= i < a && peers[i].metadataReady && 0 <= j < |peers[i].endpoints| ==>
                  peers[i].endpoints[j] in index && (i, j) in index[peers[i].endpoints[j]]
      invariant forall e <- index :: forall c <- index[e] ::
                  c.0 < |peers| && peers[c.0].metadataReady && c.1 < |peers[c.0].endpoints|
                      && peers[c.0].endpoints[c.1] == e
    {
      if peers[a].metadataReady {
        for b := 0 to |peers[a].endpoints|
          invariant forall i, j ::
                      0 <= i <= a && peers[i].metadataReady && 0 <= j < (if i < a then |peers[i].endpoints| else b) ==>
                      peers[i].endpoints[j] in index && (i, j) in index[peers[i].endpoints[j]]
          invariant forall e <- index :: forall c <- index[e] ::
                      c.0 < |peers| && peers[c.0].metadataReady && c.1 < |peers[c.0].endpoints|
                          && peers[c.0].endpoints[c.1] == e
        {
          var e := peers[a].endpoints[b];
          index := index[e := (if e in index then index[e] else []) + [(a, b)]];
        }
      }
    }
  }

  /** The first peer of that host, or the number of peers. */
  method FindHost(peers: seq<Peer>, host: HostId) returns (i: nat)
    ensures i <= |peers| && (i < |peers| ==> peers[i].host == host)
    ensures forall p <- peers :: p.host == host ==> i < |peers|
  {
    i := 0;
    while i < |peers| && peers[i].host != host
      invariant i <= |peers| && forall k :: 0 <= k < i ==> peers[k].host != host
    {
      i := i + 1;
    }
  }

  class Observer {
    var cache: map<string, Cached>
    var cursor: string
    ghost var logs: Logs

    /** Every entry is sound, and is what the answers since its last reset make of it. */
    ghost predicate Valid()
      reads this
    {
      CacheInv(cache) && Logged(cache, logs)
    }

    constructor ()
      ensures Valid() && cache == map[] && cursor == "" && logs == map[]
    {
      cache, cursor, logs := map[], "", map[];
    }

    /** Drops hosts that are gone, then refreshes or resets the entry of each peer in turn. */
    method Reconcile(peers: seq<Peer>)
      requires Valid() && DistinctHosts(peers)
      modifies this`cache, this`logs
      ensures Valid() && InStep(cache, peers) && DueTimesKept(old(cache), None, cache)
      ensures cache == Reconciled(old(cache), peers) && logs == Relogged(old(cache), old(logs), peers)
    {
      ReconciledInStep(cache, peers);
      NextsKept(cache, peers);
      ReloggedFollows(cache, logs, peers);
      logs := Relogged(cache, logs, peers);
      Refresh(peers);
    }

    method Refresh(peers: seq<Peer>)
      modifies this`cache
      ensures cache == Reconciled(old(cache), peers)
    {
      cache := map k | k in cache && k in HostKeys(peers) :: cache[k];
      ghost var kept := cache;
      for i := 0 to |peers|
        invariant cache == RefreshAll(kept, peers[..i])
      {
        assert peers[..i + 1][..i] == peers[..i];
        var key := HostKey(peers[i].host);
        var entry := EntryOf(cache, key);
        var v := entry.value;
        var state := Eligibility(peers[i]);
        if v.gatewayBoot != HostKey(peers[i].boot) || v.gatewaySession != peers[i].session || state != PENDING ||
           v.status == LOST || v.status == INCOMPATIBLE || v.status == UNSUPPORTED {
          entry := NEW_ENTRY.(value := Blank(key, HostKey(peers[i].boot), peers[i].session, state));
        }
        cache := cache[key := entry];
      }
      assert peers[..|peers|] == peers;
    }

    /** One tick. peers and later are the discovery lists before and after the query, now the clock reading at
        selection and at the later ones. Afterwards the cache is in step with the peers it is published with:
        reconciled once if nobody was asked, and otherwise reconciled twice with the answer handled; and the answers
        behind each entry are those filed since its last reset. */
    method Tick(peers: seq<Peer>, now: int, failing: bool, query: Query, later: seq<Peer>, at: Readings)
      returns (selected: Option<string>, published: seq<Peer>)
      requires Valid() && DistinctHosts(peers) && DistinctHosts(later) && AnswersForItself(query)
      modifies this
      ensures Valid() && InStep(cache, published)
      ensures published == if selected.Some? then later else peers
      ensures selected.None? <==> failing || DueHosts(Reconciled(old(cache), peers), peers, now) == {}
      ensures TickStep(State(old(cache), old(cursor)), peers, now, selected, State(cache, cursor))
      ensures selected.None? ==>
                cache == Reconciled(old(cache), peers) && logs == Relogged(old(cache), old(logs), peers)
      ensures selected.Some? ==>
                exists target <- peers ::
                  && HostKey(target.host) == selected.value
                  && AnswerHandled(Reconciled(old(cache), peers), target, later, query(target), at, cache)
                  && logs == LogsAfter(Reconciled(old(cache), peers), Relogged(old(cache), old(logs), peers), target,
                                       later, query(target), at)
    {
      hide Reconciled, Relogged, InStep, CacheInv, Logged, AnswerOf, Files, Eligibility, DueHosts, IsNext, HostKey,
           AnswerValue;
      Reconcile(peers);
      var choice := Select(cache, peers, cursor, now);
      if choice.None? || failing { return None, peers; }
      var target := choice.value;
      cursor := HostKey(target.host);
      var answer := query(target);
      ghost var (before, had) := (cache, logs);
      Reconcile(later);
      ghost var between := cache;
      assert DueTimesKept(between, Some(cursor), cache);
      var i := FindHost(later, target.host);
      OnlyPeer(later, i, target);
      if i < |later| && later[i].boot == target.boot && later[i].session == target.session
         && Eligibility(later[i]) == PENDING {
        Record(target, answer, at, later, i);
      }
      DueTimesChain(before, between, Some(cursor), cache);
      assert AnswerHandled(before, target, later, answer, at, cache);
      assert logs == LogsAfter(before, had, target, later, answer, at);
      return Some(cursor), later;
    }

    /** Files the answer of a generation that is still current, and when its host is next due. */
    method Record(target: Peer, answer: Result<RawDiagnostics>, at: Readings, ghost peers: seq<Peer>, ghost i: nat)
      requires Valid() && InStep(cache, peers) && DistinctHosts(peers) && i < |peers|
      requires Eligibility(peers[i]) == PENDING
      requires peers[i].host == target.host && peers[i].boot == target.boot && peers[i].session == target.session
      requires answer.Ok? ==> AnswerOf(answer.value, target)
      requires cursor == HostKey(target.host)
      modifies this`cache, this`logs
      ensures Valid() && InStep(cache, peers)
      ensures DueTimesKept(old(cache), Some(cursor), cache)
      ensures Files(old(cache), target, answer, at, cache)
      ensures logs ==
              old(logs)[cursor := LogOf(old(logs), cursor) +
                                  [Observation(AnswerValue(target, answer, at.wall), at.observed)]]
    {
      hide Logged, ObservedInto, CacheInv, InStep, DueTimesKept, AnswerOf, Files, Eligibility, HostKey, Converted;
      InCache(cache, peers, i);
      var value := Blank(cursor, HostKey(target.boot), target.session, PENDING);
      match answer {
        case Err(code) => value := value.(status := if code == ETIMEDOUT then TIMEOUT else ERROR, error := code);
        case Ok(raw) => value := ConvertDiagnostics(raw, at.wall);
      }
      var out, rates := ObserveSnapshot(cache[cursor].rates, value, at.observed);
      var entry := Cached(out, at.filed + SECOND, rates);
      FiledKeeps(cache, logs, peers, i, target, answer, at, entry);
      logs := logs[cursor := LogOf(logs, cursor) + [Observation(value, at.observed)]];
      cache := cache[cursor := entry];
    }
  }

  lemma InCache(cache: map<string, Cached>, peers: seq<Peer>, i: nat)
    requires InStep(cache, peers) && i < |peers|
    ensures HostKey(peers[i].host) in cache
  {
    hide HostKey;
    assert peers[i] in peers;
  }

  /** Filing the observed answer of a listed peer keeps everything that holds of the cache. */
  lemma FiledKeeps(cache: map<string, Cached>, logs: Logs, peers: seq<Peer>, i: nat, target: Peer,
                   answer: Result<RawDiagnostics>, at: Readings, entry: Cached)
    requires CacheInv(cache) && Logged(cache, logs) && InStep(cache, peers) && DistinctHosts(peers) && i < |peers|
    requires Eligibility(peers[i]) == PENDING && (answer.Ok? ==> AnswerOf(answer.value, target))
    requires peers[i].host == target.host && peers[i].boot == target.boot && peers[i].session == target.session
    requires HostKey(target.host) in cache && entry.next == at.filed + SECOND
    requires ObservedInto(cache[HostKey(target.host)].rates, AnswerValue(target, answer, at.wall), at.observed,
                          entry.value, entry.rates)
    ensures var (host, v) := (HostKey(target.host), AnswerValue(target, answer, at.wall));
            var after := cache[host := entry];
            && CacheInv(after) && InStep(after, peers) && DueTimesKept(cache, Some(host), after)
            && Logged(after, logs[host := LogOf(logs, host) + [Observation(v, at.observed)]])
            && Files(cache, target, answer, at, after)
  {
    hide ObservedInto, CacheInv, InStep, AnswerOf, AnswerValue, Follows, Eligibility, HostKey, RoutesConverted,
         OfGeneration;
    var (host, v) := (HostKey(target.host), AnswerValue(target, answer, at.wall));
    AnswerIsOf(target, answer, at.wall);
    ObservedOf(cache[host].rates, v, at.observed, entry.value, entry.rates);
    RecordedInStep(cache, peers, i, entry);
    FiledFollows(cache[host], LogOf(logs, host), v, at.observed, entry);
  }

  /** What is put on record is of the generation asked, in hexadecimal. */
  lemma AnswerIsOf(target: Peer, answer: Result<RawDiagnostics>, wall: nat)
    requires answer.Ok? ==> AnswerOf(answer.value, target)
    ensures var v := AnswerValue(target, answer, wall);
            && v.gatewayHost == HostKey(target.host) && v.gatewayBoot == HostKey(target.boot)
            && v.gatewaySession == target.session && Answered(v.status) && RoutesConverted(v)
  {
    if answer.Ok? { AllConverted(answer.value, wall); }
  }

  /** Observing changes rates only, and leaves histories of the snapshot's generation. */
  lemma ObservedOf(history: map<Key, History>, v: Diagnostics, now: int, out: Diagnostics, next: map<Key, History>)
    requires ObservedInto(history, v, now, out, next) && RoutesConverted(v)
    ensures out == v.(routes := out.routes) && RoutesConverted(out)
    ensures OfGeneration(next, v.gatewayHost, v.gatewayBoot, v.gatewaySession)
  {
    hide HistoriesMatch, RatesOf, IsConverted, OfGeneration;
    forall r | r in out.routes ensures IsConverted(r.source) && IsConverted(r.destination) {
      var i :| 0 <= i < |out.routes| && out.routes[i] == r;
      assert v.routes[i] in v.routes;
    }
  }

  /** What an answer that is filed shows: the framework's report, or why there is none. */
  lemma FiledMeans(before: map<string, Cached>, target: Peer, answer: Result<RawDiagnostics>, at: Readings,
                   after: map<string, Cached>)
    requires Files(before, target, answer, at, after)
    ensures Hex(target.host) in after && after[Hex(target.host)].next == at.filed + 1_000_000_000
    ensures forall host :: host != Hex(target.host) ==> Lookup(after, host) == Lookup(before, host)
    ensures var v := after[Hex(target.host)].value;
            match answer
            case Err(code) =>
              && v.status == (if code == -110 then TIMEOUT else ERROR) && v.error == code && v.routes == []
              && v.gatewayHost == Hex(target.host) && v.gatewayBoot == Hex(target.boot)
              && v.gatewaySession == target.session
            case Ok(raw) =>
              && v.status == (if raw.truncated then TRUNCATED else VALID) && v.observedAtMs == at.wall
              && |v.routes| == |raw.routes|
              && forall i :: 0 <= i < |raw.routes| ==>
                   && NamesEndpoint(v.routes[i].source, raw.routes[i].source)
                   && NamesEndpoint(v.routes[i].destination, raw.routes[i].destination)
                   && v.routes[i].routeId == raw.routes[i].routeId && v.routes[i].sending == raw.routes[i].sending
                   && v.routes[i].state == raw.routes[i].state && v.routes[i].counters == raw.routes[i].counters
  {
    hide Hex, HistoriesMatch, RatesOf, ConvertIdentity;
    if answer.Ok? {
      var raw := answer.value;
      var v := after[Hex(target.host)].value;
      assert |Converted(raw, at.wall).routes| == |raw.routes|;
      forall i | 0 <= i < |raw.routes|
        ensures NamesEndpoint(v.routes[i].source, raw.routes[i].source)
        ensures NamesEndpoint(v.routes[i].destination, raw.routes[i].destination)
        ensures v.routes[i].routeId == raw.routes[i].routeId && v.routes[i].sending == raw.routes[i].sending
        ensures v.routes[i].state == raw.routes[i].state && v.routes[i].counters == raw.routes[i].counters
      {
        ConvertedPlainly(raw, at.wall, i);
      }
    }
  }

  /** A filed answer outlives every reconciliation with a list that still has the generation asked, as it is, and its
      host is not due again for a second. */
  lemma AnswerRests(before: map<string, Cached>, target: Peer, answer: Result<RawDiagnostics>, at: Readings,
                    after: map<string, Cached>, peers: seq<Peer>, p: Peer, now: int)
    requires Files(before, target, answer, at, after) && (answer.Ok? ==> AnswerOf(answer.value, target))
    requires CacheInv(after) && DistinctHosts(peers) && p in peers && Askable(p)
    requires p.host == target.host && p.boot == target.boot && p.session == target.session
    ensures Hex(p.host) in after && Hex(p.host) in Reconciled(after, peers)
    ensures Reconciled(after, peers)[Hex(p.host)] == after[Hex(p.host)]
    ensures now < at.filed + 1_000_000_000 ==> Hex(p.host) !in DueHosts(Reconciled(after, peers), peers, now)
  {
    hide Hex, HistoriesMatch, RatesOf, Reconciled, DueHosts, CacheInv, Converted, Eligibility;
    AnswerIsOf(target, answer, at.wall);
    assert after[Hex(p.host)].value.status in {VALID, TRUNCATED, ERROR, TIMEOUT};
    ReconciledExactly(after, peers, p);
    DueExactly(Reconciled(after, peers), peers, now, Hex(p.host));
  }

  /** With distinct hosts, the peer found under the target's host is the one that decides whether it is still
      current. */
  lemma OnlyPeer(peers: seq<Peer>, i: nat, target: Peer)
    requires DistinctHosts(peers) && i <= |peers| && (i < |peers| ==> peers[i].host == target.host)
    requires forall p <- peers :: p.host == target.host ==> i < |peers|
    ensures StillCurrent(peers, target) <==>
            i < |peers| && peers[i].boot == target.boot && peers[i].session == target.session
                && Eligibility(peers[i]) == PENDING
  {
    hide Eligibility;
    if i < |peers| { assert peers[i] in peers; }
    if StillCurrent(peers, target) {
      var p :| p in peers && p.host == target.host && p.boot == target.boot && p.session == target.session
          && Eligibility(p) == PENDING;
      var k :| 0 <= k < |peers| && peers[k] == p;
      assert k == i;
    }
  }

  /** Reconciling never moves a host's due time, except back to the epoch. */
  lemma NextsKept(cache: map<string, Cached>, peers: seq<Peer>)
    requires CacheInv(cache) && DistinctHosts(peers)
    ensures DueTimesKept(cache, None, Reconciled(cache, peers))
  {
    ReconciledInStep(cache, peers);
    var after := Reconciled(cache, peers);
    forall host | host in after ensures after[host].next == 0 || after[host].next == EntryOf(cache, host).next {
      assert host in HostKeys(peers);
      var p :| p in peers && HostKey(p.host) == host;
    }
  }

  lemma DueTimesChain(a: map<string, Cached>, b: map<string, Cached>, selected: Option<string>, c: map<string, Cached>)
    requires DueTimesKept(a, None, b) && DueTimesKept(b, selected, c)
    ensures DueTimesKept(a, selected, c)
  {
  }

  /** Recording an answer for the generation that is still there keeps the cache in step. */
  lemma RecordedInStep(cache: map<string, Cached>, peers: seq<Peer>, i: nat, entry: Cached)
    requires CacheInv(cache) && InStep(cache, peers) && DistinctHosts(peers) && i < |peers|
    requires Eligibility(peers[i]) == PENDING
    requires entry.value.gatewayHost == HostKey(peers[i].host) && entry.value.gatewayBoot == HostKey(peers[i].boot)
    requires entry.value.gatewaySession == peers[i].session && Answered(entry.value.status)
    requires OfGeneration(entry.rates, HostKey(peers[i].host), HostKey(peers[i].boot), peers[i].session)
    requires RoutesConverted(entry.value)
    ensures var after := cache[HostKey(peers[i].host) := entry];
            CacheInv(after) && InStep(after, peers)
  {
    var after := cache[HostKey(peers[i].host) := entry];
    assert peers[i] in peers;
    forall p | p in peers ensures Sound(HostKey(p.host), after[HostKey(p.host)]) && Current(after[HostKey(p.host)], p) {
      if HostKey(p.host) == HostKey(peers[i].host) {
        HexInjective(p.host, peers[i].host);
        assert p == peers[i];
      }
    }
  }

  // ---- Rotation ----

  /** Going up from c and round to h, x comes strictly before h. */
  predicate Ahead(c: string, x: string, h: string) {
    if Less(c, h) then Less(c, x) && Less(x, h) else Less(c, x) || Less(x, h)
  }

  /** As long as h is due, the choice lies on the way from the cursor to h. */
  lemma NextAhead(due: set<string>, c: string, s: string, h: string)
    requires h in due && IsNext(due, c, s) && s != h
    ensures Ahead(c, s, h)
  {
    LessTotal(s, h);
    if Less(c, h) {
      assert AtMost(s, h);
    } else if !exists k <- due :: Less(c, k) {
      assert AtMost(s, h);
    }
  }

  lemma AheadTransitive(c: string, s: string, x: string, h: string)
    requires Ahead(c, s, h) && Ahead(s, x, h)
    ensures Ahead(c, x, h)
  {
    if Less(c, s) && Less(s, x) { LessTransitive(c, s, x); }
    if Less(s, x) && Less(x, h) { LessTransitive(s, x, h); }
    if !Less(c, h) && Less(c, s) && Less(s, h) { LessTransitive(c, s, h); }
  }

  lemma NotAheadOfSelf(s: string, h: string)
    requires s != h
    ensures !Ahead(s, s, h)
  {
    LessIrreflexive(s);
  }

  // ---- Runs ----

  datatype Turn = Turn(before: State, peers: seq<Peer>, now: int, selected: Option<string>, after: State)

  /** Consecutive ticks with any peers at any nondecreasing times. */
  ghost predicate IsRun(run: seq<Turn>) {
    && (forall k :: 0 <= k < |run| ==>
          && TickStep(run[k].before, run[k].peers, run[k].now, run[k].selected, run[k].after)
          && CacheInv(run[k].before.cache) && DistinctHosts(run[k].peers) && run[k].now >= 0)
    && (forall k :: 0 < k < |run| ==> run[k].before == run[k - 1].after && run[k - 1].now <= run[k].now)
  }

  ghost function DueAt(turn: Turn): set<string> {
    DueHosts(Reconciled(turn.before.cache, turn.peers), turn.peers, turn.now)
  }

  predicate EligibleAt(turn: Turn, h: string) {
    exists p <- turn.peers :: HostKey(p.host) == h && Eligibility(p) == PENDING
  }

  predicate Selects(turn: Turn, h: string) { turn.selected == Some(h) }

  /** From a to b the host is an eligible peer, and it is not selected before b. */
  ghost predicate Waiting(run: seq<Turn>, h: string, a: nat, b: nat) {
    && IsRun(run) && a <= b < |run|
    && (forall k :: a <= k <= b ==> EligibleAt(run[k], h))
    && (forall k :: a <= k < b ==> !Selects(run[k], h))
    && h in DueAt(run[a])
  }

  /** A due host that is passed over stays due. */
  lemma {:induction false} StaysDue(run: seq<Turn>, h: string, a: nat, b: nat)
    requires Waiting(run, h, a, b)
    ensures h in DueAt(run[b])
    decreases b
  {
    hide DueAt, EligibleAt, Reconciled, TickStep, CacheInv, DistinctHosts;
    if a < b {
      StaysDue(run, h, a, b - 1);
      DueIffNext(run[b - 1], h);
      assert EligibleAt(run[b], h);
      StillDue(run[b - 1], run[b], h);
    }
  }

  lemma DueIffNext(turn: Turn, h: string)
    requires CacheInv(turn.before.cache) && DistinctHosts(turn.peers) && EligibleAt(turn, h)
    ensures h in DueAt(turn) <==> EntryOf(Reconciled(turn.before.cache, turn.peers), h).next <= turn.now
  {
    var p :| p in turn.peers && HostKey(p.host) == h && Eligibility(p) == PENDING;
  }

  lemma StillDue(prev: Turn, turn: Turn, h: string)
    requires TickStep(prev.before, prev.peers, prev.now, prev.selected, prev.after) && !Selects(prev, h)
    requires CacheInv(turn.before.cache) && DistinctHosts(turn.peers) && EligibleAt(turn, h)
    requires turn.before == prev.after && 0 <= prev.now <= turn.now
    requires EntryOf(Reconciled(prev.before.cache, prev.peers), h).next <= prev.now
    ensures h in DueAt(turn)
  {
    DueIffNext(turn, h);
    NextsKept(turn.before.cache, turn.peers);
    assert EntryOf(turn.before.cache, h).next <= turn.now;
  }

  // ---- Fairness ----

  /** What a tick means for the rotation. */
  datatype Pick = Pick(cursor: string, due: set<string>, selected: Option<string>, after: string)

  ghost predicate PassesOver(pick: Pick, h: string) {
    && h in pick.due && pick.selected != Some(h)
    && match pick.selected
       case None => pick.after == pick.cursor
       case Some(s) => pick.after == s && IsNext(pick.due, pick.cursor, s)
  }

  /** Consecutive picks that all pass over h. */
  ghost predicate Rotation(picks: seq<Pick>, h: string) {
    && (forall k :: 0 <= k < |picks| ==> PassesOver(picks[k], h))
    && (forall k :: 0 < k < |picks| ==> picks[k].cursor == picks[k - 1].after)
  }

  /** The choices keep moving towards h from every earlier cursor on. */
  lemma {:induction false} ChoicesAhead(picks: seq<Pick>, h: string, i: nat, j: nat)
    requires Rotation(picks, h) && i <= j < |picks| && picks[j].selected.Some?
    ensures Ahead(picks[i].cursor, picks[j].selected.value, h)
    decreases j - i
  {
    assert PassesOver(picks[i], h);
    if picks[i].selected.Some? {
      NextAhead(picks[i].due, picks[i].cursor, picks[i].selected.value, h);
    }
    if i < j {
      ChoicesAhead(picks, h, i + 1, j);
      if picks[i].selected.Some? {
        AheadTransitive(picks[i].cursor, picks[i].selected.value, picks[j].selected.value, h);
      }
    }
  }

  lemma NotPickedTwice(picks: seq<Pick>, h: string, i: nat, j: nat)
    requires Rotation(picks, h) && i < j < |picks| && picks[i].selected.Some? && picks[j].selected.Some?
    ensures picks[i].selected != picks[j].selected
  {
    assert PassesOver(picks[i], h);
    ChoicesAhead(picks, h, i + 1, j);
    NotAheadOfSelf(picks[i].selected.value, h);
  }

  /** The hosts picked, in order. */
  function Chosen(picks: seq<Pick>): (hosts: seq<string>)
    ensures forall s <- hosts :: exists k :: 0 <= k < |picks| && picks[k].selected == Some(s)
  {
    if picks == [] then [] else
      var last := |picks| - 1;
      assert forall k :: 0 <= k < last ==> picks[..last][k] == picks[k];
      Chosen(picks[..last]) + match picks[last].selected { case None => [] case Some(s) => [s] }
  }

  lemma {:induction false} ChosenDistinct(picks: seq<Pick>, h: string)
    requires Rotation(picks, h)
    ensures forall i, j :: 0 <= i < j < |Chosen(picks)| ==> Chosen(picks)[i] != Chosen(picks)[j]
    ensures forall s <- Chosen(picks) :: s != h && exists k :: 0 <= k < |picks| && s in picks[k].due
  {
    if picks != [] {
      var last := |picks| - 1;
      var init := picks[..last];
      assert Rotation(init, h);
      ChosenDistinct(init, h);
      forall s | s in Chosen(init) ensures picks[last].selected != Some(s) {
        var k :| 0 <= k < |init| && init[k].selected == Some(s);
        if picks[last].selected.Some? { NotPickedTwice(picks, h, k, last); }
      }
      forall s | s in Chosen(picks) ensures s != h && exists k :: 0 <= k < |picks| && s in picks[k].due {
        var k :| 0 <= k < |picks| && picks[k].selected == Some(s);
        assert PassesOver(picks[k], h);
      }
    }
  }

  lemma {:induction false} DistinctFit(xs: seq<string>, all: set<string>)
    requires forall x <- xs :: x in all
    requires forall i, j :: 0 <= i < j < |xs| ==> xs[i] != xs[j]
    ensures |xs| <= |all|
  {
    if xs != [] {
      DistinctFit(xs[1..], all - {xs[0]});
    }
  }

  ghost function PickOf(turn: Turn): Pick {
    Pick(turn.before.cursor, DueAt(turn), turn.selected, turn.after.cursor)
  }

  ghost function Picks(run: seq<Turn>, a: nat, b: nat): (picks: seq<Pick>)
    requires a <= b < |run|
    ensures |picks| == b - a + 1
    ensures forall k :: 0 <= k < |picks| ==> picks[k] == PickOf(run[a + k])
  {
    seq(b - a + 1, k requires 0 <= k <= b - a => PickOf(run[a + k]))
  }

  lemma TurnPassesOver(turn: Turn, h: string)
    requires TickStep(turn.before, turn.peers, turn.now, turn.selected, turn.after)
    requires h in DueAt(turn) && !Selects(turn, h)
    ensures PassesOver(PickOf(turn), h)
  {
  }

  lemma WaitingTurn(run: seq<Turn>, h: string, a: nat, b: nat, i: nat)
    requires Waiting(run, h, a, b) && !Selects(run[b], h) && a <= i <= b
    ensures TickStep(run[i].before, run[i].peers, run[i].now, run[i].selected, run[i].after)
    ensures h in DueAt(run[i]) && !Selects(run[i], h)
  {
    hide TickStep, DueAt, EligibleAt, Selects, CacheInv, DistinctHosts;
    assert Waiting(run, h, a, i);
    StaysDue(run, h, a, i);
  }

  lemma PicksRotate(run: seq<Turn>, h: string, a: nat, b: nat)
    requires Waiting(run, h, a, b) && !Selects(run[b], h)
    ensures Rotation(Picks(run, a, b), h)
  {
    hide TickStep, DueAt;
    var picks := Picks(run, a, b);
    forall k | 0 <= k < |picks| ensures PassesOver(picks[k], h) {
      WaitingTurn(run, h, a, b, a + k);
      TurnPassesOver(run[a + k], h);
    }
    forall k | 0 < k < |picks| ensures picks[k].cursor == picks[k - 1].after {
      assert run[a + k].before == run[a + k - 1].after;
    }
  }

  /** No host is selected twice while a due host waits, whatever hosts join or leave meanwhile. */
  lemma NoneTwice(run: seq<Turn>, h: string, a: nat, b: nat, i: nat, j: nat)
    requires Waiting(run, h, a, b) && !Selects(run[b], h) && a <= i < j <= b
    requires run[i].selected.Some? && run[j].selected.Some?
    ensures run[i].selected != run[j].selected
  {
    hide TickStep, DueAt, IsRun;
    PicksRotate(run, h, a, b);
    var picks := Picks(run, a, b);
    var p, q := i - a, j - a;
    assert picks[p] == PickOf(run[a + p]) && picks[q] == PickOf(run[a + q]);
    NotPickedTwice(picks, h, p, q);
  }

  /** With hosts drawn from a fixed set, a due host that stays eligible is selected within as many selections as the
      set has members: while it waits there are fewer. */
  lemma SelectedWithin(run: seq<Turn>, h: string, a: nat, b: nat, hosts: set<string>)
    requires Waiting(run, h, a, b) && !Selects(run[b], h)
    requires forall k :: a <= k <= b ==> HostKeys(run[k].peers) <= hosts
    ensures |Chosen(Picks(run, a, b))| < |hosts|
  {
    hide TickStep, DueAt;
    var picks := Picks(run, a, b);
    PicksRotate(run, h, a, b);
    ChosenDistinct(picks, h);
    forall s | s in Chosen(picks) ensures s in hosts - {h} {
      var k :| 0 <= k < |picks| && s in picks[k].due;
      DueAreHosts(run[a + k]);
    }
    DistinctFit(Chosen(picks), hosts - {h});
    DueAreHosts(run[a]);
  }

  lemma DueAreHosts(turn: Turn)
    ensures DueAt(turn) <= HostKeys(turn.peers)
  {
  }
}
