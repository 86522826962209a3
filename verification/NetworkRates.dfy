/** Per-route rates: a window of counters opens at one observation and is emitted once half a second has passed. */
module NetworkRates {
  import opened Results
  import Numerals

  const SECOND := 1_000_000_000
  const WINDOW := 500_000_000

  datatype RouteEndpoint = RouteEndpoint(hostId: string, bootId: string, pid: Numerals.Int32,
                                         startTicks: Numerals.Uint64, registrationId: Numerals.Uint64)

  datatype DiagnosticsState =
    UNAVAILABLE | UNSUPPORTED | INCOMPATIBLE | PENDING | VALID | TRUNCATED | LOST | ERROR | TIMEOUT

  datatype RateState = INVALID | MEASURING | MEASURED

  /** packets sent and received, samples published, dropped, duplicate, out of order, missed, malformed, skipped. */
  type Counters = c: seq<Numerals.Uint64> | |c| == 9 witness [0, 0, 0, 0, 0, 0, 0, 0, 0]

  const ZERO: Counters := [0, 0, 0, 0, 0, 0, 0, 0, 0]

  datatype Rates = Rates(status: RateState, intervalSeconds: real, delta: Counters, sendHz: real, receiveHz: real,
                         publishHz: real, skippedPerSecond: real)

  const NO_RATES := Rates(INVALID, 0.0, ZERO, 0.0, 0.0, 0.0, 0.0)

  datatype Route = Route(source: RouteEndpoint, destination: RouteEndpoint, sourceSession: Numerals.Uint64,
                         destinationSession: Numerals.Uint64, routeId: Numerals.Uint64, sending: bool, state: nat,
                         counters: Counters, rates: Rates)

  datatype Diagnostics = Diagnostics(status: DiagnosticsState, gatewayHost: string, gatewayBoot: string,
                                     gatewaySession: Numerals.Uint64, observedAtMs: nat, error: int, routes: seq<Route>)

  const ACTIVE := 1

  datatype Key = Key(gatewayHost: string, gatewayBoot: string, gatewaySession: Numerals.Uint64, source: RouteEndpoint,
                     destination: RouteEndpoint, sourceSession: Numerals.Uint64, destinationSession: Numerals.Uint64,
                     routeId: Numerals.Uint64, sending: bool)

  /** Times are nanoseconds of a steady clock. */
  datatype History = History(baseline: Counters, latest: Counters, start: int, last: int)

  function KeyOf(s: Diagnostics, r: Route): Key {
    Key(s.gatewayHost, s.gatewayBoot, s.gatewaySession, r.source, r.destination, r.sourceSession, r.destinationSession,
        r.routeId, r.sending)
  }

  predicate Success(s: Diagnostics) { s.status == VALID || s.status == TRUNCATED }

  // ---- One key ----

  predicate AtLeast(c: Counters, d: Counters) { forall i :: 0 <= i < 9 ==> c[i] >= d[i] }

  predicate Comparable(prior: Option<History>, c: Counters, now: int) {
    prior.Some? && now > prior.value.last && AtLeast(c, prior.value.latest)
  }

  /** Counter differences in 64-bit unsigned arithmetic. */
  function Delta(c: Counters, baseline: Counters): Counters {
    seq(9, i requires 0 <= i < 9 => (c[i] - baseline[i]) % Numerals.TWO_64)
  }

  function Seconds(ns: int): real { ns as real / SECOND as real }

  /** The history that follows one active observation, and the rates it shows. */
  function Measure(prior: Option<History>, c: Counters, now: int): (History, Rates) {
    if !Comparable(prior, c, now) then (History(c, c, now, now), NO_RATES.(status := MEASURING))
    else
      var h := prior.value.(latest := c, last := now);
      var ns := now - h.start;
      if ns < WINDOW then (h, NO_RATES.(status := MEASURING, intervalSeconds := Seconds(ns)))
      else
        var delta := Delta(c, h.baseline);
        var t := Seconds(ns);
        (History(c, c, now, now),
         Rates(MEASURED, t, delta, delta[0] as real / t, delta[1] as real / t, delta[2] as real / t,
               delta[8] as real / t))
  }

  /** Without an observation of the key there is no history: continuity is broken. */
  function Step(prior: Option<History>, sample: Option<Counters>, now: int): Option<History> {
    match sample
    case None => None
    case Some(c) => Some(Measure(prior, c, now).0)
  }

  // ---- One snapshot ----

  predicate Observed(s: Diagnostics, r: Route) { Success(s) && r.state == ACTIVE }

  /** The counters a snapshot reports for a key: those of its first active route with that key. */
  function SampleOf(s: Diagnostics, routes: seq<Route>, key: Key): Option<Counters> {
    if routes == [] then None
    else
      match SampleOf(s, routes[..|routes| - 1], key)
      case Some(c) => Some(c)
      case None =>
        var r := routes[|routes| - 1];
        if Observed(s, r) && KeyOf(s, r) == key then Some(r.counters) else None
  }

  function RatesOf(history: map<Key, History>, s: Diagnostics, r: Route, now: int): Rates {
    if Observed(s, r) then Measure(Lookup(history, KeyOf(s, r)), r.counters, now).1 else NO_RATES
  }

  datatype Observation = Observation(snapshot: Diagnostics, now: int)

  /** The samples of one key in a log of observations. */
  function Project(log: seq<Observation>, key: Key): (obs: seq<Sample>)
    ensures |obs| == |log|
  {
    seq(|log|, k requires 0 <= k < |log| => Sample(log[k].now, SampleOf(log[k].snapshot, log[k].snapshot.routes, key)))
  }

  datatype Sample = Sample(now: int, counters: Option<Counters>)

  /** The history of a key after its samples. */
  function After(obs: seq<Sample>): Option<History> {
    if obs == [] then None else Step(After(obs[..|obs| - 1]), obs[|obs| - 1].counters, obs[|obs| - 1].now)
  }

  /** Every history belongs to the gateway generation of the snapshot it was built from. */
  predicate OfGeneration(history: map<Key, History>, host: string, boot: string, session: Numerals.Uint64) {
    forall key <- history :: key.gatewayHost == host && key.gatewayBoot == boot && key.gatewaySession == session
  }

  ghost predicate HistoriesMatch(history: map<Key, History>, s: Diagnostics, routes: seq<Route>, now: int,
                                 next: map<Key, History>)
  {
    forall key :: Lookup(next, key) == Step(Lookup(history, key), SampleOf(s, routes, key), now)
  }

  /** What observing a snapshot leaves: each route's rates, and a history per key with an active first route. */
  ghost predicate ObservedInto(history: map<Key, History>, snapshot: Diagnostics, now: int, out: Diagnostics,
                               next: map<Key, History>)
  {
    && out == snapshot.(routes := out.routes) && |out.routes| == |snapshot.routes|
    && (forall i :: 0 <= i < |out.routes| ==>
          out.routes[i] == snapshot.routes[i].(rates := RatesOf(history, snapshot, snapshot.routes[i], now)))
    && HistoriesMatch(history, snapshot, snapshot.routes, now, next)
    && OfGeneration(next, snapshot.gatewayHost, snapshot.gatewayBoot, snapshot.gatewaySession)
  }

  /** The first active route with a key decides its history. */
  lemma RouteCounted(history: map<Key, History>, s: Diagnostics, i: nat, now: int, next: map<Key, History>)
    requires i < |s.routes| && HistoriesMatch(history, s, s.routes[..i], now, next)
    ensures var (r, key) := (s.routes[i], KeyOf(s, s.routes[i]));
            HistoriesMatch(history, s, s.routes[..i + 1], now,
                           if Observed(s, r) && key !in next
                           then next[key := Measure(Lookup(history, key), r.counters, now).0]
                           else next)
  {
    hide Measure, KeyOf;
    assert s.routes[..i + 1][..i] == s.routes[..i];
  }

  /** One pass over the routes: missing, failed and inactive routes leave no history behind. */
  method ObserveSnapshot(history: map<Key, History>, snapshot: Diagnostics, now: int)
    returns (out: Diagnostics, next: map<Key, History>)
    ensures ObservedInto(history, snapshot, now, out, next)
  {
    hide Measure, HistoriesMatch, SampleOf;
    out, next := snapshot, map[];
    NothingCounted(history, snapshot, now, next);
    assert snapshot.routes[..0] == [];
    var success := snapshot.status == VALID || snapshot.status == TRUNCATED;
    for i := 0 to |snapshot.routes|
      invariant out == snapshot.(routes := out.routes) && |out.routes| == |snapshot.routes|
      invariant forall k :: 0 <= k < i ==>
                  out.routes[k] == snapshot.routes[k].(rates := RatesOf(history, snapshot, snapshot.routes[k], now))
      invariant forall k :: i <= k < |snapshot.routes| ==> out.routes[k] == snapshot.routes[k]
      invariant HistoriesMatch(history, snapshot, snapshot.routes[..i], now, next)
      invariant OfGeneration(next, snapshot.gatewayHost, snapshot.gatewayBoot, snapshot.gatewaySession)
    {
      RouteCounted(history, snapshot, i, now, next);
      var route := snapshot.routes[i];
      if !success || route.state != ACTIVE {
        out := out.(routes := out.routes[i := route.(rates := NO_RATES)]);
      } else {
        var key := KeyOf(snapshot, route);
        var (h, rates) := Measure(Lookup(history, key), route.counters, now);
        out := out.(routes := out.routes[i := route.(rates := rates)]);
        if key !in next {
          next := next[key := h];
        }
      }
    }
    assert snapshot.routes[..|snapshot.routes|] == snapshot.routes;
  }

  lemma NothingCounted(history: map<Key, History>, s: Diagnostics, now: int, next: map<Key, History>)
    requires next == map[]
    ensures HistoriesMatch(history, s, [], now, next)
  {
  }

  class NetworkRateTracker {
    var history: map<Key, History>

    /** Every snapshot observed so far. */
    ghost var log: seq<Observation>

    /** Each key's history is determined by that key's own samples. */
    ghost predicate Valid()
      reads this
    {
      forall key :: Lookup(history, key) == After(Project(log, key))
    }

    constructor ()
      ensures Valid() && history == map[] && log == []
    {
      history := map[];
      log := [];
    }

    method Observe(snapshot: Diagnostics, now: int) returns (out: Diagnostics)
      requires Valid()
      modifies this
      ensures Valid() && log == old(log) + [Observation(snapshot, now)]
      ensures ObservedInto(old(history), snapshot, now, out, history)
    {
      out, history := ObserveSnapshot(history, snapshot, now);
      log := log + [Observation(snapshot, now)];
      forall key ensures Lookup(history, key) == After(Project(log, key)) {
        assert Project(log, key)[..|log| - 1] == Project(old(log), key);
      }
    }
  }
}
