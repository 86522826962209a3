/** Whole-run properties of the rate windows of one route key. */
module RateLaws {
  import Results
  import opened NetworkRates

  /** Observation k continues k - 1: both saw the key active, time advanced and no counter decreased. */
  predicate Continues(obs: seq<Sample>, k: nat) {
    && 0 < k < |obs|
    && obs[k - 1].counters.Some? && obs[k].counters.Some?
    && obs[k - 1].now < obs[k].now
    && AtLeast(obs[k].counters.value, obs[k - 1].counters.value)
  }

  /** Observations a to b, unbroken. */
  predicate Unbroken(obs: seq<Sample>, a: nat, b: nat) {
    a <= b < |obs| && obs[a].counters.Some? && obs[b].counters.Some? && forall k :: a < k <= b ==> Continues(obs, k)
  }

  /** The longest unbroken stretch that ends at b begins at a. */
  predicate Segment(obs: seq<Sample>, a: nat, b: nat) {
    Unbroken(obs, a, b) && !Continues(obs, a)
  }

  /** The rates shown at observation k. */
  function Shown(obs: seq<Sample>, k: nat): Rates
    requires k < |obs|
  {
    if obs[k].counters.Some? then Measure(After(obs[..k]), obs[k].counters.value, obs[k].now).1 else NO_RATES
  }

  /** The rates put on any route, repeated keys included, follow from the earlier samples of its key and its own
      counters; they are what the key shows when the snapshot reports the key by this route. */
  lemma RouteShowsItsKey(history: map<Key, History>, log: seq<Observation>, s: Diagnostics, r: Route, now: int)
    requires forall key :: Results.Lookup(history, key) == After(Project(log, key))
    requires Observed(s, r)
    ensures RatesOf(history, s, r, now) ==
              Shown(Project(log, KeyOf(s, r)) + [Sample(now, Results.Some(r.counters))], |log|)
    ensures SampleOf(s, s.routes, KeyOf(s, r)) == Results.Some(r.counters) ==>
              RatesOf(history, s, r, now) == Shown(Project(log + [Observation(s, now)], KeyOf(s, r)), |log|)
  {
    hide Measure;
    var key := KeyOf(s, r);
    var own := Project(log, key) + [Sample(now, Results.Some(r.counters))];
    assert own[..|log|] == Project(log, key);
    var obs := Project(log + [Observation(s, now)], key);
    assert obs[..|log|] == Project(log, key);
  }

  lemma AfterStep(obs: seq<Sample>, k: nat)
    requires k < |obs|
    ensures After(obs[..k + 1]) == Step(After(obs[..k]), obs[k].counters, obs[k].now)
  {
    assert obs[..k + 1][..k] == obs[..k];
  }

  /** The history always ends at the last observation, so comparing with it is comparing with that observation. */
  lemma LatestIsLast(obs: seq<Sample>, k: nat)
    requires k < |obs|
    ensures After(obs[..k + 1]).Some? <==> obs[k].counters.Some?
    ensures obs[k].counters.Some? ==>
              After(obs[..k + 1]).value.latest == obs[k].counters.value && After(obs[..k + 1]).value.last == obs[k].now
  {
    AfterStep(obs, k);
  }

  lemma ComparableIffContinues(obs: seq<Sample>, k: nat)
    requires k < |obs| && obs[k].counters.Some?
    ensures Comparable(After(obs[..k]), obs[k].counters.value, obs[k].now) <==> Continues(obs, k)
  {
    if k > 0 { LatestIsLast(obs, k - 1); }
  }

  lemma {:induction false} CountersGrow(obs: seq<Sample>, a: nat, b: nat)
    requires Unbroken(obs, a, b)
    ensures obs[b].counters.Some? && AtLeast(obs[b].counters.value, obs[a].counters.value)
    ensures obs[a].now <= obs[b].now && (a < b ==> obs[a].now < obs[b].now)
  {
    if a < b {
      assert Continues(obs, b);
      CountersGrow(obs, a, b - 1);
    }
  }

  /** The window open after observation b began at observation w: nothing has broken the evidence since, and less than
      half a second has passed. */
  predicate WindowFrom(obs: seq<Sample>, w: nat, b: nat) {
    && Unbroken(obs, w, b)
    && After(obs[..b + 1]) ==
       Results.Some(History(obs[w].counters.value, obs[b].counters.value, obs[w].now, obs[b].now))
    && obs[b].now - obs[w].now < WINDOW
  }

  /** Every history is a window of the run. */
  lemma {:induction false} WindowStart(obs: seq<Sample>, b: nat) returns (w: nat)
    requires b < |obs| && obs[b].counters.Some?
    ensures WindowFrom(obs, w, b)
    ensures forall a: nat :: Segment(obs, a, b) ==> a <= w
  {
    AfterStep(obs, b);
    ComparableIffContinues(obs, b);
    w := b;
    if Continues(obs, b) {
      var v := WindowStart(obs, b - 1);
      if obs[b].now - obs[v].now < WINDOW {
        w := v;
      }
      forall a: nat | Segment(obs, a, b) ensures a <= w {
        if a < b { assert Segment(obs, a, b - 1); }
      }
    }
  }

  /** In every reachable state the baseline is componentwise at most the latest counters and starts no later. */
  lemma HistoryOrdered(obs: seq<Sample>)
    ensures After(obs).Some? ==>
              AtLeast(After(obs).value.latest, After(obs).value.baseline)
                  && After(obs).value.start <= After(obs).value.last
  {
    if obs != [] && obs[|obs| - 1].counters.Some? {
      var b := |obs| - 1;
      var w := WindowStart(obs, b);
      assert obs[..b + 1] == obs;
      CountersGrow(obs, w, b);
    }
  }

  /** How much counter i gained, as an integer. */
  function Gain(c: Counters, d: Counters, i: int): int
    requires 0 <= i < 9
  {
    var (x: int, y: int) := (c[i], d[i]);
    x - y
  }

  /** A measured rate rests on an earlier observation with nothing broken in between, spans at least half a second,
      and is the exact, never underflowing difference of the counters seen at its two ends. */
  lemma MeasuredEvidence(obs: seq<Sample>, k: nat) returns (w: nat)
    requires k < |obs| && Shown(obs, k).status == MEASURED
    ensures w < k && Unbroken(obs, w, k)
    ensures obs[k].now - obs[w].now >= WINDOW
    ensures Shown(obs, k).intervalSeconds == Seconds(obs[k].now - obs[w].now) >= 0.5
    ensures forall i :: 0 <= i < 9 ==> Shown(obs, k).delta[i] == Gain(obs[k].counters.value, obs[w].counters.value, i)
    ensures Shown(obs, k).sendHz * Shown(obs, k).intervalSeconds == Shown(obs, k).delta[0] as real
    ensures Shown(obs, k).receiveHz * Shown(obs, k).intervalSeconds == Shown(obs, k).delta[1] as real
    ensures Shown(obs, k).publishHz * Shown(obs, k).intervalSeconds == Shown(obs, k).delta[2] as real
    ensures Shown(obs, k).skippedPerSecond * Shown(obs, k).intervalSeconds == Shown(obs, k).delta[8] as real
  {
    ComparableIffContinues(obs, k);
    w := WindowStart(obs, k - 1);
    CountersGrow(obs, w, k);
    var ns := obs[k].now - obs[w].now;
    assert ns as real >= 500_000_000.0;
    var t := Seconds(ns);
    assert t >= 0.5;
    forall i | 0 <= i < 9
      ensures Shown(obs, k).delta[i] == Gain(obs[k].counters.value, obs[w].counters.value, i)
    {
      assert obs[k].counters.value[i] >= obs[w].counters.value[i];
    }
    HzTimesSeconds(Shown(obs, k).delta[0], t);
    HzTimesSeconds(Shown(obs, k).delta[1], t);
    HzTimesSeconds(Shown(obs, k).delta[2], t);
    HzTimesSeconds(Shown(obs, k).delta[8], t);
  }

  lemma HzTimesSeconds(n: nat, t: real)
    requires t > 0.0
    ensures n as real / t * t == n as real
  {
  }

  /** And conversely: a run of evidence is measured as soon as the open window reaches half a second. */
  lemma MeasuredWhenDue(obs: seq<Sample>, w: nat, k: nat)
    requires 0 < k < |obs| && WindowFrom(obs, w, k - 1) && Continues(obs, k)
    ensures Shown(obs, k).status == MEASURED <==> obs[k].now - obs[w].now >= WINDOW
  {
    ComparableIffContinues(obs, k);
  }

  // ---- Conservation ----

  /** Counter i of what observation k emits. */
  function EmittedCount(obs: seq<Sample>, k: nat, i: nat): int
    requires k < |obs| && i < 9
  {
    if Shown(obs, k).status == MEASURED then Shown(obs, k).delta[i] else 0
  }

  function EmittedSeconds(obs: seq<Sample>, k: nat): real
    requires k < |obs|
  {
    if Shown(obs, k).status == MEASURED then Shown(obs, k).intervalSeconds else 0.0
  }

  /** What observations a + 1 to b emit in all. */
  function TotalCount(obs: seq<Sample>, a: nat, b: nat, i: nat): int
    requires a <= b < |obs| && i < 9
  {
    if a == b then 0 else TotalCount(obs, a, b - 1, i) + EmittedCount(obs, b, i)
  }

  function TotalSeconds(obs: seq<Sample>, a: nat, b: nat): real
    requires a <= b < |obs|
  {
    if a == b then 0.0 else TotalSeconds(obs, a, b - 1) + EmittedSeconds(obs, b)
  }

  lemma SecondsAdd(x: int, y: int)
    ensures Seconds(x) + Seconds(y) == Seconds(x + y)
  {
  }

  /** What one continuing observation does to the window: it is emitted whole and begins anew, or it grows. */
  lemma WindowStep(obs: seq<Sample>, b: nat)
    requires 0 < b < |obs| && Continues(obs, b)
    ensures After(obs[..b]).Some? && After(obs[..b + 1]).Some?
    ensures var (g, h, c, now) := (After(obs[..b]).value, After(obs[..b + 1]).value, obs[b].counters.value, obs[b].now);
            && g.latest == obs[b - 1].counters.value && g.last == obs[b - 1].now
            && if Shown(obs, b).status == MEASURED
               then h == History(c, c, now, now) && Shown(obs, b).delta == Delta(c, g.baseline)
                    && Shown(obs, b).intervalSeconds == Seconds(now - g.start)
               else h == g.(latest := c, last := now)
  {
    hide Delta, Seconds, AtLeast;
    AfterStep(obs, b);
    LatestIsLast(obs, b - 1);
    ComparableIffContinues(obs, b);
  }

  lemma DeltaIsGain(c: Counters, baseline: Counters, i: nat)
    requires AtLeast(c, baseline) && i < 9
    ensures Delta(c, baseline)[i] == Gain(c, baseline, i)
  {
  }

  lemma AtLeastTransitive(c: Counters, d: Counters, e: Counters)
    requires AtLeast(c, d) && AtLeast(d, e)
    ensures AtLeast(c, e)
  {
  }

  /** One observation moves the window's content, old and new, into what was emitted or keeps it. */
  lemma OneStep(obs: seq<Sample>, b: nat)
    requires 0 < b < |obs| && Continues(obs, b)
    ensures After(obs[..b]).Some? && After(obs[..b + 1]).Some?
    ensures var (g, h) := (After(obs[..b]).value, After(obs[..b + 1]).value);
            && (forall i :: 0 <= i < 9 ==>
                  EmittedCount(obs, b, i) + Gain(h.latest, h.baseline, i) ==
                  Gain(g.latest, g.baseline, i) + Gain(obs[b].counters.value, obs[b - 1].counters.value, i))
            && EmittedSeconds(obs, b) + Seconds(h.last - h.start) ==
               Seconds(g.last - g.start + (obs[b].now - obs[b - 1].now))
  {
    hide Shown, After, Delta, AtLeast, Seconds;
    WindowStep(obs, b);
    HistoryOrdered(obs[..b]);
    var (g, c) := (After(obs[..b]).value, obs[b].counters.value);
    AtLeastTransitive(c, g.latest, g.baseline);
    forall i | 0 <= i < 9 ensures Delta(c, g.baseline)[i] == Gain(c, g.baseline, i) { DeltaIsGain(c, g.baseline, i); }
    SecondsAdd(0, 0);
  }

  /** A segment begins with an empty window. */
  lemma SegmentStart(obs: seq<Sample>, a: nat)
    requires Segment(obs, a, a)
    ensures a < |obs| && After(obs[..a + 1]).Some?
    ensures var h := After(obs[..a + 1]).value;
            h.latest == h.baseline && h.last == h.start && Seconds(h.last - h.start) == 0.0
    ensures Seconds(obs[a].now - obs[a].now) == 0.0
  {
    AfterStep(obs, a);
    ComparableIffContinues(obs, a);
  }

  lemma SegmentShorter(obs: seq<Sample>, a: nat, b: nat)
    requires Segment(obs, a, b) && a != b
    ensures a < b < |obs| && Segment(obs, a, b - 1) && Continues(obs, b)
  {
    assert Continues(obs, b);
  }

  /** Within a segment no count is lost and none is counted twice: what was emitted plus what the open window holds is
      what each counter gained since the segment began. */
  lemma {:induction false} CountsConserved(obs: seq<Sample>, a: nat, b: nat, i: nat)
    requires Segment(obs, a, b) && i < 9
    ensures After(obs[..b + 1]).Some?
    ensures var h := After(obs[..b + 1]).value;
            TotalCount(obs, a, b, i) +
                Gain(h.latest, h.baseline, i) == Gain(obs[b].counters.value, obs[a].counters.value, i)
  {
    if a == b {
      AfterStep(obs, b);
      ComparableIffContinues(obs, b);
    } else {
      hide After, Shown;
      assert Continues(obs, b);
      CountsConserved(obs, a, b - 1, i);
      OneStep(obs, b);
    }
  }

  /** Nor is any time: the emitted intervals and the open window tile the segment. */
  lemma {:induction false} TimeConserved(obs: seq<Sample>, a: nat, b: nat)
    requires Segment(obs, a, b)
    ensures After(obs[..b + 1]).Some?
    ensures var h := After(obs[..b + 1]).value;
            TotalSeconds(obs, a, b) + Seconds(h.last - h.start) == Seconds(obs[b].now - obs[a].now)
  {
    hide After, EmittedSeconds, Seconds, Unbroken, Continues;
    if a == b {
      SegmentStart(obs, a);
    } else {
      SegmentShorter(obs, a, b);
      TimeConserved(obs, a, b - 1);
      OneStep(obs, b);
      var (g, step) := (After(obs[..b]).value, obs[b].now - obs[b - 1].now);
      SecondsAdd(g.last - g.start, step);
      SecondsAdd(obs[b - 1].now - obs[a].now, step);
      assert obs[b - 1].now - obs[a].now + step == obs[b].now - obs[a].now;
    }
  }

  // ---- Every shown rate, from the samples alone ----

  /** Where the window that is open after observation b began, reckoned from times and breaks only: anew wherever the
      evidence breaks, and half a second after it last began. */
  function WindowOf(obs: seq<Sample>, b: nat): (w: nat)
    requires b < |obs|
    ensures w <= b
  {
    if !Continues(obs, b) then b
    else
      var v := WindowOf(obs, b - 1);
      if obs[b].now - obs[v].now >= 500_000_000 then b else v
  }

  lemma {:induction false} WindowIsOpen(obs: seq<Sample>, b: nat)
    requires b < |obs| && obs[b].counters.Some?
    ensures WindowFrom(obs, WindowOf(obs, b), b)
  {
    AfterStep(obs, b);
    ComparableIffContinues(obs, b);
    if Continues(obs, b) { WindowIsOpen(obs, b - 1); }
  }

  /** A rate per second over a time of so many nanoseconds. */
  function PerSecond(n: nat, ns: nat): real
    requires ns > 0
  {
    n as real / (ns as real / 1_000_000_000.0)
  }

  /** Exactly what is shown at an observation that saw the key: nothing measured yet where the evidence begins, the
      length of a window under half a second, and otherwise the gain of every counter over the window. */
  lemma ShownExactly(obs: seq<Sample>, k: nat)
    requires k < |obs| && obs[k].counters.Some?
    ensures !Continues(obs, k) ==>
              Shown(obs, k) == Rates(MEASURING, 0.0, [0, 0, 0, 0, 0, 0, 0, 0, 0], 0.0, 0.0, 0.0, 0.0)
    ensures Continues(obs, k) ==>
              var w := WindowOf(obs, k - 1);
              var ns := obs[k].now - obs[w].now;
              var r := Shown(obs, k);
              && ns > 0 && obs[w].counters.Some? && r.intervalSeconds == ns as real / 1_000_000_000.0
              && if ns < 500_000_000 then
                   r == Rates(MEASURING, r.intervalSeconds, [0, 0, 0, 0, 0, 0, 0, 0, 0], 0.0, 0.0, 0.0, 0.0)
                 else
                   && r.status == MEASURED
                   && (forall i :: 0 <= i < 9 ==>
                         r.delta[i] == Gain(obs[k].counters.value, obs[w].counters.value, i))
                   && r.sendHz == PerSecond(r.delta[0], ns) && r.receiveHz == PerSecond(r.delta[1], ns)
                   && r.publishHz == PerSecond(r.delta[2], ns) && r.skippedPerSecond == PerSecond(r.delta[8], ns)
  {
    hide WindowOf, After, PerSecond;
    ComparableIffContinues(obs, k);
    if Continues(obs, k) {
      WindowIsOpen(obs, k - 1);
      var w := WindowOf(obs, k - 1);
      CountersGrow(obs, w, k);
      MeasuredPlainly(obs, w, k);
    }
  }

  lemma MeasuredPlainly(obs: seq<Sample>, w: nat, k: nat)
    requires 0 < k < |obs| && w < k && WindowFrom(obs, w, k - 1) && Continues(obs, k) && obs[w].now < obs[k].now
    requires Comparable(After(obs[..k]), obs[k].counters.value, obs[k].now)
    requires obs[w].counters.Some? && AtLeast(obs[k].counters.value, obs[w].counters.value)
    ensures var ns := obs[k].now - obs[w].now;
            var r := Shown(obs, k);
            && r.intervalSeconds == ns as real / 1_000_000_000.0
            && if ns < 500_000_000 then
                 r == Rates(MEASURING, r.intervalSeconds, [0, 0, 0, 0, 0, 0, 0, 0, 0], 0.0, 0.0, 0.0, 0.0)
               else
                 && r.status == MEASURED
                 && (forall i :: 0 <= i < 9 ==> r.delta[i] == Gain(obs[k].counters.value, obs[w].counters.value, i))
                 && r.sendHz == PerSecond(r.delta[0], ns) && r.receiveHz == PerSecond(r.delta[1], ns)
                 && r.publishHz == PerSecond(r.delta[2], ns) && r.skippedPerSecond == PerSecond(r.delta[8], ns)
  {
    hide After, Unbroken;
    forall i | 0 <= i < 9
      ensures Delta(obs[k].counters.value, obs[w].counters.value)[i] ==
              Gain(obs[k].counters.value, obs[w].counters.value, i)
    {
      DeltaIsGain(obs[k].counters.value, obs[w].counters.value, i);
    }
  }

  // ---- Samples ----

  /** Two routes share a history exactly when gateway, both ends, their sessions, route and direction are the same. */
  lemma KeyIdentifies(s: Diagnostics, r: Route, t: Diagnostics, q: Route)
    ensures KeyOf(s, r) == KeyOf(t, q) <==>
            && s.gatewayHost == t.gatewayHost && s.gatewayBoot == t.gatewayBoot && s.gatewaySession == t.gatewaySession
            && r.source == q.source && r.destination == q.destination && r.sourceSession == q.sourceSession
            && r.destinationSession == q.destinationSession && r.routeId == q.routeId && r.sending == q.sending
  {
  }

  /** Route i of an answered query is the first active one with this key. */
  predicate FirstWith(s: Diagnostics, routes: seq<Route>, i: int, key: Key) {
    && 0 <= i < |routes| && (s.status == VALID || s.status == TRUNCATED)
    && routes[i].state == 1 && KeyOf(s, routes[i]) == key
    && forall j :: 0 <= j < i && routes[j].state == 1 ==> KeyOf(s, routes[j]) != key
  }

  lemma FirstStep(s: Diagnostics, routes: seq<Route>, i: int, key: Key)
    requires routes != []
    ensures var n := |routes| - 1;
            && (FirstWith(s, routes, i, key) ==> 0 <= i <= n)
            && (FirstWith(s, routes[..n], i, key) <==> FirstWith(s, routes, i, key) && i < n)
            && (FirstWith(s, routes, n, key) ==> Observed(s, routes[n]) && KeyOf(s, routes[n]) == key)
            && (i < n && FirstWith(s, routes, i, key) ==> !FirstWith(s, routes, n, key))
  {
    hide KeyOf;
    var n := |routes| - 1;
    forall k | 0 <= k < n ensures routes[..n][k] == routes[k] {
    }
  }

  /** A key's sample is the counters of the first active route with it; without one, the key was not seen. */
  lemma {:induction false} SampleExactly(s: Diagnostics, routes: seq<Route>, key: Key)
    ensures forall i :: FirstWith(s, routes, i, key) ==> SampleOf(s, routes, key) == Results.Some(routes[i].counters)
    ensures SampleOf(s, routes, key).Some? ==> exists i :: FirstWith(s, routes, i, key)
  {
    if routes != [] {
      hide KeyOf, FirstWith, Observed;
      var n := |routes| - 1;
      SampleExactly(s, routes[..n], key);
      forall i: int { FirstStep(s, routes, i, key); }
      if SampleOf(s, routes[..n], key).Some? {
        var i :| FirstWith(s, routes[..n], i, key);
        assert FirstWith(s, routes, i, key) && routes[..n][i] == routes[i];
      } else if Observed(s, routes[n]) && KeyOf(s, routes[n]) == key {
        SampleMissing(s, routes[..n], key);
        FirstAtEnd(s, routes, key);
      }
    }
  }

  lemma FirstAtEnd(s: Diagnostics, routes: seq<Route>, key: Key)
    requires routes != []
    requires var n := |routes| - 1; Observed(s, routes[n]) && KeyOf(s, routes[n]) == key
    requires var init := routes[..|routes| - 1];
             forall j :: 0 <= j < |init| && init[j].state == 1 ==> KeyOf(s, init[j]) != key
    ensures FirstWith(s, routes, |routes| - 1, key)
  {
    hide KeyOf;
    var init := routes[..|routes| - 1];
    forall j | 0 <= j < |init| && routes[j].state == 1 ensures KeyOf(s, routes[j]) != key {
      assert init[j] == routes[j];
    }
  }

  lemma {:induction false} SampleMissing(s: Diagnostics, routes: seq<Route>, key: Key)
    requires SampleOf(s, routes, key).None? && Success(s)
    ensures forall j :: 0 <= j < |routes| && routes[j].state == 1 ==> KeyOf(s, routes[j]) != key
  {
    hide KeyOf;
    if routes != [] {
      SampleMissing(s, routes[..|routes| - 1], key);
      forall j | 0 <= j < |routes| && routes[j].state == 1 ensures KeyOf(s, routes[j]) != key {
        if j < |routes| - 1 { assert routes[..|routes| - 1][j] == routes[j]; }
      }
    }
  }
}
