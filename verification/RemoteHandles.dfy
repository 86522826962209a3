/** Action and subscription handles of the remote runtimes, issued from one counter for the whole process. */
module RemoteHandles {
  import opened Results
  import opened Numerals
  import NetworkRates

  datatype Endpoint = Endpoint(identity: NetworkRates.RouteEndpoint, session: Uint64, name: string)

  /** startError is the framework's start result; a runtime that did not start refuses every command. */
  datatype Tables = Tables(startError: int, actions: map<Uint64, Endpoint>, subscriptions: map<Uint64, Endpoint>)

  /** A command together with what the framework answers to it: whether the endpoint is still registered, the error of
      the steps before the tables change, the handles whose actions are over, and whether a goal got a handle. */
  datatype Command =
    | Poll
    | Unsubscribe(handle: Uint64, result: int)
    | Cancel(handle: Uint64, endpoint: Endpoint, current: bool, result: int)
    | Subscribe(endpoint: Endpoint, current: bool, result: int)
    | Goal(endpoint: Endpoint, current: bool, prepare: int, terminal: set<Uint64>, started: bool, result: int)
    | Value(endpoint: Endpoint, current: bool, result: int)

  datatype Outcome = Outcome(next: Uint64, tables: Tables, error: int, issued: Option<Uint64>)

  /** ++next on a 64-bit atomic. */
  function Bump(next: Uint64): Uint64 { (next + 1) % TWO_64 }

  /** map::emplace keeps an entry that is already there. */
  function Emplace(table: map<Uint64, Endpoint>, handle: Uint64, e: Endpoint): map<Uint64, Endpoint> {
    if handle in table then table else table[handle := e]
  }

  function Remove(table: map<Uint64, Endpoint>, gone: set<Uint64>): map<Uint64, Endpoint> { table - gone }

  function Execute(next: Uint64, t: Tables, c: Command): Outcome {
    if t.startError != 0 then Outcome(next, t, t.startError, None)
    else
      match c
      case Poll => Outcome(next, t, 0, None)
      case Unsubscribe(handle, result) =>
        if handle !in t.subscriptions then Outcome(next, t, ENOENT, None)
        else Outcome(next, t.(subscriptions := Remove(t.subscriptions, {handle})), result, None)
      case Cancel(handle, endpoint, current, result) =>
        if !current then Outcome(next, t, ESTALE, None)
        else if handle !in t.actions || t.actions[handle].identity != endpoint.identity ||
                t.actions[handle].session != endpoint.session
        then Outcome(next, t, ESTALE, None)
        else Outcome(next, t, result, None)
      case Subscribe(endpoint, current, result) =>
        if !current then Outcome(next, t, ESTALE, None)
        else if result != 0 then Outcome(next, t, result, None)
        else
          var h := Bump(next);
          Outcome(h, t.(subscriptions := Emplace(t.subscriptions, h, endpoint)), 0, Some(h))
      case Goal(endpoint, current, prepare, terminal, started, result) =>
        if !current then Outcome(next, t, ESTALE, None)
        else if prepare != 0 then Outcome(next, t, prepare, None)
        else
          var kept := t.(actions := Remove(t.actions, terminal));
          if !started then Outcome(next, kept, result, None)
          else
            var h := Bump(next);
            Outcome(h, kept.(actions := Emplace(kept.actions, h, endpoint)), result, Some(h))
      case Value(endpoint, current, result) =>
        Outcome(next, t, if current then result else ESTALE, None)
  }

  class HandleCounter {
    var next: Uint64
    constructor ()
      ensures next == 0
    {
      next := 0;
    }
  }

  class RemoteRuntime {
    const startError: int
    const counter: HandleCounter
    var actions: map<Uint64, Endpoint>
    var subscriptions: map<Uint64, Endpoint>

    ghost function Abs(): Tables
      reads this
    {
      Tables(startError, actions, subscriptions)
    }

    constructor (counter: HandleCounter, startError: int)
      ensures this.counter == counter && Abs() == Tables(startError, map[], map[])
    {
      this.counter, this.startError := counter, startError;
      actions, subscriptions := map[], map[];
    }

    method Run(c: Command) returns (error: int, issued: Option<Uint64>)
      modifies this, counter
      ensures Outcome(counter.next, Abs(), error, issued) == Execute(old(counter.next), old(Abs()), c)
    {
      if startError != 0 { return startError, None; }
      match c {
        case Poll => return 0, None;
        case Unsubscribe(handle, result) =>
          if handle !in subscriptions { return ENOENT, None; }
          subscriptions := subscriptions - {handle};
          return result, None;
        case Cancel(handle, endpoint, current, result) =>
          if !current { return ESTALE, None; }
          if handle !in actions || actions[handle].identity != endpoint.identity ||
             actions[handle].session != endpoint.session {
            return ESTALE, None;
          }
          return result, None;
        case Subscribe(endpoint, current, result) =>
          if !current { return ESTALE, None; }
          if result != 0 { return result, None; }
          counter.next := Bump(counter.next);
          if counter.next !in subscriptions { subscriptions := subscriptions[counter.next := endpoint]; }
          return 0, Some(counter.next);
        case Goal(endpoint, current, prepare, terminal, started, result) =>
          if !current { return ESTALE, None; }
          if prepare != 0 { return prepare, None; }
          actions := actions - terminal;
          if !started { return result, None; }
          counter.next := Bump(counter.next);
          if counter.next !in actions { actions := actions[counter.next := endpoint]; }
          return result, Some(counter.next);
        case Value(endpoint, current, result) =>
          return if current then result else ESTALE, None;
      }
    }
  }

  // ---- Any commands on any runtimes ----

  /** A handle given out: by which runtime, and for an action or a subscription. */
  datatype Issue = Issue(runtime: nat, action: bool, handle: Uint64)

  datatype Process = Process(next: Uint64, runtimes: seq<Tables>, issues: seq<Issue>)

  datatype Request = Request(runtime: nat, command: Command)

  function Serve(p: Process, r: Request): Process
    requires r.runtime < |p.runtimes|
  {
    var out := Execute(p.next, p.runtimes[r.runtime], r.command);
    Process(out.next, p.runtimes[r.runtime := out.tables],
            match out.issued
            case None => p.issues
            case Some(h) => p.issues + [Issue(r.runtime, r.command.Goal?, h)])
  }

  /** The process after requests in any order on any of its runtimes. */
  function Served(start: seq<int>, requests: seq<Request>): (p: Process)
    requires forall r <- requests :: r.runtime < |start|
    ensures |p.runtimes| == |start|
  {
    if requests == [] then
      Process(0, seq(|start|, i requires 0 <= i < |start| => Tables(start[i], map[], map[])), [])
    else Serve(Served(start, requests[..|requests| - 1]), requests[|requests| - 1])
  }

  /** The k-th handle issued is k, in 64-bit arithmetic. */
  lemma {:induction false} HandlesCountUp(start: seq<int>, requests: seq<Request>)
    requires forall r <- requests :: r.runtime < |start|
    ensures var p := Served(start, requests);
            && p.next == |p.issues| % TWO_64
            && forall k :: 0 <= k < |p.issues| ==> p.issues[k].handle == (k + 1) % TWO_64
  {
    if requests != [] {
      var r := requests[|requests| - 1];
      HandlesCountUp(start, requests[..|requests| - 1]);
      var before := Served(start, requests[..|requests| - 1]);
      ExecuteIssues(before.next, before.runtimes[r.runtime], r.command);
      BumpCounts(|before.issues|);
    }
  }

  lemma ExecuteIssues(next: Uint64, t: Tables, c: Command)
    ensures match Execute(next, t, c).issued
            case None => Execute(next, t, c).next == next
            case Some(h) => h == Execute(next, t, c).next == Bump(next)
  {
  }

  lemma BumpCounts(n: nat)
    ensures Bump(n % TWO_64) == (n + 1) % TWO_64
  {
    assert n == TWO_64 * (n / TWO_64) + n % TWO_64;
    if n % TWO_64 == TWO_64 - 1 {
      assert n + 1 == TWO_64 * (n / TWO_64 + 1);
    } else {
      assert n + 1 == TWO_64 * (n / TWO_64) + (n % TWO_64 + 1);
    }
  }

  /** No handle is issued twice, by whatever runtime and for whatever purpose, exactly until the counter wraps. */
  lemma HandlesDistinct(start: seq<int>, requests: seq<Request>)
    requires forall r <- requests :: r.runtime < |start|
    ensures var issues := Served(start, requests).issues;
            (forall i, k :: 0 <= i < k < |issues| ==> issues[i].handle != issues[k].handle) <==> |issues| <= TWO_64
  {
    hide Served;
    HandlesCountUp(start, requests);
    var issues := Served(start, requests).issues;
    if |issues| > TWO_64 {
      assert issues[0].handle == 1 % TWO_64 && issues[TWO_64].handle == (TWO_64 + 1) % TWO_64;
      assert issues[0].handle == issues[TWO_64].handle;
    }
  }

  /** Every handle a runtime keeps was issued to it, for that purpose. */
  predicate Accounted(p: Process) {
    forall i :: 0 <= i < |p.runtimes| ==>
      && (forall h <- p.runtimes[i].actions :: Issue(i, true, h) in p.issues)
      && (forall h <- p.runtimes[i].subscriptions :: Issue(i, false, h) in p.issues)
  }

  lemma {:induction false} AlwaysAccounted(start: seq<int>, requests: seq<Request>)
    requires forall r <- requests :: r.runtime < |start|
    ensures Accounted(Served(start, requests))
  {
    if requests != [] {
      var r := requests[|requests| - 1];
      AlwaysAccounted(start, requests[..|requests| - 1]);
      var before := Served(start, requests[..|requests| - 1]);
      var after := Served(start, requests);
      assert forall x :: x in before.issues ==> x in after.issues;
    }
  }

  /** An action handle and a subscription handle, or handles of two runtimes, are never the same. */
  lemma HandlesNeverCollide(start: seq<int>, requests: seq<Request>, i: nat, k: nat, h: Uint64)
    requires forall r <- requests :: r.runtime < |start|
    requires |Served(start, requests).issues| <= TWO_64 && i < |start| && k < |start|
    ensures var p := Served(start, requests);
            && !(h in p.runtimes[i].actions && h in p.runtimes[k].subscriptions)
            && (i != k ==> !(h in p.runtimes[i].actions && h in p.runtimes[k].actions))
            && (i != k ==> !(h in p.runtimes[i].subscriptions && h in p.runtimes[k].subscriptions))
  {
    HandlesDistinct(start, requests);
    AlwaysAccounted(start, requests);
    var issues := Served(start, requests).issues;
    forall x, y | x in issues && y in issues && x.handle == y.handle ensures x == y {
      var m :| 0 <= m < |issues| && issues[m] == x;
      var n :| 0 <= n < |issues| && issues[n] == y;
    }
  }

  lemma ServeKeepsSubscription(p: Process, r: Request, i: nat, h: Uint64)
    requires r.runtime < |p.runtimes| && i < |p.runtimes| && h in p.runtimes[i].subscriptions
    requires !(r.runtime == i && r.command.Unsubscribe? && r.command.handle == h)
    ensures h in Serve(p, r).runtimes[i].subscriptions
    ensures Serve(p, r).runtimes[i].subscriptions[h] == p.runtimes[i].subscriptions[h]
  {
  }

  lemma ServeKeepsAction(p: Process, r: Request, i: nat, h: Uint64)
    requires r.runtime < |p.runtimes| && i < |p.runtimes| && h in p.runtimes[i].actions
    requires !(r.runtime == i && r.command.Goal? && h in r.command.terminal)
    ensures h in Serve(p, r).runtimes[i].actions
    ensures Serve(p, r).runtimes[i].actions[h] == p.runtimes[i].actions[h]
  {
  }

  /** A subscription stays until its own Unsubscribe, even when its endpoint goes stale. */
  lemma {:induction false} SubscriptionStays(start: seq<int>, requests: seq<Request>, j: nat, i: nat, h: Uint64)
    requires forall r <- requests :: r.runtime < |start|
    requires j <= |requests| && i < |start| && h in Served(start, requests[..j]).runtimes[i].subscriptions
    requires forall k :: j <= k < |requests| ==>
               !(requests[k].runtime == i && requests[k].command.Unsubscribe? && requests[k].command.handle == h)
    ensures h in Served(start, requests).runtimes[i].subscriptions
    ensures Served(start, requests).runtimes[i].subscriptions[h] ==
              Served(start, requests[..j]).runtimes[i].subscriptions[h]
    decreases |requests|
  {
    hide Serve;
    if j == |requests| {
      assert requests[..j] == requests;
    } else {
      var init := requests[..|requests| - 1];
      assert init[..j] == requests[..j];
      SubscriptionStays(start, init, j, i, h);
      ServeKeepsSubscription(Served(start, init), requests[|requests| - 1], i, h);
    }
  }

  /** An action is dropped only by a goal on its own runtime that found it over. */
  lemma {:induction false} ActionStays(start: seq<int>, requests: seq<Request>, j: nat, i: nat, h: Uint64)
    requires forall r <- requests :: r.runtime < |start|
    requires j <= |requests| && i < |start| && h in Served(start, requests[..j]).runtimes[i].actions
    requires forall k :: j <= k < |requests| ==>
               !(requests[k].runtime == i && requests[k].command.Goal? && h in requests[k].command.terminal)
    ensures h in Served(start, requests).runtimes[i].actions
    ensures Served(start, requests).runtimes[i].actions[h] == Served(start, requests[..j]).runtimes[i].actions[h]
    decreases |requests|
  {
    hide Serve;
    if j == |requests| {
      assert requests[..j] == requests;
    } else {
      var init := requests[..|requests| - 1];
      assert init[..j] == requests[..j];
      ActionStays(start, init, j, i, h);
      ServeKeepsAction(Served(start, init), requests[|requests| - 1], i, h);
    }
  }

  // ---- What each command does to the tables ----

  /** A runtime that did not start refuses everything with its start error; otherwise each command does this and no
      more. */
  lemma ExecutedPlainly(next: Uint64, t: Tables, c: Command)
    ensures var out := Execute(next, t, c);
            if t.startError != 0 then out == Outcome(next, t, t.startError, None)
            else
              match c
              case Poll => out == Outcome(next, t, 0, None)
              case Unsubscribe(h, result) =>
                && out.next == next && out.issued == None && out.tables.actions == t.actions
                && h !in out.tables.subscriptions && out.error == (if h in t.subscriptions then result else -2)
                && forall k :: k != h ==> Lookup(out.tables.subscriptions, k) == Lookup(t.subscriptions, k)
              case Cancel(h, e, current, result) =>
                && out.next == next && out.issued == None && out.tables == t
                && out.error == if current && h in t.actions && t.actions[h].identity == e.identity
                                   && t.actions[h].session == e.session
                                then result else -116
              case Subscribe(e, current, result) =>
                if current && result == 0 then
                  && out.error == 0 && out.issued == Some(out.next) && out.next == (next + 1) % TWO_64
                  && out.tables.actions == t.actions
                  && Lookup(out.tables.subscriptions, out.next) ==
                     Some(if out.next in t.subscriptions then t.subscriptions[out.next] else e)
                  && forall k :: k != out.next ==> Lookup(out.tables.subscriptions, k) == Lookup(t.subscriptions, k)
                else out == Outcome(next, t, if current then result else -116, None)
              case Goal(e, current, prepare, over, started, result) =>
                if current && prepare == 0 then
                  && out.error == result && out.tables.subscriptions == t.subscriptions
                  && out.issued == (if started then Some(out.next) else None)
                  && out.next == (if started then (next + 1) % TWO_64 else next)
                  && (forall k :: k in over && out.issued != Some(k) ==> k !in out.tables.actions)
                  && (forall k :: k !in over && out.issued != Some(k) ==>
                        Lookup(out.tables.actions, k) == Lookup(t.actions, k))
                  && (started ==>
                        Lookup(out.tables.actions, out.next) ==
                        Some(if out.next in t.actions && out.next !in over then t.actions[out.next] else e))
                else out == Outcome(next, t, if current then prepare else -116, None)
              case Value(e, current, result) => out == Outcome(next, t, if current then result else -116, None)
  {
  }

  // ---- How long an entry lives ----

  /** Request j on runtime i issued the handle for a subscription to this endpoint. */
  ghost predicate Subscribes(start: seq<int>, requests: seq<Request>, j: nat, i: nat, h: Uint64, e: Endpoint)
    requires forall r <- requests :: r.runtime < |start|
  {
    && j < |requests| && requests[j].runtime == i && requests[j].command.Subscribe?
    && requests[j].command.endpoint == e
    && var p := Served(start, requests[..j]); Execute(p.next, p.runtimes[i], requests[j].command).issued == Some(h)
  }

  predicate Unsubscribes(r: Request, i: nat, h: Uint64) {
    r.runtime == i && r.command.Unsubscribe? && r.command.handle == h
  }

  /** Issued by request j, and not given up by a later one. */
  ghost predicate SubscribedSince(start: seq<int>, requests: seq<Request>, j: nat, i: nat, h: Uint64, e: Endpoint)
    requires forall r <- requests :: r.runtime < |start|
  {
    && Subscribes(start, requests, j, i, h, e)
    && forall k :: j < k < |requests| ==> !Unsubscribes(requests[k], i, h)
  }

  /** Request j on runtime i issued the handle for an action of this endpoint. */
  ghost predicate Starts(start: seq<int>, requests: seq<Request>, j: nat, i: nat, h: Uint64, e: Endpoint)
    requires forall r <- requests :: r.runtime < |start|
  {
    && j < |requests| && requests[j].runtime == i && requests[j].command.Goal? && requests[j].command.endpoint == e
    && var p := Served(start, requests[..j]); Execute(p.next, p.runtimes[i], requests[j].command).issued == Some(h)
  }

  /** A goal for a current endpoint that gets past its preparation and finds the action over. */
  predicate Drops(r: Request, i: nat, h: Uint64) {
    r.runtime == i && r.command.Goal? && r.command.current && r.command.prepare == 0 && h in r.command.terminal
  }

  ghost predicate StartedSince(start: seq<int>, requests: seq<Request>, j: nat, i: nat, h: Uint64, e: Endpoint)
    requires forall r <- requests :: r.runtime < |start|
  {
    && Starts(start, requests, j, i, h, e)
    && forall k :: j < k < |requests| ==> !Drops(requests[k], i, h)
  }

  lemma FreshHandle(start: seq<int>, requests: seq<Request>, i: nat, h: Uint64)
    requires requests != [] && forall r <- requests :: r.runtime < |start|
    requires |Served(start, requests).issues| <= TWO_64 && i < |start|
    requires var n := |requests| - 1;
             var p := Served(start, requests[..n]);
             Execute(p.next, p.runtimes[requests[n].runtime], requests[n].command).issued == Some(h)
    ensures var p := Served(start, requests[..|requests| - 1]);
            h !in p.runtimes[i].subscriptions && h !in p.runtimes[i].actions
  {
    var init := requests[..|requests| - 1];
    HandlesDistinct(start, requests);
    AlwaysAccounted(start, init);
    var (before, after) := (Served(start, init).issues, Served(start, requests).issues);
    assert after[|before|].handle == h && before == after[..|before|];
    forall x | x in before ensures x.handle != h {
      var k :| 0 <= k < |before| && before[k] == x;
      assert after[k] == x;
    }
  }

  lemma ShorterRun(start: seq<int>, requests: seq<Request>, i: nat, h: Uint64, e: Endpoint)
    requires requests != [] && forall r <- requests :: r.runtime < |start|
    ensures var init := requests[..|requests| - 1];
            && |Served(start, init).issues| <= |Served(start, requests).issues|
            && (forall j: nat :: j < |init| ==>
                  (Subscribes(start, init, j, i, h, e) <==> Subscribes(start, requests, j, i, h, e))
                  && (Starts(start, init, j, i, h, e) <==> Starts(start, requests, j, i, h, e)))
            && (forall k :: 0 <= k < |init| ==> init[k] == requests[k])
  {
    hide Served, Execute;
    var init := requests[..|requests| - 1];
    IssuesGrow(start, requests);
    forall j: nat | j < |init|
      ensures Subscribes(start, init, j, i, h, e) <==> Subscribes(start, requests, j, i, h, e)
      ensures Starts(start, init, j, i, h, e) <==> Starts(start, requests, j, i, h, e)
    {
      assert init[..j] == requests[..j] && init[j] == requests[j];
    }
  }

  lemma IssuesGrow(start: seq<int>, requests: seq<Request>)
    requires requests != [] && forall r <- requests :: r.runtime < |start|
    ensures |Served(start, requests[..|requests| - 1]).issues| <= |Served(start, requests).issues|
  {
    hide Execute;
  }

  /** Until the counter wraps, a runtime holds a subscription exactly from the request that issued it to its
      Unsubscribe, for the endpoint that was asked for. */
  lemma {:induction false} SubscriptionExactly(start: seq<int>, requests: seq<Request>, i: nat, h: Uint64, e: Endpoint)
    requires forall r <- requests :: r.runtime < |start|
    requires |Served(start, requests).issues| <= TWO_64 && i < |start|
    ensures Lookup(Served(start, requests).runtimes[i].subscriptions, h) == Some(e) <==>
            exists j :: SubscribedSince(start, requests, j, i, h, e)
  {
    hide Served, Execute;
    if requests == [] {
      NothingServed(start, i);
    } else {
      var n := |requests| - 1;
      var init := requests[..n];
      ShorterRun(start, requests, i, h, e);
      SubscriptionExactly(start, init, i, h, e);
      SubscriptionStep(start, requests, i, h, e);
      if exists j: nat :: j < n && SubscribedSince(start, requests, j, i, h, e) {
        var j: nat :| j < n && SubscribedSince(start, requests, j, i, h, e);
        assert SubscribedSince(start, init, j, i, h, e);
      }
      if exists j :: SubscribedSince(start, init, j, i, h, e) {
        var j :| SubscribedSince(start, init, j, i, h, e);
        if !Unsubscribes(requests[n], i, h) { assert SubscribedSince(start, requests, j, i, h, e); }
      }
      if Subscribes(start, requests, n, i, h, e) { assert SubscribedSince(start, requests, n, i, h, e); }
    }
  }

  lemma NothingServed(start: seq<int>, i: nat)
    requires i < |start|
    ensures Served(start, []).runtimes[i] == Tables(start[i], map[], map[])
  {
  }

  lemma SubscriptionStep(start: seq<int>, requests: seq<Request>, i: nat, h: Uint64, e: Endpoint)
    requires requests != [] && forall r <- requests :: r.runtime < |start|
    requires |Served(start, requests).issues| <= TWO_64 && i < |start|
    ensures var n := |requests| - 1;
            var (before, after) := (Served(start, requests[..n]), Served(start, requests));
            Lookup(after.runtimes[i].subscriptions, h) == Some(e) <==>
            || Subscribes(start, requests, n, i, h, e)
            || (Lookup(before.runtimes[i].subscriptions, h) == Some(e) && !Unsubscribes(requests[n], i, h))
  {
    var n := |requests| - 1;
    var before := Served(start, requests[..n]);
    var r := requests[n];
    var out := Execute(before.next, before.runtimes[r.runtime], r.command);
    assert Served(start, requests) == Serve(before, r);
    hide Served, Execute;
    ExecutedPlainly(before.next, before.runtimes[r.runtime], r.command);
    if out.issued.Some? { FreshHandle(start, requests, i, out.issued.value); }
    NeverStarted(start, requests[..n], i);
  }

  /** A runtime that did not start holds nothing. */
  lemma {:induction false} NeverStarted(start: seq<int>, requests: seq<Request>, i: nat)
    requires (forall r <- requests :: r.runtime < |start|) && i < |start|
    ensures Served(start, requests).runtimes[i].startError == start[i]
    ensures start[i] != 0 ==> Served(start, requests).runtimes[i] == Tables(start[i], map[], map[])
  {
    if requests != [] { NeverStarted(start, requests[..|requests| - 1], i); }
  }

  /** Until the counter wraps, a runtime holds an action exactly from the goal that started it to the first later goal
      that gets past its preparation and finds it over. */
  lemma {:induction false} ActionExactly(start: seq<int>, requests: seq<Request>, i: nat, h: Uint64, e: Endpoint)
    requires forall r <- requests :: r.runtime < |start|
    requires |Served(start, requests).issues| <= TWO_64 && i < |start|
    ensures Lookup(Served(start, requests).runtimes[i].actions, h) == Some(e) <==>
            exists j :: StartedSince(start, requests, j, i, h, e)
  {
    hide Served, Execute;
    if requests == [] {
      NothingServed(start, i);
    } else {
      var n := |requests| - 1;
      var init := requests[..n];
      ShorterRun(start, requests, i, h, e);
      ActionExactly(start, init, i, h, e);
      ActionStep(start, requests, i, h, e);
      if exists j: nat :: j < n && StartedSince(start, requests, j, i, h, e) {
        var j: nat :| j < n && StartedSince(start, requests, j, i, h, e);
        assert StartedSince(start, init, j, i, h, e);
      }
      if exists j :: StartedSince(start, init, j, i, h, e) {
        var j :| StartedSince(start, init, j, i, h, e);
        if !Drops(requests[n], i, h) { assert StartedSince(start, requests, j, i, h, e); }
      }
      if Starts(start, requests, n, i, h, e) { assert StartedSince(start, requests, n, i, h, e); }
    }
  }

  lemma ActionStep(start: seq<int>, requests: seq<Request>, i: nat, h: Uint64, e: Endpoint)
    requires requests != [] && forall r <- requests :: r.runtime < |start|
    requires |Served(start, requests).issues| <= TWO_64 && i < |start|
    ensures var n := |requests| - 1;
            var (before, after) := (Served(start, requests[..n]), Served(start, requests));
            Lookup(after.runtimes[i].actions, h) == Some(e) <==>
            || Starts(start, requests, n, i, h, e)
            || (Lookup(before.runtimes[i].actions, h) == Some(e) && !Drops(requests[n], i, h))
  {
    var n := |requests| - 1;
    var before := Served(start, requests[..n]);
    var r := requests[n];
    var out := Execute(before.next, before.runtimes[r.runtime], r.command);
    assert Served(start, requests) == Serve(before, r);
    hide Served, Execute;
    ExecutedPlainly(before.next, before.runtimes[r.runtime], r.command);
    if out.issued.Some? { FreshHandle(start, requests, i, out.issued.value); }
    NeverStarted(start, requests[..n], i);
  }
}
