/** The observer's tick: reconcile the per-host cache with the peers, query one due host in rotation, record the
    answer. */
module DiagnosticsCache {
  import Results
  import Numerals
  import opened Ordering
  import opened NetworkRates
  import opened Conversion

  // ---- Peers ----

  datatype EndpointMeta = EndpointMeta(kind: nat, name: string)

  /** compatible and offersDiagnostics are the framework's verdicts on the peer's profile. */
  datatype Peer = Peer(host: HostId, boot: HostId, session: Numerals.Uint64, online: bool, compatible: bool,
                       offersDiagnostics: bool, metadataReady: bool, endpoints: seq<EndpointMeta>)

  function Eligibility(p: Peer): DiagnosticsState {
    if !p.online then LOST
    else if !p.compatible then INCOMPATIBLE
    else if !p.offersDiagnostics then UNSUPPORTED
    else PENDING
  }

  /** Discovery keeps one record per host. */
  predicate DistinctHosts(peers: seq<Peer>) {
    forall i, j :: 0 <= i < j < |peers| ==> peers[i].host != peers[j].host
  }

  function HostKeys(peers: seq<Peer>): set<string> { set p <- peers :: HostKey(p.host) }

  // ---- The cache ----

  datatype Cached = Cached(value: Diagnostics, next: int, rates: map<Key, History>)

  const NO_DIAGNOSTICS := Diagnostics(UNAVAILABLE, "", "", 0, 0, 0, [])

  /** next is the clock's epoch, so a new entry is due at once. */
  const NEW_ENTRY := Cached(NO_DIAGNOSTICS, 0, map[])

  function Blank(host: string, boot: string, session: Numerals.Uint64, status: DiagnosticsState): Diagnostics {
    NO_DIAGNOSTICS.(gatewayHost := host, gatewayBoot := boot, gatewaySession := session, status := status)
  }

  predicate Resets(entry: Cached, p: Peer) {
    var v := entry.value;
    v.gatewayBoot != HostKey(p.boot) || v.gatewaySession != p.session || Eligibility(p) != PENDING ||
    v.status == LOST || v.status == INCOMPATIBLE || v.status == UNSUPPORTED
  }

  /** The entry of a peer after reconciling: kept only for the same generation of an eligible, previously eligible
      peer. */
  function Refreshed(entry: Cached, p: Peer): Cached {
    if Resets(entry, p) then NEW_ENTRY.(value := Blank(HostKey(p.host), HostKey(p.boot), p.session, Eligibility(p)))
    else entry
  }

  function EntryOf(cache: map<string, Cached>, host: string): Cached {
    if host in cache then cache[host] else NEW_ENTRY
  }

  function Reconciled(cache: map<string, Cached>, peers: seq<Peer>): map<string, Cached> {
    RefreshAll(map k | k in cache && k in HostKeys(peers) :: cache[k], peers)
  }

  function RefreshAll(cache: map<string, Cached>, peers: seq<Peer>): map<string, Cached> {
    if peers == [] then cache else
      var p := peers[|peers| - 1];
      var before := RefreshAll(cache, peers[..|peers| - 1]);
      before[HostKey(p.host) := Refreshed(EntryOf(before, HostKey(p.host)), p)]
  }

  predicate Answered(s: DiagnosticsState) { s == VALID || s == TRUNCATED || s == ERROR || s == TIMEOUT }

  /** What holds of an entry at all times: its diagnostics and every rate history are of one generation of its host,
      a host that may not be queried shows only the reason, and every identity is hexadecimal. */
  ghost predicate Sound(host: string, entry: Cached) {
    && entry.value.gatewayHost == host
    && (entry.value.status in {LOST, INCOMPATIBLE, UNSUPPORTED, PENDING} || Answered(entry.value.status))
    && (!Answered(entry.value.status) ==> entry.value.routes == [] && entry.rates == map[])
    && (entry.value.status in {LOST, INCOMPATIBLE, UNSUPPORTED} ==> entry.next == 0)
    && OfGeneration(entry.rates, host, entry.value.gatewayBoot, entry.value.gatewaySession)
    && RoutesConverted(entry.value)
  }

  ghost predicate CacheInv(cache: map<string, Cached>) {
    forall host <- cache :: Sound(host, cache[host])
  }

  /** The entry reports on this very peer. */
  predicate Current(entry: Cached, p: Peer) {
    && entry.value.gatewayBoot == HostKey(p.boot) && entry.value.gatewaySession == p.session
    && if Eligibility(p) == PENDING then entry.value.status == PENDING || Answered(entry.value.status)
       else entry.value.status == Eligibility(p) && entry.value.routes == []
  }

  /** The generation invariant: one entry per peer host, reporting on that peer. */
  ghost predicate InStep(cache: map<string, Cached>, peers: seq<Peer>) {
    && cache.Keys == HostKeys(peers)
    && forall p <- peers :: Sound(HostKey(p.host), cache[HostKey(p.host)]) && Current(cache[HostKey(p.host)], p)
  }

  lemma RefreshedSound(host: string, entry: Cached, p: Peer)
    requires host == HostKey(p.host) && (entry == NEW_ENTRY || Sound(host, entry))
    ensures Sound(host, Refreshed(entry, p)) && Current(Refreshed(entry, p), p)
  {
    assert |HostKey(p.boot)| == 32;
  }

  /** Refreshing visits each host once, so each entry is the refreshed old one. */
  lemma {:induction false} RefreshAllEntries(cache: map<string, Cached>, peers: seq<Peer>)
    requires DistinctHosts(peers)
    ensures RefreshAll(cache, peers).Keys == cache.Keys + HostKeys(peers)
    ensures forall p <- peers ::
              RefreshAll(cache, peers)[HostKey(p.host)] == Refreshed(EntryOf(cache, HostKey(p.host)), p)
    ensures forall k <- cache :: k !in HostKeys(peers) ==> RefreshAll(cache, peers)[k] == cache[k]
  {
    hide HostKey, HostKeys, DistinctHosts, Refreshed;
    if peers == [] {
      NoKeys();
    } else {
      var (init, p) := (peers[..|peers| - 1], peers[|peers| - 1]);
      LastPeer(peers);
      RefreshAllEntries(cache, init);
      var (before, own) := (RefreshAll(cache, init), HostKey(p.host));
      assert EntryOf(before, own) == EntryOf(cache, own);
      assert RefreshAll(cache, peers) == before[own := Refreshed(EntryOf(cache, own), p)];
    }
  }

  lemma NoKeys()
    ensures HostKeys([]) == {}
  {
  }

  /** The last peer's host is none of the others'. */
  lemma LastPeer(peers: seq<Peer>)
    requires DistinctHosts(peers) && peers != []
    ensures var (init, p) := (peers[..|peers| - 1], peers[|peers| - 1]);
            && DistinctHosts(init) && HostKeys(peers) == HostKeys(init) + {HostKey(p.host)}
            && HostKey(p.host) !in HostKeys(init)
            && (forall q :: q in peers <==> q in init || q == p)
            && (forall q <- init :: HostKey(q.host) != HostKey(p.host))
  {
    hide HostKey;
    var (init, p) := (peers[..|peers| - 1], peers[|peers| - 1]);
    forall q | q in init ensures HostKey(q.host) != HostKey(p.host) {
      var k :| 0 <= k < |init| && init[k] == q;
      assert peers[k] == q;
      if HostKey(q.host) == HostKey(p.host) { HostKeyInjective(q.host, p.host); }
    }
    assert peers == init + [p];
    HostKeysStep(init, p);
  }

  lemma HostKeysStep(peers: seq<Peer>, p: Peer)
    ensures HostKeys(peers + [p]) == HostKeys(peers) + {HostKey(p.host)}
  {
    assert forall q :: q in peers + [p] <==> q in peers || q == p;
  }

  /** Reconciling any sound cache with any peers puts it in step. */
  lemma ReconciledInStep(cache: map<string, Cached>, peers: seq<Peer>)
    requires CacheInv(cache) && DistinctHosts(peers)
    ensures InStep(Reconciled(cache, peers), peers) && CacheInv(Reconciled(cache, peers))
    ensures forall p <- peers ::
              Reconciled(cache, peers)[HostKey(p.host)] == Refreshed(EntryOf(cache, HostKey(p.host)), p)
  {
    var kept := map k | k in cache && k in HostKeys(peers) :: cache[k];
    RefreshAllEntries(kept, peers);
    forall p | p in peers
      ensures Reconciled(cache, peers)[HostKey(p.host)] == Refreshed(EntryOf(cache, HostKey(p.host)), p)
      ensures Sound(HostKey(p.host), Reconciled(cache, peers)[HostKey(p.host)])
      ensures Current(Reconciled(cache, peers)[HostKey(p.host)], p)
    {
      RefreshedSound(HostKey(p.host), EntryOf(cache, HostKey(p.host)), p);
    }
  }

  /** A peer that may be asked. */
  predicate Askable(p: Peer) { p.online && p.compatible && p.offersDiagnostics }

  /** The entry reports on the very generation of the peer, and either holds an answer or waits for the first. */
  predicate ReportsOn(entry: Cached, p: Peer) {
    && entry.value.gatewayHost == Hex(p.host) && entry.value.gatewayBoot == Hex(p.boot)
    && entry.value.gatewaySession == p.session && entry.value.status in {PENDING, VALID, TRUNCATED, ERROR, TIMEOUT}
  }

  /** Exactly what reconciling does to each listed host: an entry on the peer's own generation stays as it is, answer,
      rates and due time, while the peer may be asked; otherwise a new entry, due at once, says why there is none. */
  lemma ReconciledExactly(cache: map<string, Cached>, peers: seq<Peer>, p: Peer)
    requires CacheInv(cache) && DistinctHosts(peers) && p in peers
    ensures HostKey(p.host) in Reconciled(cache, peers)
    ensures var (host, after) := (HostKey(p.host), Reconciled(cache, peers)[HostKey(p.host)]);
            if Askable(p) && host in cache && ReportsOn(cache[host], p) then after == cache[host]
            else
              && after.next == 0 && after.rates == map[] && after.value.routes == [] && after.value.error == 0
              && after.value.gatewayHost == Hex(p.host) && after.value.gatewayBoot == Hex(p.boot)
              && after.value.gatewaySession == p.session && after.value.observedAtMs == 0
              && after.value.status == if !p.online then LOST else if !p.compatible then INCOMPATIBLE
                                       else if !p.offersDiagnostics then UNSUPPORTED else PENDING
  {
    hide Hex, Reconciled;
    ReconciledInStep(cache, peers);
    NewResets(p);
  }

  lemma NewResets(p: Peer)
    ensures Resets(NEW_ENTRY, p)
  {
    assert |HostKey(p.boot)| == 32;
  }

  // ---- Choosing whom to query ----

  predicate Due(cache: map<string, Cached>, p: Peer, now: int) {
    Eligibility(p) == PENDING && EntryOf(cache, HostKey(p.host)).next <= now
  }

  function DueHosts(cache: map<string, Cached>, peers: seq<Peer>, now: int): set<string> {
    set p <- peers | Due(cache, p, now) :: HostKey(p.host)
  }

  /** Who is due: a listed peer that may be asked and whose entry, if it has one, has reached its time. */
  lemma DueExactly(cache: map<string, Cached>, peers: seq<Peer>, now: int, host: string)
    ensures host in DueHosts(cache, peers, now) <==>
            exists p <- peers :: Hex(p.host) == host && Askable(p)
                && (if host in cache then cache[host].next else 0) <= now
  {
    hide Hex;
    if host in DueHosts(cache, peers, now) {
      var p :| p in peers && Due(cache, p, now) && HostKey(p.host) == host;
      assert Hex(p.host) == host && Askable(p);
    }
    if exists p <- peers :: Hex(p.host) == host && Askable(p)
        && (if host in cache then cache[host].next else 0) <= now {
      var p :| p in peers && Hex(p.host) == host && Askable(p)
          && (if host in cache then cache[host].next else 0) <= now;
      assert Due(cache, p, now) && HostKey(p.host) == host;
    }
  }

  lemma DueStep(cache: map<string, Cached>, peers: seq<Peer>, p: Peer, now: int)
    ensures DueHosts(cache, peers + [p], now) == DueHosts(cache, peers, now) +
              if Due(cache, p, now) then {HostKey(p.host)} else {}
  {
    forall k | k in DueHosts(cache, peers + [p], now)
      ensures k in DueHosts(cache, peers, now) || (Due(cache, p, now) && k == HostKey(p.host))
    {
      var q :| q in peers + [p] && Due(cache, q, now) && HostKey(q.host) == k;
    }
    forall k | k in DueHosts(cache, peers, now) ensures k in DueHosts(cache, peers + [p], now) {
      var q :| q in peers && Due(cache, q, now) && HostKey(q.host) == k;
      assert q in peers + [p];
    }
    assert p in peers + [p];
  }

  predicate AtMost(a: string, b: string) { a == b || Less(a, b) }

  /** s is the first due host after the cursor, or the first of all when none comes after. */
  ghost predicate IsNext(due: set<string>, cursor: string, s: string) {
    && s in due
    && if exists k <- due :: Less(cursor, k)
       then Less(cursor, s) && forall k <- due :: Less(cursor, k) ==> AtMost(s, k)
       else forall k <- due :: AtMost(s, k)
  }

  lemma HostOrder()
    ensures WeakOrder((a: Peer, b: Peer) => Less(HostKey(a.host), HostKey(b.host)))
  {
    forall a: Peer ensures !Less(HostKey(a.host), HostKey(a.host)) { LessIrreflexive(HostKey(a.host)); }
    forall a: Peer, b: Peer, c: Peer | Less(HostKey(a.host), HostKey(b.host)) && Less(HostKey(b.host), HostKey(c.host))
      ensures Less(HostKey(a.host), HostKey(c.host))
    {
      LessTransitive(HostKey(a.host), HostKey(b.host), HostKey(c.host));
    }
    forall a: Peer, b: Peer, c: Peer | Less(HostKey(a.host), HostKey(c.host))
      ensures Less(HostKey(a.host), HostKey(b.host)) || Less(HostKey(b.host), HostKey(c.host))
    {
      LessTotal(HostKey(a.host), HostKey(b.host));
    }
  }

  /** The scan over the peers sorted by host key. */
  method Select(cache: map<string, Cached>, peers: seq<Peer>, cursor: string, now: int)
    returns (selected: Results.Option<Peer>)
    ensures selected.None? <==> DueHosts(cache, peers, now) == {}
    ensures selected.Some? ==>
              && selected.value in peers && Eligibility(selected.value) == PENDING
              && IsNext(DueHosts(cache, peers, now), cursor, HostKey(selected.value.host))
  {
    hide Hex, HostKey, Less, Eligibility, AtMost;
    HostOrder();
    var sorted := Sort((a: Peer, b: Peer) => Less(HostKey(a.host), HostKey(b.host)), peers);
    MembersOfSame(sorted, peers);
    ghost var due := DueHosts(cache, peers, now);
    assert due == DueHosts(cache, sorted, now);
    selected := Results.None;
    var i := 0;
    while i < |sorted|
      invariant 0 <= i <= |sorted|
      invariant DueHosts(cache, sorted[..i], now) == {} <==> selected.None?
      invariant forall k <- DueHosts(cache, sorted[..i], now) :: !Less(cursor, k)
      invariant selected.Some? ==>
                  && selected.value in sorted && Eligibility(selected.value) == PENDING
                  && HostKey(selected.value.host) in due
                  && forall k <- due :: AtMost(HostKey(selected.value.host), k)
    {
      var p := sorted[i];
      var key := HostKey(p.host);
      assert sorted[..i + 1] == sorted[..i] + [p];
      DueStep(cache, sorted[..i], p, now);
      if Eligibility(p) == PENDING && EntryOf(cache, key).next <= now {
        assert key in due;
        RestNotBefore(sorted, i);
        if selected.None? {
          selected := Results.Some(p);
          FirstDueIsLeast(cache, sorted, now, i);
        }
        if Less(cursor, key) {
          FirstAfterCursor(cache, sorted, now, cursor, i);
          return Results.Some(p);
        }
      }
      i := i + 1;
    }
    assert sorted[..i] == sorted;
  }

  lemma RestNotBefore(sorted: seq<Peer>, i: nat)
    requires SortedBy((a: Peer, b: Peer) => Less(HostKey(a.host), HostKey(b.host)), sorted) && i < |sorted|
    ensures forall q <- sorted[i..] :: AtMost(HostKey(sorted[i].host), HostKey(q.host))
  {
    var less := (a: Peer, b: Peer) => Less(HostKey(a.host), HostKey(b.host));
    forall q | q in sorted[i..] ensures AtMost(HostKey(sorted[i].host), HostKey(q.host)) {
      var k :| 0 <= k < |sorted[i..]| && sorted[i..][k] == q;
      assert sorted[i + k] == q && (k > 0 ==> !less(sorted[i + k], sorted[i]));
      LessTotal(HostKey(sorted[i].host), HostKey(q.host));
    }
  }

  lemma FirstDueIsLeast(cache: map<string, Cached>, sorted: seq<Peer>, now: int, i: nat)
    requires SortedBy((a: Peer, b: Peer) => Less(HostKey(a.host), HostKey(b.host)), sorted) && i < |sorted|
    requires DueHosts(cache, sorted[..i], now) == {}
    ensures forall k <- DueHosts(cache, sorted, now) :: AtMost(HostKey(sorted[i].host), k)
  {
    hide Hex, HostKey, Less, Eligibility;
    RestNotBefore(sorted, i);
    var head := sorted[..i];
    var early := DueHosts(cache, head, now);
    forall k | k in DueHosts(cache, sorted, now) ensures AtMost(HostKey(sorted[i].host), k) {
      var p :| p in sorted && Due(cache, p, now) && HostKey(p.host) == k;
      assert p in head ==> k in early;
      assert sorted == head + sorted[i..];
    }
  }

  lemma FirstAfterCursor(cache: map<string, Cached>, sorted: seq<Peer>, now: int, cursor: string, i: nat)
    requires SortedBy((a: Peer, b: Peer) => Less(HostKey(a.host), HostKey(b.host)), sorted) && i < |sorted|
    requires forall k <- DueHosts(cache, sorted[..i], now) :: !Less(cursor, k)
    requires Less(cursor, HostKey(sorted[i].host)) && HostKey(sorted[i].host) in DueHosts(cache, sorted, now)
    ensures IsNext(DueHosts(cache, sorted, now), cursor, HostKey(sorted[i].host))
  {
    hide Hex, HostKey, Less, Eligibility, AtMost;
    RestNotBefore(sorted, i);
    var head := sorted[..i];
    var early := DueHosts(cache, head, now);
    forall k | k in DueHosts(cache, sorted, now) && Less(cursor, k) ensures AtMost(HostKey(sorted[i].host), k) {
      var p :| p in sorted && Due(cache, p, now) && HostKey(p.host) == k;
      assert p in head ==> k in early;
      assert sorted == head + sorted[i..];
    }
  }
}
