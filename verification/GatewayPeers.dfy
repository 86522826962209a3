/** Decoding the status and the peers a gateway lists: every field checked, no host and no endpoint twice. */
module GatewayPeers {
  import opened Results
  import opened Numerals
  import NetworkRates
  import opened GatewayText

  const MAX_LIST := 64
  const INT32_MAX := 0x7fff_ffff
  const ZERO_ID := "00000000000000000000000000000000"

  datatype TypeIdentity = TypeIdentity(typeId: Uint64, schemaId: Uint64, encodingId: int, payloadSize: int)

  datatype GatewayEndpoint = GatewayEndpoint(identity: NetworkRates.RouteEndpoint,
                                             application: NetworkRates.RouteEndpoint, hostName: string,
                                             applicationName: string, elementName: string, name: string, kind: int,
                                             role: int, scope: int, types: seq<TypeIdentity>, groups: seq<string>)

  datatype GatewayPeer = GatewayPeer(host: string, boot: string, session: Uint64, state: string, address: string,
                                     metadataPort: int, metadataRevision: Uint64, metadataReady: bool,
                                     endpoints: seq<GatewayEndpoint>)

  datatype GatewayStatus = GatewayStatus(state: string, host: string, boot: string, session: Uint64,
                                         interfaceName: string, ipv4: string, interfaceIndex: int,
                                         lastNetworkError: int)

  // ---- Fields ----

  function Field(j: Json, key: string): Result<Json> {
    if j.Obj? && key in j.fields then Ok(j.fields[key]) else Refused()
  }

  function Require(b: bool): Result<bool> { if b then Ok(b) else Refused() }

  function StringAt(j: Json, key: string): Result<string> {
    var f :- Field(j, key);
    if f.Str? then Ok(f.s) else Refused()
  }

  function TextAt(j: Json, key: string): Result<string> {
    var f :- Field(j, key);
    TextOf(f)
  }

  function DecimalAt(j: Json, key: string): Result<Uint64> {
    var f :- Field(j, key);
    Decimal(f)
  }

  function IntegerAt(j: Json, key: string, low: int, high: int): Result<int> {
    var f :- Field(j, key);
    Integer(f, low, high)
  }

  function IdAt(j: Json, key: string, zero: bool): Result<string> {
    var f :- Field(j, key);
    IdOf(f, zero)
  }

  function BooleanAt(j: Json, key: string): Result<bool> {
    var f :- Field(j, key);
    if f.Bool? then Ok(f.b) else Refused()
  }

  function ListAt(j: Json, key: string): Result<seq<Json>> {
    var f :- Field(j, key);
    if f.Arr? && |f.items| <= MAX_LIST then Ok(f.items) else Refused()
  }

  // ---- Records ----

  /** A runtime names a process fully; only the application of an endpoint may be absent, and then every part
      is zero. */
  function Runtime(j: Json, application: bool): Result<NetworkRates.RouteEndpoint> {
    var host :- IdAt(j, "host", application);
    var boot :- IdAt(j, "boot", application);
    var pid :- IntegerAt(j, "pid", if application then 0 else 1, INT32_MAX);
    var ticks :- DecimalAt(j, "start_ticks");
    var whole := if pid == 0 then host == ZERO_ID && boot == ZERO_ID && ticks == 0
                 else ticks != 0 && host != ZERO_ID && boot != ZERO_ID;
    if whole && -0x8000_0000 <= pid < 0x8000_0000
    then Ok(NetworkRates.RouteEndpoint(host, boot, pid, ticks, 0))
    else Refused()
  }

  lemma RuntimeWhole(j: Json, application: bool)
    requires Runtime(j, application).Ok?
    ensures var r := Runtime(j, application).value;
            && IsCanonicalId(r.hostId) && IsCanonicalId(r.bootId)
            && if application && r.pid == 0 then r == NetworkRates.RouteEndpoint(ZERO_ID, ZERO_ID, 0, 0, 0)
            else r.pid > 0 && r.startTicks != 0 && r.hostId != ZERO_ID && r.bootId != ZERO_ID
  {
    IdIsCanonical(j.fields["host"].s, application);
    IdIsCanonical(j.fields["boot"].s, application);
  }

  function TypeAt(j: Json, key: string): Result<TypeIdentity> {
    var t :- Field(j, key);
    var typeId :- DecimalAt(t, "type_id");
    var schemaId :- DecimalAt(t, "schema_id");
    var encodingId :- IntegerAt(t, "encoding_id", 0, TWO_32 - 1);
    var payloadSize :- IntegerAt(t, "payload_size", 0, TWO_32 - 1);
    Ok(TypeIdentity(typeId, schemaId, encodingId, payloadSize))
  }

  function Texts(items: seq<Json>): Result<seq<string>> {
    if items == [] then Ok([]) else
      var before :- Texts(items[..|items| - 1]);
      var last :- TextOf(items[|items| - 1]);
      Ok(before + [last])
  }

  method ReadTexts(items: seq<Json>) returns (r: Result<seq<string>>)
    ensures r == Texts(items)
  {
    var texts := [];
    for i := 0 to |items|
      invariant Texts(items[..i]) == Ok(texts)
    {
      assert items[..i + 1][..i] == items[..i];
      var t := Text(items[i]);
      if t.Err? {
        TextsFail(items, i + 1);
        return t.PropagateFailure();
      }
      texts := texts + [t.value];
    }
    assert items[..|items|] == items;
    r := Ok(texts);
  }

  lemma {:induction false} TextsFail(items: seq<Json>, n: nat)
    requires n <= |items| && Texts(items[..n]).Err?
    ensures Texts(items) == Err(EPROTO)
    decreases |items| - n
  {
    if n == |items| {
      assert items[..n] == items;
      TextsCode(items);
    } else {
      assert items[..n + 1][..n] == items[..n];
      TextsFail(items, n + 1);
    }
  }

  lemma {:induction false} TextsCode(items: seq<Json>)
    ensures Texts(items).Err? ==> Texts(items).code == EPROTO
  {
    if items != [] { TextsCode(items[..|items| - 1]); }
  }

  function GroupsAt(e: Json): Result<seq<string>> {
    var items :- ListAt(e, "groups");
    Texts(items)
  }

  /** An endpoint of a peer: registered, on the peer's own host and boot, with a rooted name. */
  function EndpointOf(e: Json, host: string, boot: string): Result<GatewayEndpoint> {
    EndpointWith(e, host, boot, GroupsAt(e))
  }

  /** The endpoint, once its groups were read. */
  function EndpointWith(e: Json, host: string, boot: string, read: Result<seq<string>>): Result<GatewayEndpoint> {
    var runtimeJson :- Field(e, "runtime");
    var runtime :- Runtime(runtimeJson, false);
    var registration :- DecimalAt(e, "registration_id");
    var _ :- Require(registration != 0 && runtime.hostId == host && runtime.bootId == boot);
    var applicationJson :- Field(e, "application");
    var application :- Runtime(applicationJson, true);
    var hostName :- TextAt(e, "host_name");
    var applicationName :- TextAt(e, "application_name");
    var elementName :- TextAt(e, "element_name");
    var name :- TextAt(e, "name");
    var _ :- Require(name != "" && name[0] == '/');
    var kind :- IntegerAt(e, "kind", 1, 4);
    var role :- IntegerAt(e, "role", 1, 2);
    var scope :- IntegerAt(e, "scope", 0, 1);
    var valueType :- TypeAt(e, "value_type");
    var requestType :- TypeAt(e, "request_type");
    var responseType :- TypeAt(e, "response_type");
    var feedbackType :- TypeAt(e, "feedback_type");
    var groups :- read;
    Ok(GatewayEndpoint(runtime.(registrationId := registration), application, hostName, applicationName, elementName,
                       name, kind, role, scope, [valueType, requestType, responseType, feedbackType], groups))
  }

  /** The fields of a peer other than its endpoints; ipv4 is inet_pton's verdict on an address. */
  function PeerHead(p: Json, ipv4: string -> bool): Result<GatewayPeer> {
    var host :- IdAt(p, "host", false);
    var boot :- IdAt(p, "boot", false);
    var session :- DecimalAt(p, "session");
    var _ :- Require(session != 0);
    var state :- StringAt(p, "state");
    var _ :- Require(state == "ONLINE" || state == "LOST");
    var address :- StringAt(p, "address");
    var _ :- Require(ipv4(address));
    var port :- IntegerAt(p, "metadata_port", 1, 65535);
    var revision :- DecimalAt(p, "metadata_revision");
    var ready :- BooleanAt(p, "metadata_ready");
    Ok(GatewayPeer(host, boot, session, state, address, port, revision, ready, []))
  }

  function Status(j: Json, ipv4: string -> bool): Result<GatewayStatus> {
    var state :- StringAt(j, "state");
    var _ :- Require(state == "WAITING_NETWORK" || state == "REBINDING" || state == "RUNNING" || state == "ERROR");
    var host :- IdAt(j, "host", false);
    var boot :- IdAt(j, "boot", false);
    var session :- DecimalAt(j, "session");
    var interfaceName :- TextAt(j, "interface");
    var address :- StringAt(j, "ipv4");
    var index :- IntegerAt(j, "interface_index", 0, TWO_32 - 1);
    var error :- IntegerAt(j, "last_error", -0x8000_0000, 0);
    var _ :- Require(address == "" || ipv4(address));
    var _ :- Require(state == "RUNNING" ==> session != 0 && interfaceName != "" && address != "" && index != 0);
    Ok(GatewayStatus(state, host, boot, session, interfaceName, address, index, error))
  }

  // ---- Uniqueness ----

  function IdentityText(e: NetworkRates.RouteEndpoint): string {
    PrintInt(e.pid) + ":" + PrintInt(e.startTicks) + ":" + PrintInt(e.registrationId)
  }

  lemma IdentityTextInjective(a: NetworkRates.RouteEndpoint, b: NetworkRates.RouteEndpoint)
    requires IdentityText(a) == IdentityText(b)
    ensures a.pid == b.pid && a.startTicks == b.startTicks && a.registrationId == b.registrationId
  {
    PrintIntColonFree(a.registrationId);
    PrintIntColonFree(b.registrationId);
    PrintIntColonFree(a.startTicks);
    PrintIntColonFree(b.startTicks);
    SplitLast(PrintInt(a.pid) + ":" + PrintInt(a.startTicks), PrintInt(a.registrationId),
              PrintInt(b.pid) + ":" + PrintInt(b.startTicks), PrintInt(b.registrationId));
    SplitLast(PrintInt(a.pid), PrintInt(a.startTicks), PrintInt(b.pid), PrintInt(b.startTicks));
    PrintIntInjective(a.pid, b.pid);
    PrintIntInjective(a.startTicks, b.startTicks);
    PrintIntInjective(a.registrationId, b.registrationId);
  }

  predicate DistinctIdentities(es: seq<GatewayEndpoint>) {
    forall i, j :: 0 <= i < j < |es| ==> es[i].identity != es[j].identity
  }

  predicate DistinctHosts(ps: seq<GatewayPeer>) {
    forall i, j :: 0 <= i < j < |ps| ==> ps[i].host != ps[j].host
  }

  // ---- What the answer means ----

  ghost predicate AreEndpoints(items: seq<Json>, host: string, boot: string, es: seq<GatewayEndpoint>) {
    && |es| == |items| && (forall i :: 0 <= i < |items| ==> EndpointOf(items[i], host, boot) == Ok(es[i]))
    && DistinctIdentities(es)
  }

  ghost predicate IsPeer(p: Json, ipv4: string -> bool, v: GatewayPeer) {
    && PeerHead(p, ipv4) == Ok(v.(endpoints := [])) && ListAt(p, "endpoints").Ok?
    && AreEndpoints(ListAt(p, "endpoints").value, v.host, v.boot, v.endpoints)
  }

  ghost predicate ArePeers(items: seq<Json>, ipv4: string -> bool, ps: seq<GatewayPeer>) {
    && |ps| == |items| && (forall i :: 0 <= i < |items| ==> IsPeer(items[i], ipv4, ps[i])) && DistinctHosts(ps)
  }

  ghost predicate IsPeerList(j: Json, ipv4: string -> bool, ps: seq<GatewayPeer>) {
    ListAt(j, "peers").Ok? && ArePeers(ListAt(j, "peers").value, ipv4, ps)
  }

  method Endpoint(e: Json, host: string, boot: string) returns (r: Result<GatewayEndpoint>)
    ensures r == EndpointOf(e, host, boot)
  {
    hide EndpointWith, Texts;
    var items := ListAt(e, "groups");
    if items.Err? { return EndpointWith(e, host, boot, Err(items.code)); }
    var read := ReadTexts(items.value);
    r := EndpointWith(e, host, boot, read);
  }

  method Endpoints(items: seq<Json>, host: string, boot: string) returns (r: Result<seq<GatewayEndpoint>>)
    ensures r.Ok? ==> AreEndpoints(items, host, boot, r.value)
    ensures r.Err? ==> r.code == EPROTO && forall es :: !AreEndpoints(items, host, boot, es)
  {
    hide EndpointOf, IdentityText;
    var (es, identities) := ([], {});
    for i := 0 to |items|
      invariant |es| == i && forall k :: 0 <= k < i ==> EndpointOf(items[k], host, boot) == Ok(es[k])
      invariant DistinctIdentities(es) && identities == set e | e in es :: IdentityText(e.identity)
    {
      var ep := Endpoint(items[i], host, boot);
      if ep.Err? { return Refused(); }
      var key := IdentityText(ep.value.identity);
      if key in identities {
        var e :| e in es && IdentityText(e.identity) == key;
        var k :| 0 <= k < |es| && es[k] == e;
        SameHome(items[k], items[i], host, boot);
        forall other: seq<GatewayEndpoint> ensures !AreEndpoints(items, host, boot, other) {
          EndpointsRepeat(items, host, boot, other, k, i);
        }
        return Refused();
      }
      forall k | 0 <= k < i ensures es[k].identity != ep.value.identity { assert es[k] in es; }
      es, identities := es + [ep.value], identities + {key};
    }
    r := Ok(es);
  }

  lemma EndpointsRepeat(items: seq<Json>, host: string, boot: string, es: seq<GatewayEndpoint>, k: nat, i: nat)
    requires k < i < |items| && EndpointOf(items[k], host, boot).Ok? && EndpointOf(items[i], host, boot).Ok?
    requires EndpointOf(items[k], host, boot).value.identity == EndpointOf(items[i], host, boot).value.identity
    ensures !AreEndpoints(items, host, boot, es)
  {
    hide EndpointOf;
    if |es| == |items| && EndpointOf(items[k], host, boot) == Ok(es[k])
       && EndpointOf(items[i], host, boot) == Ok(es[i]) {
      assert es[k].identity == es[i].identity;
    }
  }

  /** Both endpoints are on the peer's host and boot, so equal keys mean equal identities. */
  lemma SameHome(a: Json, b: Json, host: string, boot: string)
    requires EndpointOf(a, host, boot).Ok? && EndpointOf(b, host, boot).Ok?
    requires IdentityText(EndpointOf(a, host, boot).value.identity) ==
               IdentityText(EndpointOf(b, host, boot).value.identity)
    ensures EndpointOf(a, host, boot).value.identity == EndpointOf(b, host, boot).value.identity
  {
    hide IdentityText, Runtime, GroupsAt, TypeAt, TextAt, IntegerAt, DecimalAt;
    IdentityTextInjective(EndpointOf(a, host, boot).value.identity, EndpointOf(b, host, boot).value.identity);
  }

  lemma AtHome(e: Json, host: string, boot: string)
    requires EndpointOf(e, host, boot).Ok?
    ensures EndpointOf(e, host, boot).value.identity.hostId == host
    ensures EndpointOf(e, host, boot).value.identity.bootId == boot
    ensures EndpointOf(e, host, boot).value.identity.registrationId != 0
  {
    hide Runtime, GroupsAt, TypeAt, TextAt, IntegerAt, DecimalAt;
  }

  method Peer(p: Json, ipv4: string -> bool) returns (r: Result<GatewayPeer>)
    ensures r.Ok? ==> IsPeer(p, ipv4, r.value)
    ensures r.Err? ==> r.code == EPROTO && forall v :: !IsPeer(p, ipv4, v)
  {
    hide PeerHead, ListAt, AreEndpoints;
    var head := PeerHead(p, ipv4);
    var items := ListAt(p, "endpoints");
    if head.Err? || items.Err? { return Refused(); }
    HeadIsBare(p, ipv4);
    var es := Endpoints(items.value, head.value.host, head.value.boot);
    if es.Err? {
      forall v: GatewayPeer ensures !IsPeer(p, ipv4, v) {
        assert v.host == v.(endpoints := []).host && v.boot == v.(endpoints := []).boot;
      }
      return Refused();
    }
    r := Ok(head.value.(endpoints := es.value));
  }

  lemma HeadIsBare(p: Json, ipv4: string -> bool)
    requires PeerHead(p, ipv4).Ok?
    ensures PeerHead(p, ipv4).value.endpoints == []
  {
    hide IdAt, DecimalAt, StringAt, IntegerAt, BooleanAt;
  }

  lemma PeerUnique(p: Json, ipv4: string -> bool, v: GatewayPeer, w: GatewayPeer)
    requires IsPeer(p, ipv4, v) && IsPeer(p, ipv4, w)
    ensures v == w
  {
    hide PeerHead, ListAt, EndpointOf;
    assert v.(endpoints := []) == w.(endpoints := []);
    assert v.host == v.(endpoints := []).host == w.host && v.boot == v.(endpoints := []).boot == w.boot;
    assert v.endpoints == w.endpoints;
    assert v == v.(endpoints := []).(endpoints := v.endpoints);
  }

  /** The peers exactly when every entry is well formed and no host and no endpoint repeats; otherwise a refusal. */
  method Peers(j: Json, ipv4: string -> bool) returns (r: Result<seq<GatewayPeer>>)
    ensures r.Ok? ==> IsPeerList(j, ipv4, r.value)
    ensures r.Err? ==> r.code == EPROTO && forall ps :: !IsPeerList(j, ipv4, ps)
  {
    hide IsPeer, ListAt;
    var list := ListAt(j, "peers");
    if list.Err? { return Refused(); }
    var items := list.value;
    var (ps, hosts) := ([], {});
    for i := 0 to |items|
      invariant |ps| == i && forall k :: 0 <= k < i ==> IsPeer(items[k], ipv4, ps[k])
      invariant DistinctHosts(ps) && (forall k :: 0 <= k < i ==> ps[k].host in hosts)
      invariant forall h :: h in hosts ==> exists k :: 0 <= k < i && ps[k].host == h
    {
      var v := Peer(items[i], ipv4);
      if v.Err? { return Refused(); }
      if v.value.host in hosts {
        var k :| 0 <= k < i && ps[k].host == v.value.host;
        forall other: seq<GatewayPeer> ensures !ArePeers(items, ipv4, other) {
          if ArePeers(items, ipv4, other) {
            PeerUnique(items[k], ipv4, ps[k], other[k]);
            PeerUnique(items[i], ipv4, v.value, other[i]);
          }
        }
        return Refused();
      }
      ps, hosts := ps + [v.value], hosts + {v.value.host};
    }
    r := Ok(ps);
  }

  /** An accepted answer never holds one endpoint identity twice, within a peer or across peers. */
  lemma IdentitiesDistinct(j: Json, ipv4: string -> bool, ps: seq<GatewayPeer>, a: nat, i: nat, b: nat, k: nat)
    requires IsPeerList(j, ipv4, ps)
    requires a < |ps| && b < |ps| && i < |ps[a].endpoints| && k < |ps[b].endpoints|
    requires ps[a].endpoints[i].identity == ps[b].endpoints[k].identity
    ensures a == b && i == k
  {
    hide EndpointOf, ListAt, PeerHead;
    var items := ListAt(j, "peers").value;
    assert IsPeer(items[a], ipv4, ps[a]) && IsPeer(items[b], ipv4, ps[b]);
    AtHome(ListAt(items[a], "endpoints").value[i], ps[a].host, ps[a].boot);
    AtHome(ListAt(items[b], "endpoints").value[k], ps[b].host, ps[b].boot);
    assert ps[a].host == ps[b].host;
  }
}
