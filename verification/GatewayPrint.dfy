/** Printing a status and a list of peers as the gateway does, and reading them back. */
module GatewayPrint {
  import opened Results
  import Numerals
  import NetworkRates
  import opened GatewayText
  import opened GatewayPeers
  import opened GatewayFormat

  // ---- Well-formed values ----

  predicate IsId(id: string) { IsCanonicalId(id) && id != ZERO_ID }

  predicate IsText(s: string) { IsBytes(s) && |Escape(s)| <= MAX_TEXT }

  predicate IsRuntime(r: NetworkRates.RouteEndpoint) {
    IsId(r.hostId) && IsId(r.bootId) && 1 <= r.pid && r.startTicks != 0
  }

  /** A process, or none at all. */
  predicate IsApplication(r: NetworkRates.RouteEndpoint) {
    r.registrationId == 0 && (IsRuntime(r) || r == NetworkRates.RouteEndpoint(ZERO_ID, ZERO_ID, 0, 0, 0))
  }

  predicate IsType(t: TypeIdentity) { 0 <= t.encodingId < Numerals.TWO_32 && 0 <= t.payloadSize < Numerals.TWO_32 }

  predicate IsEndpoint(x: GatewayEndpoint, host: string, boot: string) {
    && IsRuntime(x.identity) && x.identity.registrationId != 0 && x.identity.hostId == host && x.identity.bootId == boot
    && IsApplication(x.application)
    && IsText(x.hostName) && IsText(x.applicationName) && IsText(x.elementName) && IsText(x.name) && x.name != ""
    && x.name[0] == '/'
    && 1 <= x.kind <= 4 && 1 <= x.role <= 2 && 0 <= x.scope <= 1
    && |x.types| == 4 && (forall t :: t in x.types ==> IsType(t))
    && |x.groups| <= MAX_LIST && (forall g :: g in x.groups ==> IsText(g))
  }

  predicate IsPeerValue(v: GatewayPeer, ipv4: string -> bool) {
    && IsId(v.host) && IsId(v.boot) && v.session != 0 && v.state in {"ONLINE", "LOST"} && ipv4(v.address)
    && 1 <= v.metadataPort <= 65535
    && |v.endpoints| <= MAX_LIST && (forall i :: 0 <= i < |v.endpoints| ==> IsEndpoint(v.endpoints[i], v.host, v.boot))
    && DistinctIdentities(v.endpoints)
  }

  predicate ArePeerValues(ps: seq<GatewayPeer>, ipv4: string -> bool) {
    |ps| <= MAX_LIST && (forall i :: 0 <= i < |ps| ==> IsPeerValue(ps[i], ipv4)) && DistinctHosts(ps)
  }

  predicate IsStatus(v: GatewayStatus, ipv4: string -> bool) {
    && v.state in {"WAITING_NETWORK", "REBINDING", "RUNNING", "ERROR"} && IsId(v.host) && IsId(v.boot)
    && IsText(v.interfaceName) && (v.ipv4 == "" || ipv4(v.ipv4))
    && 0 <= v.interfaceIndex < Numerals.TWO_32 && -0x8000_0000 <= v.lastNetworkError <= 0
    && (v.state == "RUNNING" ==> v.session != 0 && v.interfaceName != "" && v.ipv4 != "" && v.interfaceIndex != 0)
  }

  // ---- Printing ----

  function NumberJson(n: Numerals.Uint64): Json { Str(Numerals.Print(n)) }

  function TextJson(s: string): Json
    requires IsText(s)
  {
    Str(Escape(s))
  }

  function RuntimeJson(r: NetworkRates.RouteEndpoint): Json {
    Obj(map["host" := Str(r.hostId), "boot" := Str(r.bootId), "pid" := Int(r.pid),
            "start_ticks" := NumberJson(r.startTicks)])
  }

  function TypeJson(t: TypeIdentity): Json {
    Obj(map["type_id" := NumberJson(t.typeId), "schema_id" := NumberJson(t.schemaId),
            "encoding_id" := Int(t.encodingId),
            "payload_size" := Int(t.payloadSize)])
  }

  function TextsJson(texts: seq<string>): Json
    requires forall t :: t in texts ==> IsText(t)
  {
    Arr(seq(|texts|, i requires 0 <= i < |texts| => TextJson(texts[i])))
  }

  function EndpointJson(x: GatewayEndpoint, host: string, boot: string): Json
    requires IsEndpoint(x, host, boot)
  {
    Obj(map["runtime" := RuntimeJson(x.identity), "registration_id" := NumberJson(x.identity.registrationId),
            "application" := RuntimeJson(x.application),
            "host_name" := TextJson(x.hostName), "application_name" := TextJson(x.applicationName),
            "element_name" := TextJson(x.elementName), "name" := TextJson(x.name),
            "kind" := Int(x.kind), "role" := Int(x.role), "scope" := Int(x.scope),
            "value_type" := TypeJson(x.types[0]), "request_type" := TypeJson(x.types[1]),
            "response_type" := TypeJson(x.types[2]), "feedback_type" := TypeJson(x.types[3]),
            "groups" := TextsJson(x.groups)])
  }

  function PeerJson(v: GatewayPeer, ipv4: string -> bool): Json
    requires IsPeerValue(v, ipv4)
  {
    Obj(map["host" := Str(v.host), "boot" := Str(v.boot), "session" := NumberJson(v.session), "state" := Str(v.state),
            "address" := Str(v.address), "metadata_port" := Int(v.metadataPort),
            "metadata_revision" := NumberJson(v.metadataRevision), "metadata_ready" := Bool(v.metadataReady),
            "endpoints" := Arr(seq(|v.endpoints|,
                                   i requires 0 <= i < |v.endpoints| => EndpointJson(v.endpoints[i], v.host, v.boot)))])
  }

  function PeersJson(ps: seq<GatewayPeer>, ipv4: string -> bool): Json
    requires ArePeerValues(ps, ipv4)
  {
    Obj(map["peers" := Arr(seq(|ps|, i requires 0 <= i < |ps| => PeerJson(ps[i], ipv4)))])
  }

  function StatusJson(v: GatewayStatus, ipv4: string -> bool): Json
    requires IsStatus(v, ipv4)
  {
    Obj(map["state" := Str(v.state), "host" := Str(v.host), "boot" := Str(v.boot), "session" := NumberJson(v.session),
            "interface" := TextJson(v.interfaceName), "ipv4" := Str(v.ipv4), "interface_index" := Int(v.interfaceIndex),
            "last_error" := Int(v.lastNetworkError)])
  }

  // ---- Reading back ----

  lemma NumberSpelled(j: Json, key: string, n: Numerals.Uint64)
    requires Has(j, key, NumberJson(n))
    ensures SpellsNumber(j, key, n)
  {
    Numerals.TwentyDigits(n);
    Numerals.PrintIsNumeral(n);
  }

  lemma IdSpelled(j: Json, key: string, id: string, zero: bool)
    requires Has(j, key, Str(id)) && IsCanonicalId(id) && (zero || id != ZERO_ID)
    ensures SpellsId(j, key, id, zero)
  {
    assert Lower(id) == id;
  }

  lemma ZeroIsCanonical()
    ensures IsCanonicalId(ZERO_ID)
  {
  }

  lemma RuntimePrinted(r: NetworkRates.RouteEndpoint, application: bool)
    requires r.registrationId == 0 && if application then IsApplication(r) else IsRuntime(r)
    ensures SpellsRuntime(RuntimeJson(r), r, application)
  {
    hide SpellsId, SpellsNumber;
    var j := RuntimeJson(r);
    ZeroIsCanonical();
    NumberSpelled(j, "start_ticks", r.startTicks);
    IdSpelled(j, "host", r.hostId, application);
    IdSpelled(j, "boot", r.bootId, application);
  }

  lemma TypePrinted(j: Json, key: string, t: TypeIdentity)
    requires Has(j, key, TypeJson(t)) && IsType(t)
    ensures SpellsType(j, key, t)
  {
    hide SpellsNumber;
    NumberSpelled(TypeJson(t), "type_id", t.typeId);
    NumberSpelled(TypeJson(t), "schema_id", t.schemaId);
  }

  lemma GroupsPrinted(j: Json, groups: seq<string>)
    requires |groups| <= MAX_LIST && (forall g :: g in groups ==> IsText(g)) && Has(j, "groups", TextsJson(groups))
    ensures SpellsGroups(j, groups)
  {
    hide Escape;
    forall i | 0 <= i < |groups| ensures IsText(groups[i]) { assert groups[i] in groups; }
  }

  /** The printed fields of an endpoint, each under its own key: who it is and what it is called. */
  lemma EndpointNames(x: GatewayEndpoint, host: string, boot: string)
    requires IsEndpoint(x, host, boot)
    ensures var j := EndpointJson(x, host, boot);
            && Has(j, "runtime", RuntimeJson(x.identity))
            && Has(j, "registration_id", NumberJson(x.identity.registrationId))
            && Has(j, "application", RuntimeJson(x.application)) && Has(j, "host_name", TextJson(x.hostName))
            && Has(j, "application_name", TextJson(x.applicationName))
            && Has(j, "element_name", TextJson(x.elementName)) && Has(j, "name", TextJson(x.name))
  {
    hide TextJson, TypeJson, RuntimeJson, NumberJson, TextsJson, IsText, IsType, IsApplication, IsRuntime;
    DistinctKeys();
  }

  /** And how it communicates. */
  lemma EndpointTypes(x: GatewayEndpoint, host: string, boot: string)
    requires IsEndpoint(x, host, boot)
    ensures var j := EndpointJson(x, host, boot);
            && Has(j, "kind", Int(x.kind)) && Has(j, "role", Int(x.role)) && Has(j, "scope", Int(x.scope))
            && Has(j, "value_type", TypeJson(x.types[0])) && Has(j, "request_type", TypeJson(x.types[1]))
            && Has(j, "response_type", TypeJson(x.types[2])) && Has(j, "feedback_type", TypeJson(x.types[3]))
            && Has(j, "groups", TextsJson(x.groups))
  {
    hide TextJson, TypeJson, RuntimeJson, NumberJson, TextsJson, IsText, IsType, IsApplication, IsRuntime;
    DistinctKeys();
  }

  /** Keys of the same length differ in a letter. */
  lemma DistinctKeys()
    ensures "name"[0] != "kind"[0] && "name"[0] != "role"[0] && "kind"[0] != "role"[0]
    ensures "request_type"[0] != "element_name"[0] && "response_type"[0] != "feedback_type"[0]
  {
  }

  lemma EndpointPrinted(x: GatewayEndpoint, host: string, boot: string)
    requires IsEndpoint(x, host, boot)
    ensures EndpointOf(EndpointJson(x, host, boot), host, boot) == Ok(x)
  {
    hide EndpointJson, RuntimeJson, TypeJson, NumberJson, TextsJson, EndpointOf, SpellsRuntime, SpellsType,
         SpellsNumber, SpellsGroups, Escape,
         IsType, IsRuntime, IsApplication;
    var j := EndpointJson(x, host, boot);
    EndpointNames(x, host, boot);
    EndpointTypes(x, host, boot);
    OwnRuntime(x.identity);
    RuntimePrinted(x.identity.(registrationId := 0), false);
    ApplicationNumber(x.application);
    RuntimePrinted(x.application, true);
    NumberSpelled(j, "registration_id", x.identity.registrationId);
    assert x.types[0] in x.types && x.types[1] in x.types && x.types[2] in x.types && x.types[3] in x.types;
    TypePrinted(j, "value_type", x.types[0]);
    TypePrinted(j, "request_type", x.types[1]);
    TypePrinted(j, "response_type", x.types[2]);
    TypePrinted(j, "feedback_type", x.types[3]);
    GroupsPrinted(j, x.groups);
    EndpointExactly(j, host, boot, x);
  }

  lemma OwnRuntime(r: NetworkRates.RouteEndpoint)
    requires IsRuntime(r)
    ensures IsRuntime(r.(registrationId := 0)) && RuntimeJson(r.(registrationId := 0)) == RuntimeJson(r)
  {
  }

  lemma ApplicationNumber(r: NetworkRates.RouteEndpoint)
    requires IsApplication(r)
    ensures r.registrationId == 0
  {
  }

  lemma PeerFields(v: GatewayPeer, ipv4: string -> bool)
    requires IsPeerValue(v, ipv4)
    ensures var j := PeerJson(v, ipv4);
            && Has(j, "host", Str(v.host)) && Has(j, "boot", Str(v.boot)) && Has(j, "session", NumberJson(v.session))
            && Has(j, "state", Str(v.state)) && Has(j, "address", Str(v.address))
            && Has(j, "metadata_port", Int(v.metadataPort))
            && Has(j, "metadata_revision", NumberJson(v.metadataRevision))
            && Has(j, "metadata_ready", Bool(v.metadataReady))
            && ListAt(j, "endpoints") ==
               Ok(seq(|v.endpoints|, i requires 0 <= i < |v.endpoints| => EndpointJson(v.endpoints[i], v.host, v.boot)))
  {
    hide NumberJson, EndpointJson, IsEndpoint, DistinctIdentities, IsId;
    assert "host"[0] != "boot"[0] && "session"[1] != "address"[1];
  }

  lemma PeerPrinted(v: GatewayPeer, ipv4: string -> bool)
    requires IsPeerValue(v, ipv4)
    ensures IsPeer(PeerJson(v, ipv4), ipv4, v)
  {
    hide PeerJson, PeerHead, NumberJson, EndpointJson, EndpointOf, IsEndpoint, SpellsId, SpellsNumber, ListAt;
    var j := PeerJson(v, ipv4);
    PeerFields(v, ipv4);
    IdSpelled(j, "host", v.host, false);
    IdSpelled(j, "boot", v.boot, false);
    NumberSpelled(j, "session", v.session);
    NumberSpelled(j, "metadata_revision", v.metadataRevision);
    HeadExactly(j, ipv4, v.(endpoints := []));
    forall i | 0 <= i < |v.endpoints|
      ensures EndpointOf(EndpointJson(v.endpoints[i], v.host, v.boot), v.host, v.boot) == Ok(v.endpoints[i])
    {
      EndpointPrinted(v.endpoints[i], v.host, v.boot);
    }
  }

  /** Every well-formed list of peers, printed, is accepted as that list. */
  lemma PeersPrinted(ps: seq<GatewayPeer>, ipv4: string -> bool)
    requires ArePeerValues(ps, ipv4)
    ensures IsPeerList(PeersJson(ps, ipv4), ipv4, ps)
  {
    hide PeerJson, IsPeer, IsPeerValue;
    assert ListAt(PeersJson(ps, ipv4), "peers") == Ok(seq(|ps|, i requires 0 <= i < |ps| => PeerJson(ps[i], ipv4)));
    forall i | 0 <= i < |ps| ensures IsPeer(PeerJson(ps[i], ipv4), ipv4, ps[i]) { PeerPrinted(ps[i], ipv4); }
  }

  lemma StatusFields(v: GatewayStatus, ipv4: string -> bool)
    requires IsStatus(v, ipv4)
    ensures var j := StatusJson(v, ipv4);
            && Has(j, "state", Str(v.state)) && Has(j, "host", Str(v.host)) && Has(j, "boot", Str(v.boot))
            && Has(j, "session", NumberJson(v.session)) && Has(j, "interface", TextJson(v.interfaceName))
            && Has(j, "ipv4", Str(v.ipv4)) && Has(j, "interface_index", Int(v.interfaceIndex))
            && Has(j, "last_error", Int(v.lastNetworkError))
  {
    hide NumberJson, TextJson, IsText, IsId;
    assert "host"[0] != "boot"[0] && "host"[0] != "ipv4"[0] && "boot"[0] != "ipv4"[0];
  }

  /** Every well-formed status, printed, is accepted as that status. */
  lemma StatusPrinted(v: GatewayStatus, ipv4: string -> bool)
    requires IsStatus(v, ipv4)
    ensures Status(StatusJson(v, ipv4), ipv4) == Ok(v)
  {
    hide StatusJson, Status, NumberJson, SpellsId, SpellsNumber, Escape;
    var j := StatusJson(v, ipv4);
    StatusFields(v, ipv4);
    IdSpelled(j, "host", v.host, false);
    IdSpelled(j, "boot", v.boot, false);
    NumberSpelled(j, "session", v.session);
    StatusExactly(j, ipv4, v);
  }

  // ---- Only well-formed values are read ----

  lemma SpelledId(j: Json, key: string, id: string, zero: bool)
    requires SpellsId(j, key, id, zero)
    ensures IsCanonicalId(id) && (zero || id != ZERO_ID)
  {
    IdAtExactly(j, key, id, zero);
    IdIsCanonical(j.fields[key].s, zero);
  }

  /** A status is what some document says if and only if it is well-formed. */
  lemma StatusesAccepted(v: GatewayStatus, ipv4: string -> bool)
    ensures (exists j :: Status(j, ipv4) == Ok(v)) <==> IsStatus(v, ipv4)
  {
    hide Status, SpellsId, SpellsNumber, Escape;
    if exists j :: Status(j, ipv4) == Ok(v) {
      var j :| Status(j, ipv4) == Ok(v);
      StatusExactly(j, ipv4, v);
      SpelledId(j, "host", v.host, false);
      SpelledId(j, "boot", v.boot, false);
    }
    if IsStatus(v, ipv4) { StatusPrinted(v, ipv4); }
  }

  lemma SpelledRuntime(j: Json, r: NetworkRates.RouteEndpoint, application: bool)
    requires SpellsRuntime(j, r, application)
    ensures if application then IsApplication(r) else IsRuntime(r)
  {
    hide SpellsId, SpellsNumber;
    SpelledId(j, "host", r.hostId, application);
    SpelledId(j, "boot", r.bootId, application);
  }

  lemma SpelledEndpoint(e: Json, host: string, boot: string, x: GatewayEndpoint)
    requires SpellsEndpoint(e, host, boot, x)
    ensures IsEndpoint(x, host, boot)
  {
    hide SpellsRuntime, SpellsNumber, Escape, IsApplication;
    SpelledRuntime(e.fields["runtime"], x.identity.(registrationId := 0), false);
    SpelledRuntime(e.fields["application"], x.application, true);
    forall t | t in x.types ensures IsType(t) {
      assert t == x.types[0] || t == x.types[1] || t == x.types[2] || t == x.types[3];
    }
  }

  lemma SpelledPeer(p: Json, ipv4: string -> bool, v: GatewayPeer)
    requires SpellsPeer(p, ipv4, v)
    ensures IsPeerValue(v, ipv4)
  {
    hide SpellsId, SpellsNumber, SpellsEndpoint, IsEndpoint;
    SpelledId(p, "host", v.host, false);
    SpelledId(p, "boot", v.boot, false);
    forall i | 0 <= i < |v.endpoints| ensures IsEndpoint(v.endpoints[i], v.host, v.boot) {
      SpelledEndpoint(p.fields["endpoints"].items[i], v.host, v.boot, v.endpoints[i]);
    }
  }

  /** A list of peers is what some document says if and only if it is well-formed. */
  lemma PeerListsAccepted(ps: seq<GatewayPeer>, ipv4: string -> bool)
    ensures (exists j :: IsPeerList(j, ipv4, ps)) <==> ArePeerValues(ps, ipv4)
  {
    hide IsPeerList, SpellsPeer, IsPeerValue;
    if exists j :: IsPeerList(j, ipv4, ps) {
      var j :| IsPeerList(j, ipv4, ps);
      PeersExactly(j, ipv4, ps);
      forall i | 0 <= i < |ps|
        ensures IsPeerValue(ps[i], ipv4)
      {
        SpelledPeer(j.fields["peers"].items[i], ipv4, ps[i]);
      }
    }
    if ArePeerValues(ps, ipv4) { PeersPrinted(ps, ipv4); }
  }
}
