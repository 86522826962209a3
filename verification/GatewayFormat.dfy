/** The gateway's records as they must be spelled: decoding a field accepts its spelling and nothing else. */
module GatewayFormat {
  import opened Results
  import Numerals
  import NetworkRates
  import opened GatewayText
  import opened GatewayPeers

  // ---- Spellings of one field ----

  predicate Has(j: Json, key: string, value: Json) { j.Obj? && key in j.fields && j.fields[key] == value }

  /** Up to twenty digits denoting the number. */
  predicate SpellsNumber(j: Json, key: string, v: Numerals.Uint64) {
    && j.Obj? && key in j.fields && j.fields[key].Str?
    && 0 < |j.fields[key].s| <= 20 && Numerals.AllDigits(j.fields[key].s) && Numerals.Value(j.fields[key].s) == v
  }

  /** The escape of the bytes, within the limit. */
  predicate SpellsText(j: Json, key: string, bytes: string) {
    IsBytes(bytes) && Has(j, key, Str(Escape(bytes))) && |Escape(bytes)| <= MAX_TEXT
  }

  /** The identity's 32 digits in either case; zero only where allowed. */
  predicate SpellsId(j: Json, key: string, id: string, zero: bool) {
    && j.Obj? && key in j.fields && j.fields[key].Str?
    && |j.fields[key].s| == 32 && AllHex(j.fields[key].s) && id == Lower(j.fields[key].s) && (zero || id != ZERO_ID)
  }

  predicate SpellsInteger(j: Json, key: string, v: int, low: int, high: int) { low <= v <= high && Has(j, key, Int(v)) }

  lemma NumberExactly(j: Json, key: string, v: Numerals.Uint64)
    ensures DecimalAt(j, key) == Ok(v) <==> SpellsNumber(j, key, v)
  {
    if j.Obj? && key in j.fields && j.fields[key].Str? { DecimalExactly(j.fields[key].s, v); }
  }

  lemma TextAtExactly(j: Json, key: string, bytes: string)
    ensures TextAt(j, key) == Ok(bytes) <==> SpellsText(j, key, bytes)
  {
    if j.Obj? && key in j.fields && j.fields[key].Str? { TextExactly(j.fields[key].s, bytes); }
  }

  lemma IdAtExactly(j: Json, key: string, id: string, zero: bool)
    ensures IdAt(j, key, zero) == Ok(id) <==> SpellsId(j, key, id, zero)
  {
    if j.Obj? && key in j.fields && j.fields[key].Str? && |j.fields[key].s| == 32 {
      NonzeroLower(j.fields[key].s);
    }
  }

  lemma NonzeroLower(s: string)
    requires |s| == 32
    ensures SomeNonzero(s) <==> Lower(s) != ZERO_ID
  {
    if SomeNonzero(s) {
      var i :| 0 <= i < |s| && s[i] != '0';
      assert Lower(s)[i] != '0' && ZERO_ID[i] == '0';
    } else {
      assert Lower(s) == ZERO_ID;
    }
  }

  /** A list is any array of at most 64 entries under the key. */
  lemma ListExactly(j: Json, key: string, items: seq<Json>)
    ensures ListAt(j, key) == Ok(items) <==> Has(j, key, Arr(items)) && |items| <= 64
  {
  }

  // ---- Spellings of records ----

  predicate SpellsRuntime(j: Json, r: NetworkRates.RouteEndpoint, application: bool) {
    && r.registrationId == 0
    && SpellsId(j, "host", r.hostId, application) && SpellsId(j, "boot", r.bootId, application)
    && SpellsInteger(j, "pid", r.pid, if application then 0 else 1, INT32_MAX)
    && SpellsNumber(j, "start_ticks", r.startTicks)
    && if r.pid == 0 then r.hostId == ZERO_ID && r.bootId == ZERO_ID && r.startTicks == 0
       else r.hostId != ZERO_ID && r.bootId != ZERO_ID && r.startTicks != 0
  }

  lemma RuntimeExactly(j: Json, r: NetworkRates.RouteEndpoint, application: bool)
    ensures Runtime(j, application) == Ok(r) <==> SpellsRuntime(j, r, application)
  {
    hide IdAt, DecimalAt, SpellsId, SpellsNumber;
    IdAtExactly(j, "host", r.hostId, application);
    IdAtExactly(j, "boot", r.bootId, application);
    NumberExactly(j, "start_ticks", r.startTicks);
  }

  predicate SpellsType(j: Json, key: string, t: TypeIdentity) {
    && j.Obj? && key in j.fields
    && SpellsNumber(j.fields[key], "type_id", t.typeId) && SpellsNumber(j.fields[key], "schema_id", t.schemaId)
    && SpellsInteger(j.fields[key], "encoding_id", t.encodingId, 0, Numerals.TWO_32 - 1)
    && SpellsInteger(j.fields[key], "payload_size", t.payloadSize, 0, Numerals.TWO_32 - 1)
  }

  lemma TypeExactly(j: Json, key: string, t: TypeIdentity)
    ensures TypeAt(j, key) == Ok(t) <==> SpellsType(j, key, t)
  {
    hide DecimalAt, SpellsNumber;
    if j.Obj? && key in j.fields {
      NumberExactly(j.fields[key], "type_id", t.typeId);
      NumberExactly(j.fields[key], "schema_id", t.schemaId);
    }
  }

  ghost predicate SpellsTexts(items: seq<Json>, texts: seq<string>) {
    && |items| == |texts|
    && forall i :: 0 <= i < |texts| ==>
         IsBytes(texts[i]) && |Escape(texts[i])| <= MAX_TEXT
         && items[i] == Str(Escape(texts[i]))
  }

  lemma {:induction false} TextsExactly(items: seq<Json>, texts: seq<string>)
    ensures Texts(items) == Ok(texts) <==> SpellsTexts(items, texts)
  {
    hide Escape;
    if items != [] && texts != [] {
      var (n, m) := (|items| - 1, |texts| - 1);
      TextsExactly(items[..n], texts[..m]);
      assert texts == texts[..m] + [texts[m]] && items == items[..n] + [items[n]];
      if items[n].Str? { TextExactly(items[n].s, texts[m]); }
    }
  }

  ghost predicate SpellsGroups(e: Json, groups: seq<string>) {
    && e.Obj? && "groups" in e.fields && e.fields["groups"].Arr? && |groups| <= MAX_LIST
    && SpellsTexts(e.fields["groups"].items, groups)
  }

  lemma GroupsExactly(e: Json, groups: seq<string>)
    ensures (ListAt(e, "groups").Ok? && Texts(ListAt(e, "groups").value) == Ok(groups)) <==> SpellsGroups(e, groups)
  {
    if e.Obj? && "groups" in e.fields && e.fields["groups"].Arr? { TextsExactly(e.fields["groups"].items, groups); }
  }

  /** An endpoint as a peer of that host and boot must list it. */
  ghost predicate SpellsEndpoint(e: Json, host: string, boot: string, x: GatewayEndpoint) {
    && e.Obj? && "runtime" in e.fields && "application" in e.fields
    && SpellsRuntime(e.fields["runtime"], x.identity.(registrationId := 0), false)
    && SpellsRuntime(e.fields["application"], x.application, true)
    && SpellsNumber(e, "registration_id", x.identity.registrationId) && x.identity.registrationId != 0
    && x.identity.hostId == host && x.identity.bootId == boot
    && SpellsText(e, "host_name", x.hostName) && SpellsText(e, "application_name", x.applicationName)
    && SpellsText(e, "element_name", x.elementName) && SpellsText(e, "name", x.name) && x.name != "" && x.name[0] == '/'
    && SpellsInteger(e, "kind", x.kind, 1, 4) && SpellsInteger(e, "role", x.role, 1, 2)
    && SpellsInteger(e, "scope", x.scope, 0, 1)
    && |x.types| == 4 && SpellsType(e, "value_type", x.types[0]) && SpellsType(e, "request_type", x.types[1])
    && SpellsType(e, "response_type", x.types[2]) && SpellsType(e, "feedback_type", x.types[3])
    && SpellsGroups(e, x.groups)
  }

  /** A peer's entry for an endpoint is accepted as that endpoint if and only if it spells it. */
  lemma EndpointExactly(e: Json, host: string, boot: string, x: GatewayEndpoint)
    ensures EndpointOf(e, host, boot) == Ok(x) <==> SpellsEndpoint(e, host, boot, x)
  {
    hide Runtime, SpellsRuntime, DecimalAt, SpellsNumber, TextAt, SpellsText, TypeAt, SpellsType, Texts, SpellsGroups,
         ListAt;
    var own := x.identity.(registrationId := 0);
    if e.Obj? && "runtime" in e.fields { RuntimeExactly(e.fields["runtime"], own, false); }
    if e.Obj? && "application" in e.fields { RuntimeExactly(e.fields["application"], x.application, true); }
    NumberExactly(e, "registration_id", x.identity.registrationId);
    TextAtExactly(e, "host_name", x.hostName);
    TextAtExactly(e, "application_name", x.applicationName);
    TextAtExactly(e, "element_name", x.elementName);
    TextAtExactly(e, "name", x.name);
    if |x.types| == 4 {
      assert x.types == [x.types[0], x.types[1], x.types[2], x.types[3]];
      TypeExactly(e, "value_type", x.types[0]);
      TypeExactly(e, "request_type", x.types[1]);
      TypeExactly(e, "response_type", x.types[2]);
      TypeExactly(e, "feedback_type", x.types[3]);
    }
    GroupsExactly(e, x.groups);
    if EndpointOf(e, host, boot).Ok? { RegistrationFree(e.fields["runtime"]); }
  }

  lemma RegistrationFree(j: Json)
    ensures Runtime(j, false).Ok? ==> Runtime(j, false).value.registrationId == 0
  {
    hide IdAt, IntegerAt, DecimalAt;
  }

  predicate SpellsString(j: Json, key: string, s: string) { Has(j, key, Str(s)) }

  predicate SpellsHead(p: Json, ipv4: string -> bool, v: GatewayPeer) {
    && SpellsId(p, "host", v.host, false) && SpellsId(p, "boot", v.boot, false)
    && SpellsNumber(p, "session", v.session) && v.session != 0
    && v.state in {"ONLINE", "LOST"} && SpellsString(p, "state", v.state)
    && ipv4(v.address) && SpellsString(p, "address", v.address)
    && SpellsInteger(p, "metadata_port", v.metadataPort, 1, 65535)
    && SpellsNumber(p, "metadata_revision", v.metadataRevision)
    && Has(p, "metadata_ready", Bool(v.metadataReady)) && v.endpoints == []
  }

  /** A peer's entry, apart from its endpoints, is accepted as that peer if and only if it spells it. */
  lemma HeadExactly(p: Json, ipv4: string -> bool, v: GatewayPeer)
    ensures PeerHead(p, ipv4) == Ok(v) <==> SpellsHead(p, ipv4, v)
  {
    hide IdAt, SpellsId, DecimalAt, SpellsNumber;
    IdAtExactly(p, "host", v.host, false);
    IdAtExactly(p, "boot", v.boot, false);
    NumberExactly(p, "session", v.session);
    NumberExactly(p, "metadata_revision", v.metadataRevision);
  }

  ghost predicate SpellsStatus(j: Json, ipv4: string -> bool, v: GatewayStatus) {
    && v.state in {"WAITING_NETWORK", "REBINDING", "RUNNING", "ERROR"} && SpellsString(j, "state", v.state)
    && SpellsId(j, "host", v.host, false) && SpellsId(j, "boot", v.boot, false) && SpellsNumber(j, "session", v.session)
    && SpellsText(j, "interface", v.interfaceName) && SpellsString(j, "ipv4", v.ipv4) && (v.ipv4 == "" || ipv4(v.ipv4))
    && SpellsInteger(j, "interface_index", v.interfaceIndex, 0, Numerals.TWO_32 - 1)
    && SpellsInteger(j, "last_error", v.lastNetworkError, -0x8000_0000, 0)
    && (v.state == "RUNNING" ==> v.session != 0 && v.interfaceName != "" && v.ipv4 != "" && v.interfaceIndex != 0)
  }

  /** A status document is accepted as that status if and only if it spells it. */
  lemma StatusExactly(j: Json, ipv4: string -> bool, v: GatewayStatus)
    ensures Status(j, ipv4) == Ok(v) <==> SpellsStatus(j, ipv4, v)
  {
    hide IdAt, SpellsId, DecimalAt, SpellsNumber, TextAt, SpellsText;
    IdAtExactly(j, "host", v.host, false);
    IdAtExactly(j, "boot", v.boot, false);
    NumberExactly(j, "session", v.session);
    TextAtExactly(j, "interface", v.interfaceName);
  }

  // ---- The whole answer ----

  ghost predicate SpellsPeer(p: Json, ipv4: string -> bool, v: GatewayPeer) {
    && SpellsHead(p, ipv4, v.(endpoints := []))
    && p.Obj? && "endpoints" in p.fields && p.fields["endpoints"].Arr?
    && |p.fields["endpoints"].items| == |v.endpoints| <= MAX_LIST
    && (forall i :: 0 <= i < |v.endpoints| ==>
        SpellsEndpoint(p.fields["endpoints"].items[i], v.host, v.boot, v.endpoints[i]))
    && DistinctIdentities(v.endpoints)
  }

  ghost predicate SpellsPeers(j: Json, ipv4: string -> bool, ps: seq<GatewayPeer>) {
    && j.Obj? && "peers" in j.fields && j.fields["peers"].Arr? && |j.fields["peers"].items| == |ps| <= MAX_LIST
    && (forall i :: 0 <= i < |ps| ==> SpellsPeer(j.fields["peers"].items[i], ipv4, ps[i]))
    && DistinctHosts(ps)
  }

  lemma PeerExactly(p: Json, ipv4: string -> bool, v: GatewayPeer)
    ensures IsPeer(p, ipv4, v) <==> SpellsPeer(p, ipv4, v)
  {
    hide PeerHead, SpellsHead, EndpointOf, SpellsEndpoint;
    HeadExactly(p, ipv4, v.(endpoints := []));
    if p.Obj? && "endpoints" in p.fields && p.fields["endpoints"].Arr? {
      var items := p.fields["endpoints"].items;
      forall i | 0 <= i < |items| && i < |v.endpoints|
        ensures EndpointOf(items[i], v.host, v.boot) == Ok(v.endpoints[i]) <==>
                  SpellsEndpoint(items[i], v.host, v.boot, v.endpoints[i])
      {
        EndpointExactly(items[i], v.host, v.boot, v.endpoints[i]);
      }
    }
  }

  /** The answers accepted as a list of peers are exactly those that spell it: nothing is guessed, dropped or
      swapped. */
  lemma PeersExactly(j: Json, ipv4: string -> bool, ps: seq<GatewayPeer>)
    ensures IsPeerList(j, ipv4, ps) <==> SpellsPeers(j, ipv4, ps)
  {
    hide IsPeer, SpellsPeer;
    if j.Obj? && "peers" in j.fields && j.fields["peers"].Arr? {
      var items := j.fields["peers"].items;
      forall i | 0 <= i < |items| && i < |ps|
        ensures IsPeer(items[i], ipv4, ps[i]) <==> SpellsPeer(items[i], ipv4, ps[i])
      {
        PeerExactly(items[i], ipv4, ps[i]);
      }
    }
  }
}
