/** What the framework reports, as the tool keeps it: identities become hexadecimal text. */
module Conversion {
  import Numerals
  import Scalars
  import opened NetworkRates

  // ---- Host identities and their keys ----

  type HostId = id: seq<Scalars.Byte> | |id| == 16 witness [0, 0, 0, 0, 0, 0, 0, 0, 0, 0, 0, 0, 0, 0, 0, 0]

  function HexDigit(n: nat): char
    requires n < 16
  {
    "0123456789abcdef"[n]
  }

  function Hex(bytes: seq<Scalars.Byte>): (s: string)
    ensures |s| == 2 * |bytes|
  {
    if bytes == [] then "" else [HexDigit(bytes[0] / 16), HexDigit(bytes[0] % 16)] + Hex(bytes[1..])
  }

  function HostKey(id: HostId): string { Hex(id) }

  lemma HexDigitInjective(m: nat, n: nat)
    requires m < 16 && n < 16 && HexDigit(m) == HexDigit(n)
    ensures m == n
  {
    var code := (k: nat) => if k < 10 then '0' as int + k else 'a' as int + k - 10;
    assert HexDigit(m) as int == code(m) && HexDigit(n) as int == code(n);
  }

  lemma {:induction false} HexInjective(a: seq<Scalars.Byte>, b: seq<Scalars.Byte>)
    requires Hex(a) == Hex(b)
    ensures a == b
  {
    assert |a| == |b|;
    if a != [] {
      var (s, t) := (Hex(a), Hex(b));
      assert s[0] == HexDigit(a[0] / 16) && s[1] == HexDigit(a[0] % 16) && s[2..] == Hex(a[1..]);
      assert t[0] == HexDigit(b[0] / 16) && t[1] == HexDigit(b[0] % 16) && t[2..] == Hex(b[1..]);
      HexInjective(a[1..], b[1..]);
      HexDigitInjective(a[0] / 16, b[0] / 16);
      HexDigitInjective(a[0] % 16, b[0] % 16);
      assert a == [a[0]] + a[1..] && b == [b[0]] + b[1..];
    }
  }

  lemma HostKeyInjective(a: HostId, b: HostId)
    requires HostKey(a) == HostKey(b)
    ensures a == b
  {
    HexInjective(a, b);
  }

  lemma {:induction false} HexColonFree(bytes: seq<Scalars.Byte>)
    ensures Numerals.ColonFree(Hex(bytes))
  {
    if bytes != [] { HexColonFree(bytes[1..]); }
  }

  // ---- Endpoints ----

  datatype RawEndpoint = RawEndpoint(host: HostId, boot: HostId, pid: Numerals.Int32, startTicks: Numerals.Uint64,
                                     registrationId: Numerals.Uint64)

  function ConvertIdentity(e: RawEndpoint): RouteEndpoint {
    RouteEndpoint(HostKey(e.host), HostKey(e.boot), e.pid, e.startTicks, e.registrationId)
  }

  /** Both ids are the hexadecimal text of sixteen bytes. */
  ghost predicate IsConverted(e: RouteEndpoint) { exists raw :: e == ConvertIdentity(raw) }

  predicate ColonFreeIds(e: RouteEndpoint) { Numerals.ColonFree(e.hostId) && Numerals.ColonFree(e.bootId) }

  lemma ConvertedColonFree(e: RouteEndpoint)
    requires IsConverted(e)
    ensures ColonFreeIds(e)
  {
    var raw :| e == ConvertIdentity(raw);
    HexColonFree(raw.host);
    HexColonFree(raw.boot);
  }

  /** Distinct identities stay distinct. */
  lemma ConvertIdentityInjective(a: RawEndpoint, b: RawEndpoint)
    requires ConvertIdentity(a) == ConvertIdentity(b)
    ensures a == b
  {
    HostKeyInjective(a.host, b.host);
    HostKeyInjective(a.boot, b.boot);
  }

  // ---- Snapshots ----

  datatype RawRoute = RawRoute(source: RawEndpoint, destination: RawEndpoint, sourceSession: Numerals.Uint64,
                               destinationSession: Numerals.Uint64, routeId: Numerals.Uint64, sending: bool, state: nat,
                               counters: Counters)

  datatype RawDiagnostics = RawDiagnostics(gatewayHost: HostId, gatewayBoot: HostId, gatewaySession: Numerals.Uint64,
                                           truncated: bool, routes: seq<RawRoute>)

  function ConvertRoute(r: RawRoute): Route {
    Route(ConvertIdentity(r.source), ConvertIdentity(r.destination), r.sourceSession, r.destinationSession, r.routeId,
          r.sending, r.state, r.counters, NO_RATES)
  }

  function Converted(raw: RawDiagnostics, wall: nat): Diagnostics {
    Diagnostics(if raw.truncated then TRUNCATED else VALID, HostKey(raw.gatewayHost), HostKey(raw.gatewayBoot),
                raw.gatewaySession, wall, 0, seq(|raw.routes|, i requires 0 <= i < |raw.routes| =>
                  ConvertRoute(raw.routes[i])))
  }

  /** wall is the reading of the system clock. */
  method ConvertDiagnostics(raw: RawDiagnostics, wall: nat) returns (out: Diagnostics)
    ensures out == Converted(raw, wall)
  {
    out := Diagnostics(if raw.truncated then TRUNCATED else VALID, HostKey(raw.gatewayHost), HostKey(raw.gatewayBoot),
                       raw.gatewaySession, wall, 0, []);
    for i := 0 to |raw.routes|
      invariant out == Converted(raw, wall).(routes := Converted(raw, wall).routes[..i])
    {
      out := out.(routes := out.routes + [ConvertRoute(raw.routes[i])]);
    }
  }

  /** Two lower-case hexadecimal digits per byte, the high half first. */
  lemma {:induction false} HexDigits(bytes: seq<Scalars.Byte>, i: nat)
    requires i < |bytes|
    ensures Hex(bytes)[2 * i] == "0123456789abcdef"[bytes[i] / 16]
    ensures Hex(bytes)[2 * i + 1] == "0123456789abcdef"[bytes[i] % 16]
  {
    if i > 0 { HexDigits(bytes[1..], i - 1); }
  }

  /** The endpoint of a framework identity. */
  predicate NamesEndpoint(e: RouteEndpoint, raw: RawEndpoint) {
    && e.hostId == Hex(raw.host) && e.bootId == Hex(raw.boot) && e.pid == raw.pid && e.startTicks == raw.startTicks
    && e.registrationId == raw.registrationId
  }

  /** Each route keeps its two ends, its direction, its state and its counters, and shows no rates yet. */
  lemma ConvertedPlainly(raw: RawDiagnostics, wall: nat, i: nat)
    requires i < |raw.routes|
    ensures |Converted(raw, wall).routes| == |raw.routes|
    ensures var (r, q) := (Converted(raw, wall).routes[i], raw.routes[i]);
            && NamesEndpoint(r.source, q.source) && NamesEndpoint(r.destination, q.destination)
            && r.sourceSession == q.sourceSession && r.destinationSession == q.destinationSession
            && r.routeId == q.routeId && r.sending == q.sending && r.state == q.state && r.counters == q.counters
            && r.rates.status == INVALID
    ensures var v := Converted(raw, wall);
            && v.gatewayHost == Hex(raw.gatewayHost) && v.gatewayBoot == Hex(raw.gatewayBoot)
            && v.gatewaySession == raw.gatewaySession && v.observedAtMs == wall && v.error == 0
            && v.status == if raw.truncated then TRUNCATED else VALID
  {
  }

  ghost predicate RoutesConverted(v: Diagnostics) {
    forall r :: r in v.routes ==> IsConverted(r.source) && IsConverted(r.destination)
  }

  lemma AllConverted(raw: RawDiagnostics, wall: nat)
    ensures RoutesConverted(Converted(raw, wall))
  {
    hide HostKey;
    var v := Converted(raw, wall);
    forall r | r in v.routes ensures IsConverted(r.source) && IsConverted(r.destination) {
      var i :| 0 <= i < |v.routes| && v.routes[i] == r;
      assert r == ConvertRoute(raw.routes[i]);
    }
  }

  /** Nothing that is modelled is lost: two snapshots converted alike are one. */
  lemma ConvertedInjective(a: RawDiagnostics, b: RawDiagnostics, wall: nat)
    requires Converted(a, wall) == Converted(b, wall)
    ensures a == b
  {
    HostKeyInjective(a.gatewayHost, b.gatewayHost);
    HostKeyInjective(a.gatewayBoot, b.gatewayBoot);
    hide HostKey;
    var (v, w) := (Converted(a, wall), Converted(b, wall));
    assert |a.routes| == |v.routes| == |b.routes|;
    forall i | 0 <= i < |a.routes| ensures a.routes[i] == b.routes[i] {
      assert ConvertRoute(a.routes[i]) == v.routes[i] == w.routes[i] == ConvertRoute(b.routes[i]);
      ConvertIdentityInjective(a.routes[i].source, b.routes[i].source);
      ConvertIdentityInjective(a.routes[i].destination, b.routes[i].destination);
    }
    assert a.routes == b.routes;
  }
}
