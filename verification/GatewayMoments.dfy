/** What a published snapshot says about the gateway, which may change between the three answers it is made of. */
module GatewayMoments {
  import opened Results
  import opened Scalars
  import opened GatewayText
  import opened GatewayPeers
  import GatewayPrint
  import opened GatewayLink
  import opened GatewayClient

  /** What the gateway would answer at one moment. */
  datatype Moment = Moment(status: GatewayStatus, peers: seq<GatewayPeer>)

  type History = nat -> Moment

  datatype Generation = Generation(host: string, boot: string, session: int, state: string)

  function GenerationOf(s: GatewayStatus): Generation { Generation(s.host, s.boot, s.session, s.state) }

  function GenerationAt(history: History, t: nat): Generation { GenerationOf(history(t).status) }

  /** The documents of a cycle, as far as they arrive, are what the gateway showed at three moments. */
  ghost predicate Shows(history: History, r: nat, s: nat, t: nat, one: Link, two: Link, three: Link,
                        parse: seq<Byte> -> Result<Json>, ipv4: string -> bool)
  {
    var (i, j, k) := (Document(one, 1, parse), Document(two, 2, parse), Document(three, 1, parse));
    && (i.Ok? ==> Status(i.value, ipv4) == Ok(history(r).status))
    && (j.Ok? ==> IsPeerList(j.value, ipv4, history(s).peers))
    && (k.Ok? ==> Status(k.value, ipv4) == Ok(history(t).status))
  }

  lemma PeersUnique(j: Json, ipv4: string -> bool, ps: seq<GatewayPeer>, qs: seq<GatewayPeer>)
    requires IsPeerList(j, ipv4, ps) && IsPeerList(j, ipv4, qs)
    ensures ps == qs
  {
    hide IsPeer, ListAt;
    var items := ListAt(j, "peers").value;
    forall i | 0 <= i < |items| ensures ps[i] == qs[i] { PeerUnique(items[i], ipv4, ps[i], qs[i]); }
  }

  /** A published snapshot carries the peers of the second moment and the status of the third, whose generation is
      that of the first. */
  lemma PublishedMoments(history: History, r: nat, s: nat, t: nat, one: Link, two: Link, three: Link,
                         parse: seq<Byte> -> Result<Json>, ipv4: string -> bool, now: nat, next: LocalSnapshot)
    requires Shows(history, r, s, t, one, two, three, parse, ipv4) && Bracketed(next, one, two, three, parse, ipv4, now)
    ensures next == LocalSnapshot(Ready, next.path, Some(history(t).status), 0, now, history(s).peers)
    ensures GenerationAt(history, r) == GenerationAt(history, t)
  {
    hide Status, IsPeerList, Document;
    PeersUnique(Document(two, 2, parse).value, ipv4, next.peers, history(s).peers);
  }

  // ---- What can be published ----

  /** Some body the link can carry parses to a document of this status. */
  ghost predicate StatusCarried(v: GatewayStatus, parse: seq<Byte> -> Result<Json>, ipv4: string -> bool) {
    exists body :: 0 < |body| <= MAX_BODY && parse(body).Ok? && Status(parse(body).value, ipv4) == Ok(v)
  }

  ghost predicate PeersCarried(ps: seq<GatewayPeer>, parse: seq<Byte> -> Result<Json>, ipv4: string -> bool) {
    exists body :: 0 < |body| <= MAX_BODY && parse(body).Ok? && IsPeerList(parse(body).value, ipv4, ps)
  }

  /** A cycle whose answers come from these moments publishes the snapshot. */
  ghost predicate Publishes(history: History, r: nat, s: nat, t: nat, one: Link, two: Link, three: Link,
                            parse: seq<Byte> -> Result<Json>, ipv4: string -> bool, now: nat, next: LocalSnapshot)
  {
    && Shows(history, r, s, t, one, two, three, parse, ipv4)
    && Bracketed(next, one, two, three, parse, ipv4, now)
  }

  /** A socket that delivers one framed body without a hitch. */
  function Delivery(op: Byte, body: seq<Byte>): Link
    requires 0 < |body| <= MAX_BODY
  {
    Link(Frame(op, body), [Moved(16), Moved(16), Moved(|body|)])
  }

  lemma Delivered(op: Byte, body: seq<Byte>, parse: seq<Byte> -> Result<Json>)
    requires 0 < |body| <= MAX_BODY && parse(body).Ok?
    ensures Document(Delivery(op, body), op, parse) == parse(body)
  {
    hide Frame, Asked;
    var attempts := [Moved(16), Moved(16), Moved(|body|)];
    assert Movement(attempts, 16, 16).left == attempts[1..] by {
      assert Movement(attempts[1..], 0, 0).left == attempts[1..];
    }
    assert attempts[1..] == [Moved(16), Moved(|body|)];
    assert Movement(attempts[1..], 16, 16).left == attempts[2..] by {
      assert attempts[1..][1..] == attempts[2..];
      assert Movement(attempts[2..], 0, 0).left == attempts[2..];
    }
    assert attempts[2..] == [Moved(|body|)];
    assert Offered(attempts[2..]) >= |body| && Offered(attempts[1..]) >= 16 && Offered(attempts) >= 16;
    AskedExactly(op, Frame(op, body), attempts, body);
  }

  /** A document that arrived was the parse of a body within the limit. */
  lemma Arrived(link: Link, op: Byte, parse: seq<Byte> -> Result<Json>) returns (body: seq<Byte>)
    requires Document(link, op, parse).Ok?
    ensures 0 < |body| <= MAX_BODY && parse(body) == Document(link, op, parse)
  {
    hide Asked, Frame;
    body := Asked(op, link.incoming, link.attempts).value;
    AskedExactly(op, link.incoming, link.attempts, body);
  }

  lemma CycleOver(history: History, parse: seq<Byte> -> Result<Json>, ipv4: string -> bool, r: nat, s: nat, t: nat)
    returns (one: Link, two: Link, three: Link, next: LocalSnapshot)
    requires StatusCarried(history(r).status, parse, ipv4) && PeersCarried(history(s).peers, parse, ipv4)
    requires StatusCarried(history(t).status, parse, ipv4) && GenerationAt(history, r) == GenerationAt(history, t)
    ensures Publishes(history, r, s, t, one, two, three, parse, ipv4, 0, next)
  {
    hide Status, IsPeerList, Document, Delivery;
    var a :| 0 < |a| <= MAX_BODY && parse(a).Ok? && Status(parse(a).value, ipv4) == Ok(history(r).status);
    var b :| 0 < |b| <= MAX_BODY && parse(b).Ok? && IsPeerList(parse(b).value, ipv4, history(s).peers);
    var c :| 0 < |c| <= MAX_BODY && parse(c).Ok? && Status(parse(c).value, ipv4) == Ok(history(t).status);
    one, two, three := Delivery(1, a), Delivery(2, b), Delivery(1, c);
    Delivered(1, a, parse);
    Delivered(2, b, parse);
    Delivered(1, c, parse);
    next := LocalSnapshot(Ready, "", Some(history(t).status), 0, 0, history(s).peers);
  }

  /** With the program's own parser and body limit, three moments can be published together if and only if the link can
      carry their documents and the outer generations agree. */
  lemma PublishedExactly(history: History, parse: seq<Byte> -> Result<Json>, ipv4: string -> bool, r: nat, s: nat,
                         t: nat)
    ensures (exists one, two, three, now, next ::
               Publishes(history, r, s, t, one, two, three, parse, ipv4, now, next)) <==>
            && StatusCarried(history(r).status, parse, ipv4) && PeersCarried(history(s).peers, parse, ipv4)
            && StatusCarried(history(t).status, parse, ipv4)
            && GenerationAt(history, r) == GenerationAt(history, t)
  {
    hide StatusCarried, PeersCarried, GenerationAt, Publishes;
    if exists one, two, three, now, next :: Publishes(history, r, s, t, one, two, three, parse, ipv4, now, next) {
      var one, two, three, now, next :| Publishes(history, r, s, t, one, two, three, parse, ipv4, now, next);
      CarriedBy(history, r, s, t, one, two, three, parse, ipv4, now, next);
      NamesThird(history, r, s, t, one, two, three, parse, ipv4, now, next);
    }
    if && StatusCarried(history(r).status, parse, ipv4) && PeersCarried(history(s).peers, parse, ipv4)
       && StatusCarried(history(t).status, parse, ipv4) && GenerationAt(history, r) == GenerationAt(history, t)
    {
      var one, two, three, next := CycleOver(history, parse, ipv4, r, s, t);
    }
  }

  lemma CarriedBy(history: History, r: nat, s: nat, t: nat, one: Link, two: Link, three: Link,
                  parse: seq<Byte> -> Result<Json>, ipv4: string -> bool, now: nat, next: LocalSnapshot)
    requires Publishes(history, r, s, t, one, two, three, parse, ipv4, now, next)
    ensures StatusCarried(history(r).status, parse, ipv4) && PeersCarried(history(s).peers, parse, ipv4)
    ensures StatusCarried(history(t).status, parse, ipv4)
  {
    hide Document, Status, IsPeerList;
    var a := Arrived(one, 1, parse);
    var b := Arrived(two, 2, parse);
    var c := Arrived(three, 1, parse);
  }

  lemma NamesThird(history: History, r: nat, s: nat, t: nat, one: Link, two: Link, three: Link,
                   parse: seq<Byte> -> Result<Json>, ipv4: string -> bool, now: nat, next: LocalSnapshot)
    requires Publishes(history, r, s, t, one, two, three, parse, ipv4, now, next)
    ensures next.status.Some? && GenerationOf(next.status.value) == GenerationAt(history, t) == GenerationAt(history, r)
  {
    hide Shows, Bracketed;
    PublishedMoments(history, r, s, t, one, two, three, parse, ipv4, now, next);
  }

  // ---- Mixed snapshots ----

  /** A snapshot published over these moments shows peers that were read in another generation than it names. */
  ghost predicate Mixed(history: History, r: nat, s: nat, t: nat, one: Link, two: Link, three: Link,
                        parse: seq<Byte> -> Result<Json>, ipv4: string -> bool, now: nat, next: LocalSnapshot)
  {
    && r <= s <= t && Publishes(history, r, s, t, one, two, three, parse, ipv4, now, next)
    && GenerationOf(next.status.value) != GenerationAt(history, s)
  }

  predicate Changes(history: History, t: nat) { GenerationAt(history, t + 1) != GenerationAt(history, t) }

  /** Whenever the gateway changes its generation, the new one is one it never had. */
  ghost predicate NeverReused(history: History) {
    forall s: nat, t: nat :: s <= t && Changes(history, t) ==> GenerationAt(history, t + 1) != GenerationAt(history, s)
  }

  /** Without reuse the gateway cannot come back, however long it takes. */
  lemma {:induction false} NoWayBack(history: History, r: nat, s: nat, t: nat)
    requires NeverReused(history) && r <= s <= t && GenerationAt(history, r) == GenerationAt(history, t)
    ensures GenerationAt(history, s) == GenerationAt(history, t)
    decreases t
  {
    if s < t {
      assert !Changes(history, t - 1) by { assert GenerationAt(history, t - 1 + 1) == GenerationAt(history, r); }
      NoWayBack(history, r, s, t - 1);
    }
  }

  /** Whatever the gateway shows, at any moment, the parser and the body limit let through. */
  ghost predicate Carried(history: History, parse: seq<Byte> -> Result<Json>, ipv4: string -> bool) {
    forall t: nat :: StatusCarried(history(t).status, parse, ipv4) && PeersCarried(history(t).peers, parse, ipv4)
  }

  /** The assumption asks for nothing impossible: a gateway that moves among well-formed values, however often and in
      whatever order it returns to them, is carried by some parser. */
  lemma CarriedPossible(history: History, values: seq<Moment>, ipv4: string -> bool)
    returns (parse: seq<Byte> -> Result<Json>)
    requires 2 * |values| <= MAX_BODY && forall t: nat :: history(t) in values
    requires forall m <- values :: GatewayPrint.IsStatus(m.status, ipv4) && GatewayPrint.ArePeerValues(m.peers, ipv4)
    ensures Carried(history, parse, ipv4)
  {
    hide Status, IsPeerList, GatewayPrint.StatusJson, GatewayPrint.PeersJson, GatewayPrint.IsStatus,
         GatewayPrint.ArePeerValues;
    parse := (body: seq<Byte>) =>
      var i := (|body| - 1) / 2;
      if body == [] || i >= |values| then Refused()
      else if |body| % 2 == 1 then Ok(GatewayPrint.StatusJson(values[i].status, ipv4))
      else Ok(GatewayPrint.PeersJson(values[i].peers, ipv4));
    forall t: nat
      ensures StatusCarried(history(t).status, parse, ipv4) && PeersCarried(history(t).peers, parse, ipv4)
    {
      var i :| 0 <= i < |values| && values[i] == history(t);
      GatewayPrint.StatusPrinted(values[i].status, ipv4);
      GatewayPrint.PeersPrinted(values[i].peers, ipv4);
      var (one, two) := (seq<Byte>(2 * i + 1, _ => 0), seq<Byte>(2 * i + 2, _ => 0));
      assert parse(one) == Ok(GatewayPrint.StatusJson(values[i].status, ipv4));
      assert parse(two) == Ok(GatewayPrint.PeersJson(values[i].peers, ipv4));
    }
  }

  /** No published snapshot is ever mixed, over any cycles of a gateway whose documents the link carries, if and only if
      the gateway never reuses a generation. The parser is the program's own, whatever it is. */
  lemma UnmixedExactly(history: History, parse: seq<Byte> -> Result<Json>, ipv4: string -> bool)
    requires Carried(history, parse, ipv4)
    ensures NeverReused(history) <==>
            forall r, s, t, one, two, three, now, next ::
              !Mixed(history, r, s, t, one, two, three, parse, ipv4, now, next)
  {
    hide Publishes, StatusCarried, PeersCarried, GenerationAt;
    if NeverReused(history) {
      forall r, s, t, one, two, three, now, next
        ensures !Mixed(history, r, s, t, one, two, three, parse, ipv4, now, next)
      {
        if Mixed(history, r, s, t, one, two, three, parse, ipv4, now, next) {
          NamesThird(history, r, s, t, one, two, three, parse, ipv4, now, next);
          NoWayBack(history, r, s, t);
        }
      }
    } else {
      var s: nat, t: nat :|
        s <= t && Changes(history, t) && GenerationAt(history, t + 1) == GenerationAt(history, s);
      var one, two, three, next := CycleOver(history, parse, ipv4, s, t, t + 1);
      NamesThird(history, s, t, t + 1, one, two, three, parse, ipv4, 0, next);
      assert Mixed(history, s, t, t + 1, one, two, three, parse, ipv4, 0, next);
    }
  }

  // ---- Mixed sessions ----

  datatype Session = Session(host: string, boot: string, session: int)

  /** The generation apart from the state, which a running gateway may leave and come back to. */
  function SessionOf(g: Generation): Session { Session(g.host, g.boot, g.session) }

  function SessionAt(history: History, t: nat): Session { SessionOf(GenerationAt(history, t)) }

  /** A published snapshot shows peers that were read in another session than it names. */
  ghost predicate MixedSession(history: History, r: nat, s: nat, t: nat, one: Link, two: Link, three: Link,
                               parse: seq<Byte> -> Result<Json>, ipv4: string -> bool, now: nat, next: LocalSnapshot)
  {
    && r <= s <= t && Publishes(history, r, s, t, one, two, three, parse, ipv4, now, next)
    && SessionOf(GenerationOf(next.status.value)) != SessionAt(history, s)
  }

  predicate SessionChanges(history: History, t: nat) { SessionAt(history, t + 1) != SessionAt(history, t) }

  /** Once the session has changed, no generation from before is met again. */
  ghost predicate NoReturnAcross(history: History) {
    forall r: nat, m: nat, u: nat ::
      r <= m < u && SessionChanges(history, m) ==> GenerationAt(history, u) != GenerationAt(history, r)
  }

  lemma {:induction false} SessionChange(history: History, r: nat, s: nat) returns (m: nat)
    requires r <= s && SessionAt(history, r) != SessionAt(history, s)
    ensures r <= m < s && SessionChanges(history, m)
  {
    hide SessionAt;
    if SessionAt(history, s - 1) != SessionAt(history, s) {
      m := s - 1;
      assert m + 1 == s;
    } else {
      m := SessionChange(history, r, s - 1);
    }
  }

  /** Every published snapshot names the session its peers were read in, states aside, if and only if no generation is
      met again after its session was left. */
  lemma SessionsUnmixedExactly(history: History, parse: seq<Byte> -> Result<Json>, ipv4: string -> bool)
    requires Carried(history, parse, ipv4)
    ensures NoReturnAcross(history) <==>
            forall r, s, t, one, two, three, now, next ::
              !MixedSession(history, r, s, t, one, two, three, parse, ipv4, now, next)
  {
    hide Publishes, Carried, GenerationAt, SessionAt, SessionOf, SessionChanges;
    if NoReturnAcross(history) {
      forall r, s, t, one, two, three, now, next
        ensures !MixedSession(history, r, s, t, one, two, three, parse, ipv4, now, next)
      {
        if MixedSession(history, r, s, t, one, two, three, parse, ipv4, now, next) {
          NamesSession(history, r, s, t, one, two, three, parse, ipv4, now, next);
          var m := SessionChange(history, r, s);
        }
      }
    } else {
      var r: nat, m: nat, u: nat :|
        r <= m < u && SessionChanges(history, m) && GenerationAt(history, u) == GenerationAt(history, r);
      var s, one, two, three, next := ReturnMixes(history, parse, ipv4, r, m, u);
    }
  }

  lemma NamesSession(history: History, r: nat, s: nat, t: nat, one: Link, two: Link, three: Link,
                     parse: seq<Byte> -> Result<Json>, ipv4: string -> bool, now: nat, next: LocalSnapshot)
    requires Publishes(history, r, s, t, one, two, three, parse, ipv4, now, next)
    ensures next.status.Some?
            && SessionOf(GenerationOf(next.status.value)) == SessionAt(history, t) == SessionAt(history, r)
    ensures GenerationAt(history, t) == GenerationAt(history, r)
  {
    hide Publishes;
    NamesThird(history, r, s, t, one, two, three, parse, ipv4, now, next);
  }

  /** A gateway met again in an old generation, with another session in between, is caught by some cycle. */
  lemma ReturnMixes(history: History, parse: seq<Byte> -> Result<Json>, ipv4: string -> bool, r: nat, m: nat, u: nat)
    returns (s: nat, one: Link, two: Link, three: Link, next: LocalSnapshot)
    requires Carried(history, parse, ipv4) && r <= m < u
    requires SessionChanges(history, m) && GenerationAt(history, u) == GenerationAt(history, r)
    ensures MixedSession(history, r, s, u, one, two, three, parse, ipv4, 0, next)
  {
    hide Publishes, StatusCarried, PeersCarried, GenerationAt, SessionOf, SessionAt;
    s := if SessionAt(history, m) != SessionAt(history, u) then m else m + 1;
    one, two, three, next := CycleOver(history, parse, ipv4, r, s, u);
    NamesSession(history, r, s, u, one, two, three, parse, ipv4, 0, next);
  }
}
