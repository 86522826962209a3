/** The gateway client's cycle: peers read between two equal statuses are published whole, anything else clears. */
module GatewayClient {
  import opened Results
  import Scalars
  import GatewayText
  import opened GatewayPeers
  import GatewayLink

  datatype Connection = Disabled | Connecting | Ready | Failed

  datatype LocalSnapshot = LocalSnapshot(connection: Connection, path: string, status: Option<GatewayStatus>,
                                         error: int, observedAtMs: nat, peers: seq<GatewayPeer>)

  function Bare(path: string, connection: Connection, error: int): LocalSnapshot {
    LocalSnapshot(connection, path, None, error, 0, [])
  }

  /** What both statuses must agree on. */
  predicate SameGeneration(a: GatewayStatus, b: GatewayStatus) {
    a.host == b.host && a.boot == b.boot && a.session == b.session && a.state == b.state
  }

  function Conclude(path: string, before: GatewayStatus, peers: seq<GatewayPeer>, after: GatewayStatus,
                    now: nat): LocalSnapshot
  {
    if SameGeneration(before, after) then LocalSnapshot(Ready, path, Some(after), 0, now, peers)
    else Bare(path, Failed, ESTALE)
  }

  /** A fresh connection: the bytes the gateway will send and what each attempt on the socket will meet. */
  datatype Link = Link(incoming: seq<Scalars.Byte>, attempts: seq<GatewayLink.Attempt>)

  /** The document a connection yields for an operation. */
  function Document(link: Link, op: Scalars.Byte, parse: seq<Scalars.Byte> -> Result<GatewayText.Json>)
    : Result<GatewayText.Json>
  {
    var body :- GatewayLink.Asked(op, link.incoming, link.attempts);
    if parse(body).Ok? then parse(body) else GatewayText.Refused()
  }

  /** A document is the parse of the body that arrived; a body that does not parse breaks the protocol. */
  lemma DocumentExactly(link: Link, op: Scalars.Byte, parse: seq<Scalars.Byte> -> Result<GatewayText.Json>)
    ensures match GatewayLink.Asked(op, link.incoming, link.attempts)
            case Err(code) => Document(link, op, parse) == Err(code)
            case Ok(body) => Document(link, op, parse) == if parse(body).Ok? then parse(body) else Err(-71)
  {
  }

  lemma DocumentFails(link: Link, op: Scalars.Byte, parse: seq<Scalars.Byte> -> Result<GatewayText.Json>)
    ensures Document(link, op, parse).Err? ==> Document(link, op, parse).code < 0
  {
    GatewayLink.AskedFails(op, link.incoming, link.attempts);
  }

  method Ask(s: GatewayLink.Socket, op: Scalars.Byte,
             parse: seq<Scalars.Byte> -> Result<GatewayText.Json>)
    returns (r: Result<GatewayText.Json>)
    requires s.Valid() && s.taken == 0
    modifies s
    ensures r == Document(Link(s.incoming, old(s.attempts)), op, parse)
  {
    var body := s.Query(op);
    assert s.incoming[0..] == s.incoming;
    if body.Err? { return Err(body.code); }
    var j := parse(body.value);
    r := if j.Ok? then j else GatewayText.Refused();
  }

  /** A ready snapshot: the peers of the second document between two statuses of one generation, and the later
      status. */
  ghost predicate Bracketed(next: LocalSnapshot, one: Link, two: Link, three: Link,
                            parse: seq<Scalars.Byte> -> Result<GatewayText.Json>,
                            ipv4: string -> bool, now: nat)
  {
    var (i, j, k) := (Document(one, 1, parse), Document(two, 2, parse), Document(three, 1, parse));
    && i.Ok? && j.Ok? && k.Ok? && Status(i.value, ipv4).Ok? && Status(k.value, ipv4).Ok?
    && var (before, after) := (Status(i.value, ipv4).value, Status(k.value, ipv4).value);
       && SameGeneration(before, after) && IsPeerList(j.value, ipv4, next.peers)
       && next == LocalSnapshot(Ready, next.path, Some(after), 0, now, next.peers)
  }

  /** Why a cycle fails: the first answer that did not come, with its error, or that is not well formed; else the
      generation changed between the statuses. */
  ghost predicate FailsWith(error: int, one: Link, two: Link, three: Link,
                            parse: seq<Scalars.Byte> -> Result<GatewayText.Json>, ipv4: string -> bool)
  {
    var (i, j, k) := (Document(one, 1, parse), Document(two, 2, parse), Document(three, 1, parse));
    if i.Err? then error == i.code
    else if Status(i.value, ipv4).Err? then error == -71
    else if j.Err? then error == j.code
    else if forall ps :: !IsPeerList(j.value, ipv4, ps) then error == -71
    else if k.Err? then error == k.code
    else if Status(k.value, ipv4).Err? then error == -71
    else error == -116
  }

  /** One cycle of Run up to publication; each query has a connection of its own. The snapshot is ready exactly when
      the three answers make one, and otherwise bare with the first error. */
  method RunCycle(path: string, one: GatewayLink.Socket, two: GatewayLink.Socket, three: GatewayLink.Socket,
                  parse: seq<Scalars.Byte> -> Result<GatewayText.Json>, ipv4: string -> bool, now: nat)
    returns (next: LocalSnapshot)
    requires one.Valid() && two.Valid() && three.Valid() && one.taken == two.taken == three.taken == 0
    requires one != two && two != three && one != three
    modifies one, two, three
    ensures next.path == path
    ensures var (a, b, c) := (Link(one.incoming, old(one.attempts)), Link(two.incoming, old(two.attempts)),
                              Link(three.incoming, old(three.attempts)));
            if next.connection == Ready then Bracketed(next, a, b, c, parse, ipv4, now)
            else next == Bare(path, Failed, next.error) && next.error < 0
                 && FailsWith(next.error, a, b, c, parse, ipv4)
                 && forall s: LocalSnapshot :: !Bracketed(s, a, b, c, parse, ipv4, now)
  {
    hide Status, IsPeerList, Document;
    ghost var (a, b, c) := (Link(one.incoming, one.attempts), Link(two.incoming, two.attempts),
                            Link(three.incoming, three.attempts));
    DocumentFails(a, 1, parse);
    DocumentFails(b, 2, parse);
    DocumentFails(c, 1, parse);
    var i := Ask(one, 1, parse);
    if i.Err? { return Bare(path, Failed, i.code); }
    StatusFails(i.value, ipv4);
    var before := Status(i.value, ipv4);
    if before.Err? { return Bare(path, Failed, before.code); }
    var j := Ask(two, 2, parse);
    if j.Err? { return Bare(path, Failed, j.code); }
    var peers := Peers(j.value, ipv4);
    if peers.Err? { return Bare(path, Failed, peers.code); }
    var k := Ask(three, 1, parse);
    if k.Err? { return Bare(path, Failed, k.code); }
    StatusFails(k.value, ipv4);
    var after := Status(k.value, ipv4);
    if after.Err? { return Bare(path, Failed, after.code); }
    next := Conclude(path, before.value, peers.value, after.value, now);
  }

  lemma StatusFails(j: GatewayText.Json, ipv4: string -> bool)
    ensures Status(j, ipv4).Err? ==> Status(j, ipv4).code == EPROTO
  {
    hide GatewayText.Decimal, GatewayText.TextOf, GatewayText.IdOf, GatewayText.Integer;
    FieldsFail(j);
  }

  lemma FieldsFail(j: GatewayText.Json)
    ensures forall key, zero :: IdAt(j, key, zero).Err? ==> IdAt(j, key, zero).code == EPROTO
    ensures forall key :: DecimalAt(j, key).Err? ==> DecimalAt(j, key).code == EPROTO
    ensures forall key :: TextAt(j, key).Err? ==> TextAt(j, key).code == EPROTO
    ensures forall key, low, high :: IntegerAt(j, key, low, high).Err? ==> IntegerAt(j, key, low, high).code == EPROTO
  {
  }

  // ---- The published snapshot ----

  /** Either bare, or ready with a status; never peers or an observation time from an unfinished cycle. */
  predicate Whole(s: LocalSnapshot) {
    if s.connection == Ready then s.status.Some? && s.error == 0 else s == Bare(s.path, s.connection, s.error)
  }

  class Client {
    const path: string
    var snapshot: LocalSnapshot
    var stopped: bool
    ghost var cleared: bool

    constructor (path: string)
      ensures Valid() && !stopped && !cleared && snapshot == Bare(path, Connecting, 0)
    {
      this.path, snapshot, stopped, cleared := path, Bare(path, Connecting, 0), false, false;
    }

    ghost predicate Valid()
      reads this
    {
      && Whole(snapshot) && snapshot.path == path
      && (cleared ==> stopped && snapshot == Bare(path, Disabled, 0))
    }

    /** The worker publishes under the mutex, and not once a stop was requested. */
    method Publish(next: LocalSnapshot)
      requires Valid() && next.path == path && Whole(next)
      modifies this
      ensures Valid() && stopped == old(stopped) && cleared == old(cleared)
      ensures snapshot == if old(stopped) then old(snapshot) else next
    {
      if stopped { return; }
      snapshot := next;
    }

    method RequestStop()
      requires Valid()
      modifies this
      ensures Valid() && stopped && snapshot == old(snapshot) && cleared == old(cleared)
    {
      stopped := true;
    }

    /** After the worker is joined, the snapshot is emptied; Valid then says that it stays so. */
    method FinishStop()
      requires Valid() && stopped
      modifies this
      ensures Valid() && stopped && cleared && snapshot == Bare(path, Disabled, 0)
    {
      snapshot, cleared := Bare(path, Disabled, 0), true;
    }
  }
}
