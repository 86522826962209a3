/** One request on the gateway socket: bytes moved whole whatever the chunks, and the framing of the answer. */
module GatewayLink {
  import opened Results
  import opened Numerals
  import opened Scalars

  const MAX_BODY := 1024 * 1024
  const MAGIC: seq<Byte> := [0x4b, 0x43, 0x46, 0x4c]

  // ---- Big-endian words ----

  function Num(b: Byte): int { b }

  function BigEndian(b: seq<Byte>): nat {
    if b == [] then 0 else BigEndian(b[..|b| - 1]) * 256 + b[|b| - 1]
  }

  function Word(n: Uint32): (b: seq<Byte>)
    ensures |b| == 4
  {
    [n / 0x100_0000, n / 0x1_0000 % 256, n / 0x100 % 256, n % 256]
  }

  lemma BigEndianFour(b: seq<Byte>)
    requires |b| == 4
    ensures BigEndian(b) == 0x100_0000 * Num(b[0]) + 0x1_0000 * Num(b[1]) + 0x100 * Num(b[2]) + Num(b[3])
  {
    assert b[..3][..2] == b[..2] && b[..2][..1] == b[..1] && b[..1][..0] == [];
    assert BigEndian(b[..1]) == b[0];
    assert BigEndian(b[..2]) == 0x100 * Num(b[0]) + Num(b[1]);
    assert BigEndian(b[..3]) == 0x1_0000 * Num(b[0]) + 0x100 * Num(b[1]) + Num(b[2]);
  }

  lemma WordBack(n: Uint32)
    ensures BigEndian(Word(n)) == n
  {
    BigEndianFour(Word(n));
    var (high, low) := (n / 0x1_0000, n % 0x1_0000);
    TwoDigits(high);
    TwoDigits(low);
    DigitsOf(n);
  }

  /** Four base 256 digits of a 32-bit number, through its two halves. */
  lemma DigitsOf(n: Uint32)
    ensures var (high: int, low: int) := (n / 0x1_0000, n % 0x1_0000);
            && Num(n / 0x100_0000) == high / 0x100 && Num(n / 0x1_0000 % 256) == high % 0x100
            && Num(n / 0x100 % 256) == low / 0x100 && Num(n % 256) == low % 0x100
            && n == 0x1_0000 * high + low
  {
    var (high: int, low: int) := (n / 0x1_0000, n % 0x1_0000);
    assert n == 0x1_0000 * high + low && 0 <= low < 0x1_0000;
    assert n / 0x100 == 0x100 * high + low / 0x100;
  }

  lemma TwoDigits(n: int)
    requires 0 <= n < 0x1_0000
    ensures n == 0x100 * (n / 0x100) + n % 0x100
  {
  }

  lemma WordOf(b: seq<Byte>)
    requires |b| == 4
    ensures BigEndian(b) < TWO_32 && Word(BigEndian(b)) == b
  {
    BigEndianFour(b);
    FourDigits(BigEndian(b), b[0], b[1], b[2], b[3]);
    assert b == [b[0], b[1], b[2], b[3]];
  }

  lemma FourDigits(n: int, a: Byte, b: Byte, c: Byte, d: Byte)
    requires n == 0x100_0000 * Num(a) + 0x1_0000 * Num(b) + 0x100 * Num(c) + Num(d)
    ensures 0 <= n < TWO_32
    ensures n / 0x100_0000 == Num(a) && n / 0x1_0000 % 256 == Num(b) && n / 0x100 % 256 == Num(c) && n % 256 == Num(d)
  {
    assert n / 0x1_0000 == 0x100 * Num(a) + Num(b);
    assert n / 0x100 == 0x1_0000 * Num(a) + 0x100 * Num(b) + Num(c);
    assert n % 256 == Num(d);
  }

  method U32(b: array<Byte>, at: nat) returns (v: Uint32)
    requires at + 4 <= b.Length
    ensures v == BigEndian(b[at..at + 4])
  {
    v := 0;
    for i := 0 to 4
      invariant v == BigEndian(b[at..at + i])
      invariant v < Pow256(i)
    {
      assert b[at..at + i + 1][..i] == b[at..at + i];
      assert Pow256(i + 1) == 256 * Pow256(i);
      PowBound(i + 1);
      v := v * 256 + b[at + i];
    }
  }

  lemma {:induction false} PowBound(w: nat)
    requires w <= 4
    ensures Pow256(w) <= TWO_32
  {
    assert Pow256(1) == 256 && Pow256(2) == 0x1_0000 && Pow256(3) == 0x100_0000 && Pow256(4) == TWO_32;
  }

  // ---- The socket ----

  /** What one attempt meets: a stop request, the deadline, some bytes moved, a signal, not ready yet, or an error. */
  datatype Attempt = Stopped | Late | Moved(count: nat) | Interrupted | Unready | Broken(errno: Errno)

  type Errno = n: int | n > 0 witness 1

  /** How a transfer ends: 0 or an error, the bytes moved, and the attempts not yet made. */
  datatype Move = Move(error: int, moved: nat, left: seq<Attempt>)

  /** Moving size bytes over these attempts when that many are available; no attempts left means the deadline
      passes. */
  function Movement(attempts: seq<Attempt>, size: nat, available: nat): (m: Move)
    ensures m.error <= 0 && m.moved <= size && (m.error == 0 <==> m.moved == size) && m.moved <= available
  {
    if size == 0 then Move(0, 0, attempts)
    else if attempts == [] then Move(ETIMEDOUT, 0, [])
    else
      var rest := attempts[1..];
      match attempts[0]
      case Stopped => Move(ECANCELED, 0, rest)
      case Late => Move(ETIMEDOUT, 0, rest)
      case Interrupted => Movement(rest, size, available)
      case Unready => Movement(rest, size, available)
      case Broken(errno) => Move(0 - errno, 0, rest)
      case Moved(count) =>
        var n := Least(Least(count, size), available);
        if n == 0 then Move(ECONNRESET, 0, rest) else
          var m := Movement(rest, size - n, available - n);
          Move(m.error, n + m.moved, m.left)
  }

  /** A transfer that has moved that many bytes goes on with these attempts. */
  predicate Onward(first: seq<Attempt>, size: nat, available: nat, attempts: seq<Attempt>, at: nat)
    requires at <= size && at <= available
  {
    var m := Movement(attempts, size - at, available - at);
    Movement(first, size, available) == Move(m.error, at + m.moved, m.left)
  }

  lemma Outset(attempts: seq<Attempt>, size: nat, available: nat)
    ensures Onward(attempts, size, available, attempts, 0)
  {
  }

  /** One attempt ends the transfer, or leaves it going on. */
  lemma Attempted(first: seq<Attempt>, size: nat, available: nat, attempts: seq<Attempt>, at: nat)
    requires at <= size && at <= available && Onward(first, size, available, attempts, at)
    ensures at == size ==> Movement(first, size, available) == Move(0, at, attempts)
    ensures at < size && attempts == [] ==> Movement(first, size, available) == Move(ETIMEDOUT, at, [])
    ensures at < size && attempts != [] ==>
              match attempts[0]
              case Stopped => Movement(first, size, available) == Move(ECANCELED, at, attempts[1..])
              case Late => Movement(first, size, available) == Move(ETIMEDOUT, at, attempts[1..])
              case Broken(errno) => Movement(first, size, available) == Move(0 - errno, at, attempts[1..])
              case Moved(count) =>
                var n := Least(Least(count, size - at), available - at);
                if n == 0 then Movement(first, size, available) == Move(ECONNRESET, at, attempts[1..])
                else Onward(first, size, available, attempts[1..], at + n)
              case _ => Onward(first, size, available, attempts[1..], at)
  {
  }

  /** The bytes offered before the first attempt that fails. */
  function Offered(attempts: seq<Attempt>): nat {
    if attempts == [] then 0 else
      match attempts[0]
      case Interrupted => Offered(attempts[1..])
      case Unready => Offered(attempts[1..])
      case Moved(count) => if count == 0 then 0 else count + Offered(attempts[1..])
      case _ => 0
  }

  /** Exactly when a transfer succeeds: enough was offered before anything failed, in whatever chunks, and enough was
      there. */
  lemma {:induction false} MovedExactly(attempts: seq<Attempt>, size: nat, available: nat)
    ensures Movement(attempts, size, available).error == 0 <==> size <= Offered(attempts) && size <= available
  {
    if size > 0 && attempts != [] {
      match attempts[0] {
        case Interrupted => MovedExactly(attempts[1..], size, available);
        case Unready => MovedExactly(attempts[1..], size, available);
        case Moved(count) =>
          var n := Least(Least(count, size), available);
          if n > 0 { MovedExactly(attempts[1..], size - n, available - n); }
        case _ =>
      }
    }
  }

  /** What an attempt that ends a transfer reports. */
  predicate Ends(a: Attempt, error: int) {
    match a
    case Stopped => error == -125
    case Late => error == -110
    case Broken(errno) => error + errno == 0
    case Moved(count) => count == 0 && error == -104
    case _ => false
  }

  /** Attempts that do not end a transfer. */
  predicate GoOn(attempts: seq<Attempt>) {
    forall a <- attempts :: a.Interrupted? || a.Unready? || (a.Moved? && a.count > 0)
  }

  /** Exactly why a transfer fails: the first attempt that ends one decides, or the first to move anything when no bytes
      are left. */
  lemma {:induction false} TransferFails(before: seq<Attempt>, a: Attempt, rest: seq<Attempt>, size: nat,
                                         available: nat, error: int)
    requires GoOn(before) && Offered(before) < size && Offered(before) <= available
    requires Ends(a, error) || (a.Moved? && Offered(before) == available && error == -104)
    ensures Movement(before + [a] + rest, size, available) == Move(error, Offered(before), rest)
  {
    var all := before + [a] + rest;
    if before == [] {
      assert all[0] == a && all[1..] == rest;
    } else {
      var tail := before[1..];
      assert GoOn(tail) && before[0] in before && all[0] == before[0] && all[1..] == tail + [a] + rest;
      var n := if before[0].Moved? then before[0].count else 0;
      TransferFails(tail, a, rest, size - n, available - n, error);
    }
  }

  /** With no attempt left the deadline passes. */
  lemma {:induction false} TransferExpires(before: seq<Attempt>, size: nat, available: nat)
    requires GoOn(before) && Offered(before) < size && Offered(before) <= available
    ensures Movement(before, size, available) == Move(-110, Offered(before), [])
  {
    if before != [] {
      assert GoOn(before[1..]) && before[0] in before;
      var n := if before[0].Moved? then before[0].count else 0;
      TransferExpires(before[1..], size - n, available - n);
    }
  }

  /** More than enough changes nothing. */
  lemma {:induction false} AmpleMoves(attempts: seq<Attempt>, size: nat, available: nat)
    requires size <= available
    ensures Movement(attempts, size, available) == Movement(attempts, size, size)
  {
    if size > 0 && attempts != [] {
      match attempts[0] {
        case Interrupted => AmpleMoves(attempts[1..], size, available);
        case Unready => AmpleMoves(attempts[1..], size, available);
        case Moved(count) =>
          var n := Least(count, size);
          assert Least(n, available) == n && Least(n, size) == n;
          if n > 0 { AmpleMoves(attempts[1..], size - n, available - n); }
        case _ =>
      }
    }
  }

  class Socket {
    const incoming: seq<Byte>
    var taken: nat
    var sent: seq<Byte>
    var attempts: seq<Attempt>

    constructor (incoming: seq<Byte>, attempts: seq<Attempt>)
      ensures Valid() && this.incoming == incoming && this.attempts == attempts && taken == 0 && sent == []
    {
      this.incoming, this.attempts, taken, sent := incoming, attempts, 0, [];
    }

    ghost predicate Valid()
      reads this
    {
      taken <= |incoming|
    }

    /** Moves the buffer in order as far as the attempts carry: the whole of it, or a proper prefix and an error. */
    method Transfer(buffer: array<Byte>, sending: bool) returns (error: int, ghost moved: nat)
      requires Valid()
      modifies this, buffer
      ensures Valid()
      ensures Move(error, moved, attempts) ==
              Movement(old(attempts), buffer.Length, if sending then buffer.Length else |incoming| - old(taken))
      ensures sending ==> buffer[..] == old(buffer[..]) && taken == old(taken) && sent == old(sent) + buffer[..moved]
      ensures !sending ==> sent == old(sent) && taken == old(taken) + moved
      ensures !sending ==> buffer[..moved] == incoming[old(taken)..taken] && buffer[moved..] == old(buffer[moved..])
    {
      hide Movement, Onward, Progress;
      var at := 0;
      moved, error := 0, 0;
      ghost var first := buffer[..];
      ghost var available := if sending then buffer.Length else |incoming| - taken;
      Outset(attempts, buffer.Length, available);
      Begun(buffer, sending);
      while at < buffer.Length
        invariant Valid() && at == moved <= buffer.Length && Progress(buffer, sending, at, first, old(taken), old(sent))
        invariant at <= available && Onward(old(attempts), buffer.Length, available, attempts, at)
        decreases |attempts|
      {
        Attempted(old(attempts), buffer.Length, available, attempts, at);
        Progressed(buffer, sending, at, first, old(taken), old(sent));
        if attempts == [] { return ETIMEDOUT, moved; }
        var attempt := attempts[0];
        attempts := attempts[1..];
        match attempt {
          case Stopped => return ECANCELED, moved;
          case Late => return ETIMEDOUT, moved;
          case Interrupted =>
          case Unready =>
          case Broken(errno) => return 0 - errno, moved;
          case Moved(count) =>
            var n := Advance(buffer, at, count, sending, first, old(taken), old(sent));
            if n == 0 { return ECONNRESET, moved; }
            at, moved := at + n, moved + n;
        }
      }
      Progressed(buffer, sending, at, first, old(taken), old(sent));
      Attempted(old(attempts), buffer.Length, available, attempts, at);
    }

    /** From the texts and counts at the outset, the buffer has moved as far as this position, in order. */
    ghost predicate Progress(buffer: array<Byte>, sending: bool, at: nat, first: seq<Byte>, taken0: nat,
                             sent0: seq<Byte>)
      reads this`taken, this`sent, buffer
    {
      && at <= buffer.Length == |first| && taken0 <= taken <= |incoming| && buffer[at..] == first[at..]
      && (sending ==> buffer[..] == first && taken == taken0 && sent == sent0 + first[..at])
      && (!sending ==> sent == sent0 && taken == taken0 + at && buffer[..at] == incoming[taken0..taken])
    }

    lemma Begun(buffer: array<Byte>, sending: bool)
      requires taken <= |incoming|
      ensures Progress(buffer, sending, 0, buffer[..], taken, sent)
    {
    }

    lemma Progressed(buffer: array<Byte>, sending: bool, at: nat, first: seq<Byte>, taken0: nat, sent0: seq<Byte>)
      requires Progress(buffer, sending, at, first, taken0, sent0)
      ensures taken <= |incoming| && at <= buffer.Length
      ensures sending ==> buffer[..] == first && taken == taken0 && sent == sent0 + buffer[..at]
      ensures !sending ==> sent == sent0 && taken == taken0 + at && buffer[..at] == incoming[taken0..taken]
      ensures !sending ==> buffer[at..] == first[at..]
    {
    }

    /** One send or recv carries the progress on by what it moved. */
    method Advance(buffer: array<Byte>, at: nat, count: nat, sending: bool, ghost first: seq<Byte>, ghost taken0: nat,
                   ghost sent0: seq<Byte>) returns (n: nat)
      requires Progress(buffer, sending, at, first, taken0, sent0)
      modifies this`taken, this`sent, buffer
      ensures at + n <= buffer.Length && Progress(buffer, sending, at + n, first, taken0, sent0)
      ensures n == Least(Least(count, buffer.Length - at),
                         if sending then buffer.Length - at else |incoming| - (taken0 + at))
    {
      ghost var before := buffer[..];
      n := Exchange(buffer, at, count, sending);
      Stretch(before, first, at, n);
      Stretch(buffer[..], first, at, n);
      assert buffer[at + n..] == before[at + n..];
      assert buffer[..at + n] == buffer[..at] + buffer[at..at + n];
      if sending {
        assert first[..at] + buffer[at..at + n] == first[..at + n];
      } else {
        Joins(incoming, taken0, taken - n, taken);
      }
    }

    /** send or recv from a position: at most what was asked for and, receiving, what has arrived. */
    method Exchange(buffer: array<Byte>, at: nat, count: nat, sending: bool) returns (n: nat)
      requires Valid() && at <= buffer.Length
      modifies this`taken, this`sent, buffer
      ensures n ==
                Least(Least(count, buffer.Length - at), if sending then buffer.Length - at else |incoming| - old(taken))
      ensures Valid() && at + n <= buffer.Length && buffer[..at] == old(buffer[..at])
      ensures buffer[at + n..] == old(buffer[at + n..])
      ensures sending ==> buffer[..] == old(buffer[..]) && taken == old(taken) && sent == old(sent) + buffer[at..at + n]
      ensures !sending ==>
                sent == old(sent) && taken == old(taken) + n && buffer[at..at + n] == incoming[old(taken)..taken]
    {
      n := Least(count, buffer.Length - at);
      if sending {
        sent := sent + buffer[at..at + n];
      } else {
        n := Least(n, |incoming| - taken);
        Fill(buffer, at, incoming[taken..taken + n]);
        taken := taken + n;
      }
    }

    static method Fill(buffer: array<Byte>, at: nat, bytes: seq<Byte>)
      requires at + |bytes| <= buffer.Length
      modifies buffer
      ensures buffer[..at] == old(buffer[..at]) && buffer[at..at + |bytes|] == bytes
      ensures buffer[at + |bytes|..] == old(buffer[at + |bytes|..])
    {
      forall i | 0 <= i < |bytes| { buffer[at + i] := bytes[i]; }
    }

    /** One request and its answer, as the incoming bytes and the attempts decide them; what was sent is the
        request. */
    method Query(op: Byte) returns (r: Result<seq<Byte>>)
      requires Valid()
      modifies this
      ensures Valid() && old(taken) <= taken
      ensures r == Asked(op, incoming[old(taken)..], old(attempts))
      ensures old(sent) <= sent <= old(sent) + Header(op, 0, 0) && (r.Ok? ==> sent == old(sent) + Header(op, 0, 0))
      ensures r.Ok? ==> incoming[old(taken)..taken] == Frame(op, r.value)
    {
      hide Movement, Judge;
      var h := new Byte[16] [0, 0, 0, 0, 0x4b, 0x43, 0x46, 0x4c, 0, 1, 0, op, 0, 0, 0, 0];
      ghost var rest := incoming[taken..];
      assert h[..] == Header(op, 0, 0);
      var error, moved := Transfer(h, true);
      assert h[..moved] <= h[..];
      if error != 0 { return Err(error); }
      assert h[..moved] == h[..];
      error, moved := Transfer(h, false);
      if error != 0 { return Err(error); }
      TailParts(incoming, old(taken), 16, 0);
      assert h[..] == h[..moved] == rest[..16];
      var length := ReadHeader(h, op);
      if length.Err? { return Err(length.code); }
      var body := new Byte[length.value];
      error, moved := Transfer(body, false);
      if error != 0 { return Err(error); }
      TailParts(incoming, old(taken), 16, length.value);
      assert body[..] == body[..moved];
      r := Ok(body[..]);
      ParsedFrame(op, rest, body[..]);
    }

    /** The length of the body to read, or why there is none. */
    static method ReadHeader(h: array<Byte>, op: Byte) returns (length: Result<nat>)
      requires h.Length == 16
      ensures length == Judge(op, h[..])
    {
      assert h[..][..4] == h[0..4] && h[..][4..8] == h[4..8] && h[..][12..16] == h[12..16];
      assert h[..][8..12] == [h[8], h[9], h[10], h[11]];
      var n := U32(h, 0);
      var magic := U32(h, 4);
      MagicNumber(h[4..8]);
      if !(n <= MAX_BODY && magic == 0x4b43464c && h[8] == 0 && h[9] == 1 && h[10] == 0 && h[11] == op) {
        return Err(EPROTO);
      }
      var result := U32(h, 12);
      if result != 0 {
        if !(result >= 0x8000_0000 && n == 0) { return Err(EPROTO); }
        return Err(result - TWO_32);
      }
      length := if n == 0 then Err(EPROTO) else Ok(n);
    }
  }

  lemma TailParts(s: seq<Byte>, at: nat, n: nat, m: nat)
    requires at + n + m <= |s|
    ensures s[at..][..n] == s[at..at + n] && s[at..][n..n + m] == s[at + n..at + n + m]
    ensures s[at..][..n + m] == s[at..at + n + m]
  {
  }

  lemma MagicNumber(b: seq<Byte>)
    requires |b| == 4
    ensures BigEndian(b) == 0x4b43464c <==> b == MAGIC
  {
    BigEndianFour(MAGIC);
    WordOf(b);
    WordOf(MAGIC);
  }

  lemma Joins(s: seq<Byte>, i: nat, j: nat, k: nat)
    requires i <= |s| && j <= k <= |s|
    ensures i <= j ==> s[i..k] == s[i..j] + s[j..k]
  {
  }

  lemma Stretch(now: seq<Byte>, first: seq<Byte>, at: nat, n: nat)
    requires at + n <= |now| == |first|
    ensures now[..at + n] == now[..at] + now[at..at + n]
    ensures now[at..] == first[at..] ==> now[at + n..] == first[at + n..]
  {
    assert now[at + n..] == now[at..][n..] && first[at + n..] == first[at..][n..];
  }

  function Least(a: nat, b: nat): nat { if a < b then a else b }

  // ---- Frames ----

  function Header(op: Byte, length: Uint32, result: Uint32): (h: seq<Byte>)
    ensures |h| == 16
  {
    Word(length) + MAGIC + [0, 1, 0, op] + Word(result)
  }

  /** An answer as the peer frames it. */
  function Frame(op: Byte, body: seq<Byte>): seq<Byte>
    requires |body| <= MAX_BODY
  {
    Header(op, |body|, 0) + body
  }

  /** What a header says: the length of a body to come, or the error it reports or is. */
  function Judge(op: Byte, h: seq<Byte>): Result<nat>
    requires |h| == 16
  {
    var (length, result) := (BigEndian(h[..4]), BigEndian(h[12..16]));
    if length > MAX_BODY || h[4..8] != MAGIC || h[8..12] != [0, 1, 0, op] then Err(EPROTO)
    else if result != 0 then
      if result >= 0x8000_0000 && length == 0 then Err(result - TWO_32) else Err(EPROTO)
    else if length == 0 then Err(EPROTO)
    else Ok(length)
  }

  /** Reading a frame off the front of the bytes; the transport fails when there are too few. */
  function Parse(op: Byte, s: seq<Byte>): Result<seq<Byte>> {
    if |s| < 16 then Err(ECONNRESET) else
      var length :- Judge(op, s[..16]);
      if |s| < 16 + length then Err(ECONNRESET) else Ok(s[16..16 + length])
  }

  /** What a query yields: the transport's error, the error the header reports or is, or the body. */
  function Asked(op: Byte, s: seq<Byte>, attempts: seq<Attempt>): Result<seq<Byte>> {
    var request := Movement(attempts, 16, 16);
    if request.error != 0 then Err(request.error) else
      var head := Movement(request.left, 16, |s|);
      if head.error != 0 then Err(head.error) else
        var length :- Judge(op, s[..16]);
        var body := Movement(head.left, length, |s| - 16);
        if body.error != 0 then Err(body.error) else Ok(s[16..16 + length])
  }

  /** The attempts carry the request, a header and a body of that length. */
  predicate Carry(attempts: seq<Attempt>, length: nat) {
    var request := Movement(attempts, 16, 16).left;
    var head := Movement(request, 16, 16).left;
    16 <= Offered(attempts) && 16 <= Offered(request) && length <= Offered(head)
  }

  /** A query yields a body exactly when the bytes begin with its frame and the attempts carry the exchange. */
  lemma AskedExactly(op: Byte, s: seq<Byte>, attempts: seq<Attempt>, body: seq<Byte>)
    ensures Asked(op, s, attempts) == Ok(body) <==>
              0 < |body| <= MAX_BODY && Frame(op, body) <= s
              && Carry(attempts, |body|)
  {
    hide Movement, Offered, Judge, Frame;
    var request := Movement(attempts, 16, 16);
    MovedExactly(attempts, 16, 16);
    MovedExactly(request.left, 16, |s|);
    if 16 <= |s| {
      AmpleMoves(request.left, 16, |s|);
      var head := Movement(request.left, 16, |s|);
      MovedExactly(head.left, |body|, |s| - 16);
      if Asked(op, s, attempts) == Ok(body) {
        assert Parse(op, s) == Ok(body);
        ParsedFrame(op, s, body);
        assert s[..16 + |body|] == Frame(op, body);
      }
      if 0 < |body| <= MAX_BODY && Frame(op, body) <= s {
        FramePrefix(op, s, body);
      }
    } else if 0 < |body| <= MAX_BODY {
      FrameLength(op, body);
    }
  }

  lemma FrameLength(op: Byte, body: seq<Byte>)
    requires |body| <= MAX_BODY
    ensures |Frame(op, body)| == 16 + |body|
  {
  }

  lemma FramePrefix(op: Byte, s: seq<Byte>, body: seq<Byte>)
    requires 0 < |body| <= MAX_BODY && Frame(op, body) <= s
    ensures |s| >= 16 + |body| && Judge(op, s[..16]) == Ok(|body|) && s[16..16 + |body|] == body
  {
    FrameLength(op, body);
    var rest := s[16 + |body|..];
    assert s == Frame(op, body) + rest;
    FrameParses(op, body, rest);
  }

  /** Which error a query ends with: that of the first transfer to fail, or what the header reports or is. */
  lemma AskedErrs(op: Byte, s: seq<Byte>, attempts: seq<Attempt>)
    ensures var request := Movement(attempts, 16, 16);
            var head := Movement(request.left, 16, |s|);
            && (request.error != 0 ==> Asked(op, s, attempts) == Err(request.error))
            && (request.error == 0 && head.error != 0 ==> Asked(op, s, attempts) == Err(head.error))
            && (request.error == 0 && head.error == 0 ==>
                  && |s| >= 16
                  && (Judge(op, s[..16]).Err? ==> Asked(op, s, attempts) == Err(Judge(op, s[..16]).code))
                  && (Judge(op, s[..16]).Ok? ==>
                        var body := Movement(head.left, Judge(op, s[..16]).value, |s| - 16);
                        body.error != 0 ==> Asked(op, s, attempts) == Err(body.error)))
  {
    hide Movement, Judge;
  }

  /** A query that yields no body yields a negative code. */
  lemma AskedFails(op: Byte, s: seq<Byte>, attempts: seq<Attempt>)
    ensures Asked(op, s, attempts).Err? ==> Asked(op, s, attempts).code < 0
  {
    hide Movement;
    if |s| >= 16 { WordOf(s[..16][12..16]); }
  }

  /** A header announces a body, or reports an error with none, and anything else breaks the protocol. */
  lemma JudgeExactly(op: Byte, h: seq<Byte>)
    requires |h| == 16
    ensures forall n: Uint32 :: Judge(op, h) == Ok(n) <==> 0 < n <= 0x10_0000 && h == Header(op, n, 0)
    ensures forall code: int :: -0x8000_0000 <= code < 0 && h == Header(op, 0, code + TWO_32) ==>
              Judge(op, h) == Err(code)
    ensures Judge(op, h).Err? && Judge(op, h).code != -71 ==>
              -0x8000_0000 <= Judge(op, h).code < 0 && h == Header(op, 0, Judge(op, h).code + TWO_32)
  {
    hide BigEndian, Word;
    var (length, result) := (BigEndian(h[..4]), BigEndian(h[12..16]));
    WordOf(h[..4]);
    WordOf(h[12..16]);
    assert h == h[..4] + h[4..8] + h[8..12] + h[12..16];
    forall n: Uint32, r: Uint32 | h == Header(op, n, r) ensures length == n && result == r {
      HeaderParts(op, n, r, []);
      assert Header(op, n, r) + [] == h;
      WordBack(n);
      WordBack(r);
    }
  }

  lemma HeaderParts(op: Byte, length: Uint32, result: Uint32, rest: seq<Byte>)
    ensures var s := Header(op, length, result) + rest;
            s[..16] == Header(op, length, result) && s[16..] == rest
    ensures var h := Header(op, length, result);
            h[..4] == Word(length) && h[4..8] == MAGIC && h[8..12] == [0, 1, 0, op] && h[12..16] == Word(result)
  {
  }

  /** A framed body of at least one byte is read back, whatever follows it. */
  lemma FrameParses(op: Byte, body: seq<Byte>, rest: seq<Byte>)
    requires 0 < |body| <= MAX_BODY
    ensures Parse(op, Frame(op, body) + rest) == Ok(body)
  {
    var s := Frame(op, body) + rest;
    assert s == Header(op, |body|, 0) + (body + rest);
    HeaderParts(op, |body|, 0, body + rest);
    WordBack(|body|);
    WordBack(0);
    assert s[16..16 + |body|] == body;
  }

  /** A negative code sent as an error answer arrives as that code. */
  lemma ErrorParses(op: Byte, code: int, rest: seq<Byte>)
    requires -0x8000_0000 <= code < 0
    ensures Parse(op, Header(op, 0, code + TWO_32) + rest) == Err(code)
  {
    HeaderParts(op, 0, code + TWO_32, rest);
    WordBack(0);
    WordBack(code + TWO_32);
  }

  /** Only frames of this operation are taken for answers, and only non-empty bodies within the limit. */
  lemma ParsedFrame(op: Byte, s: seq<Byte>, body: seq<Byte>)
    requires Parse(op, s) == Ok(body)
    ensures 0 < |body| <= MAX_BODY && 16 + |body| <= |s| && s[..16 + |body|] == Frame(op, body)
  {
    var (n, h) := (|body|, s[..16]);
    WordOf(h[..4]);
    WordOf(h[12..16]);
    assert h == h[..4] + h[4..8] + h[8..12] + h[12..16];
    assert s[..16 + n] == h + s[16..16 + n];
  }
}
