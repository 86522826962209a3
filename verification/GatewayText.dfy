/** Strings in a gateway answer: escaped metadata bytes, decimals of 64 bits and hexadecimal identities. */
module GatewayText {
  import opened Results
  import Numerals

  /** A parsed JSON document; a string is its UTF-8 bytes, one char each. */
  datatype Json =
    | Null
    | Bool(b: bool)
    | Int(n: int)
    | Real
    | Str(s: string)
    | Arr(items: seq<Json>)
    | Obj(fields: map<string, Json>)

  const MAX_TEXT := 8192

  /** Every rejection of content ends the cycle with the same code. */
  function Refused<T>(): Result<T> { Err(EPROTO) }

  // ---- Metadata text ----

  predicate IsBytes(s: string) { forall i :: 0 <= i < |s| ==> s[i] as int < 256 }

  predicate IsTwoByteLead(c: char) { c as int == 0xc2 || c as int == 0xc3 }

  predicate IsContinuation(c: char) { 0x80 <= c as int <= 0xbf }

  /** The low two bits of the lead and the low six of the continuation. */
  function Joined(lead: char, next: char): char {
    (lead as int % 4 * 64 + next as int % 64) as char
  }

  /** Each byte b travels as the code point U+00b in UTF-8 (RFC 3629, section 3). */
  function Escape(bytes: string): string
    requires IsBytes(bytes)
  {
    if bytes == "" then "" else
      var c := bytes[0] as int;
      (if c < 128 then [bytes[0]] else [(0xc0 + c / 64) as char, (0x80 + c % 64) as char]) + Escape(bytes[1..])
  }

  function Unescape(s: string): Option<string> {
    if s == "" then Some("")
    else if s[0] as int < 128 then Prepend(s[0], Unescape(s[1..]))
    else if IsTwoByteLead(s[0]) && |s| > 1 && IsContinuation(s[1]) then Prepend(Joined(s[0], s[1]), Unescape(s[2..]))
    else None
  }

  function Prepend(c: char, rest: Option<string>): Option<string> {
    match rest
    case Some(r) => Some([c] + r)
    case None => None
  }

  /** Unescaping undoes escaping, on every byte string. */
  lemma {:induction false} UnescapeEscape(bytes: string)
    requires IsBytes(bytes)
    ensures Unescape(Escape(bytes)) == Some(bytes)
  {
    if bytes != "" {
      UnescapeEscape(bytes[1..]);
      var (s, c) := (Escape(bytes), bytes[0] as int);
      if c < 128 {
        assert s[1..] == Escape(bytes[1..]);
      } else {
        assert s[2..] == Escape(bytes[1..]);
        assert Joined(s[0], s[1]) == bytes[0];
      }
      assert bytes == [bytes[0]] + bytes[1..];
    }
  }

  lemma JoinedSplits(lead: char, next: char)
    requires IsTwoByteLead(lead) && IsContinuation(next)
    ensures var c := Joined(lead, next) as int;
            128 <= c < 256 && (0xc0 + c / 64) as char == lead && (0x80 + c % 64) as char == next
  {
  }

  /** Whatever is accepted is the escape of what it decodes to: no byte string has two accepted spellings. */
  lemma {:induction false} EscapeUnescape(s: string)
    requires Unescape(s).Some?
    ensures IsBytes(Unescape(s).value) && Escape(Unescape(s).value) == s
  {
    if s != "" {
      var b := Unescape(s).value;
      if s[0] as int < 128 {
        EscapeUnescape(s[1..]);
        assert b[0] == s[0] && b[1..] == Unescape(s[1..]).value;
        assert s == [s[0]] + s[1..];
      } else {
        hide Joined;
        EscapeUnescape(s[2..]);
        JoinedSplits(s[0], s[1]);
        assert b[0] == Joined(s[0], s[1]) && b[1..] == Unescape(s[2..]).value;
        assert s == [s[0], s[1]] + s[2..];
      }
    }
  }

  /** One byte of ASCII stands for itself, any other for two: a lead with its top two bits, and its low six bits. */
  lemma EscapeOne(c: char)
    requires c as int < 256
    ensures Escape([c]) == if c as int < 128 then [c]
                           else [if c as int < 192 then 0xc2 as char else 0xc3 as char,
                                 (0x80 + c as int % 64) as char]
    ensures Escape("") == ""
  {
    assert [c][1..] == "";
  }

  /** Byte after byte. */
  lemma {:induction false} EscapeJoins(a: string, b: string)
    requires IsBytes(a) && IsBytes(b)
    ensures IsBytes(a + b) && Escape(a + b) == Escape(a) + Escape(b)
  {
    if a == "" {
      assert a + b == b;
    } else {
      EscapeJoins(a[1..], b);
      assert (a + b)[1..] == a[1..] + b;
    }
  }

  function TextOf(j: Json): Result<string> {
    if j.Str? && |j.s| <= MAX_TEXT && Unescape(j.s).Some? then Ok(Unescape(j.s).value) else Refused()
  }

  /** Exactly the escapes of byte strings that fit the limit are accepted, each as the string it is the escape of. */
  lemma TextExactly(s: string, bytes: string)
    ensures TextOf(Str(s)) == Ok(bytes) <==> IsBytes(bytes) && s == Escape(bytes) && |s| <= 8192
  {
    if Unescape(s).Some? { EscapeUnescape(s); }
    if IsBytes(bytes) { UnescapeEscape(bytes); }
  }

  method Text(j: Json) returns (r: Result<string>)
    ensures r == TextOf(j)
  {
    if !j.Str? || |j.s| > MAX_TEXT { return Refused(); }
    var (s, bytes, i) := (j.s, "", 0);
    assert s[0..] == s;
    BeforeNothing(Unescape(s));
    while i < |s|
      invariant 0 <= i <= |s|
      invariant Unescape(s) == Before(bytes, Unescape(s[i..]))
    {
      var c := s[i];
      Advance(s, i);
      if c as int < 128 {
        BeforeOne(bytes, c, Unescape(s[i + 1..]));
        bytes, i := bytes + [c], i + 1;
      } else {
        if !(IsTwoByteLead(c) && i + 1 < |s|) { return Refused(); }
        var next := s[i + 1];
        if !IsContinuation(next) { return Refused(); }
        BeforeOne(bytes, Joined(c, next), Unescape(s[i + 2..]));
        bytes, i := bytes + [Joined(c, next)], i + 2;
      }
    }
    assert s[i..] == "";
    assert bytes + "" == bytes;
    r := Ok(bytes);
  }

  function Before(bytes: string, rest: Option<string>): Option<string> {
    match rest
    case Some(r) => Some(bytes + r)
    case None => None
  }

  lemma BeforeNothing(rest: Option<string>)
    ensures Before("", rest) == rest
  {
    if rest.Some? { assert "" + rest.value == rest.value; }
  }

  lemma BeforeOne(bytes: string, c: char, rest: Option<string>)
    ensures Before(bytes, Prepend(c, rest)) == Before(bytes + [c], rest)
  {
    if rest.Some? { assert bytes + ([c] + rest.value) == bytes + [c] + rest.value; }
  }

  lemma Advance(s: string, i: nat)
    requires i < |s|
    ensures s[i..][0] == s[i] && s[i..][1..] == s[i + 1..]
    ensures i + 1 < |s| ==> s[i..][1] == s[i + 1] && s[i..][2..] == s[i + 2..]
  {
  }

  // ---- Decimals ----

  /** 64-bit numbers travel as decimal strings. */
  function Decimal(j: Json): Result<Numerals.Uint64> {
    if !(j.Str? && 0 < |j.s| <= 20) then Refused() else
      match Numerals.FromChars(false, j.s)
      case Matched(v, end) => if end == |j.s| && 0 <= v < Numerals.TWO_64 then Ok(v) else Refused()
      case _ => Refused()
  }

  /** Accepted are one to twenty digits below 2^64, leading zeros included, as the number they denote. */
  lemma DecimalExactly(s: string, v: Numerals.Uint64)
    ensures Decimal(Str(s)) == Ok(v) <==> 0 < |s| <= 20 && Numerals.AllDigits(s) && Numerals.Value(s) == v
  {
    if 0 < |s| <= 20 {
      if Numerals.AllDigits(s) {
        Numerals.DigitRunAll(s);
        assert s[..|s|] == s;
      }
      if Decimal(Str(s)).Ok? { Numerals.FromCharsWhole(false, s); }
    }
  }

  /** Every 64-bit number survives printing and reading back. */
  lemma DecimalPrinted(v: Numerals.Uint64)
    ensures Decimal(Str(Numerals.Print(v))) == Ok(v)
  {
    Numerals.TwentyDigits(v);
    Numerals.PrintIsNumeral(v);
    DecimalExactly(Numerals.Print(v), v);
  }

  /** Integer: a JSON integer between the bounds. */
  function Integer(j: Json, low: int, high: int): Result<int> {
    if j.Int? && low <= j.n <= high then Ok(j.n) else Refused()
  }

  // ---- Identities ----

  predicate IsHexDigit(c: char) { '0' <= c <= '9' || 'a' <= c <= 'f' || 'A' <= c <= 'F' }

  function LowerOne(c: char): char { if 'A' <= c <= 'F' then (c as int + 32) as char else c }

  function Lower(s: string): string { seq(|s|, i requires 0 <= i < |s| => LowerOne(s[i])) }

  predicate AllHex(s: string) { forall i :: 0 <= i < |s| ==> IsHexDigit(s[i]) }

  predicate SomeNonzero(s: string) { exists i :: 0 <= i < |s| && s[i] != '0' }

  /** A 128-bit identity in the spelling used for comparison. */
  predicate IsCanonicalId(s: string) {
    |s| == 32 && forall i :: 0 <= i < 32 ==> '0' <= s[i] <= '9' || 'a' <= s[i] <= 'f'
  }

  function IdOf(j: Json, zero: bool): Result<string> {
    if j.Str? && |j.s| == 32 && AllHex(j.s) && (zero || SomeNonzero(j.s)) then Ok(Lower(j.s)) else Refused()
  }

  method Id(j: Json, zero: bool) returns (r: Result<string>)
    ensures r == IdOf(j, zero)
  {
    hide LowerOne, IsHexDigit;
    if !j.Str? || |j.s| != 32 { return Refused(); }
    LowerKeepsZero();
    var (s, nonzero) := (j.s, false);
    for i := 0 to 32
      invariant |s| == 32 && forall k :: i <= k < 32 ==> s[k] == j.s[k]
      invariant forall k :: 0 <= k < i ==> s[k] == LowerOne(j.s[k]) && IsHexDigit(j.s[k])
      invariant nonzero <==> exists k :: 0 <= k < i && j.s[k] != '0'
    {
      var c := s[i];
      if !IsHexDigit(c) { return Refused(); }
      s := s[i := LowerOne(c)];
      nonzero := nonzero || LowerOne(c) != '0';
    }
    assert s == Lower(j.s);
    r := if zero || nonzero then Ok(s) else Refused();
  }

  lemma LowerKeepsZero()
    ensures forall c :: LowerOne(c) == '0' <==> c == '0'
  {
  }

  /** An accepted identity is canonical, and accepting it again changes nothing. */
  lemma IdIsCanonical(s: string, zero: bool)
    requires IdOf(Str(s), zero).Ok?
    ensures IsCanonicalId(IdOf(Str(s), zero).value)
    ensures IdOf(Str(IdOf(Str(s), zero).value), zero) == IdOf(Str(s), zero)
  {
    var t := Lower(s);
    assert forall i :: 0 <= i < 32 ==> IsHexDigit(t[i]) && LowerOne(t[i]) == t[i];
    assert Lower(t) == t;
    if SomeNonzero(s) {
      var i :| 0 <= i < |s| && s[i] != '0';
      assert t[i] != '0';
    }
  }

  /** Digits and small letters stay, and each capital letter becomes its small one. */
  lemma IdExactly(s: string, zero: bool, id: string)
    ensures IdOf(Str(s), zero) == Ok(id) <==>
            && |s| == 32 == |id| && (zero || exists i :: 0 <= i < 32 && id[i] != '0')
            && forall i :: 0 <= i < 32 ==>
                 || (('0' <= s[i] <= '9' || 'a' <= s[i] <= 'f') && id[i] == s[i])
                 || ('A' <= s[i] <= 'F' && 'a' <= id[i] <= 'f' && id[i] as int - 'a' as int == s[i] as int - 'A' as int)
  {
    if |s| == 32 == |id| && IdOf(Str(s), zero).Ok? {
      assert IdOf(Str(s), zero).value == id <==> forall i :: 0 <= i < 32 ==> LowerOne(s[i]) == id[i];
    }
    if |s| == 32 && exists i :: 0 <= i < 32 && s[i] != '0' {
      var i :| 0 <= i < 32 && s[i] != '0';
      assert LowerOne(s[i]) != '0';
    }
  }
}
