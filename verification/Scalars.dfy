/** One scalar of a typed payload: its bytes in memory order and its text. */
module Scalars {
  import opened Results
  import opened Numerals

  type Byte = b: int | 0 <= b < 256

  function Pow256(w: nat): (p: nat)
    ensures p > 0
  {
    if w == 0 then 1 else 256 * Pow256(w - 1)
  }

  // ---- Little-endian memory order ----

  function FromBytes(b: seq<Byte>): nat {
    if b == [] then 0 else b[0] + 256 * FromBytes(b[1..])
  }

  function ToBytes(n: nat, w: nat): (b: seq<Byte>)
    ensures |b| == w
  {
    if w == 0 then [] else [n % 256] + ToBytes(n / 256, w - 1)
  }

  lemma {:induction false} FromToBytes(n: nat, w: nat)
    requires n < Pow256(w)
    ensures FromBytes(ToBytes(n, w)) == n
  {
    if w > 0 {
      FromToBytes(n / 256, w - 1);
      assert ToBytes(n, w)[1..] == ToBytes(n / 256, w - 1);
    }
  }

  lemma {:induction false} ToFromBytes(b: seq<Byte>)
    ensures FromBytes(b) < Pow256(|b|)
    ensures ToBytes(FromBytes(b), |b|) == b
  {
    if b != [] {
      ToFromBytes(b[1..]);
      assert FromBytes(b) % 256 == b[0] && FromBytes(b) / 256 == FromBytes(b[1..]);
      assert b == [b[0]] + b[1..];
    }
  }

  // ---- Two's complement ----

  /** std::numeric_limits<T> of a w-byte integer type. */
  function MinOf(signed: bool, w: nat): int { if signed then 0 - Pow256(w) / 2 else 0 }

  function MaxOf(signed: bool, w: nat): int { if signed then Pow256(w) / 2 - 1 else Pow256(w) - 1 }

  function IntOf(signed: bool, b: seq<Byte>): int {
    var n := FromBytes(b);
    if signed && n >= Pow256(|b|) / 2 then n - Pow256(|b|) else n
  }

  function BytesOf(v: int, w: nat): (b: seq<Byte>)
    requires 0 - Pow256(w) <= v
    ensures |b| == w
  {
    ToBytes(if v < 0 then v + Pow256(w) else v, w)
  }

  lemma Pow256Even(w: nat)
    requires w > 0
    ensures Pow256(w) % 2 == 0
  {
  }

  lemma IntOfBytesOf(signed: bool, v: int, w: nat)
    requires w > 0 && MinOf(signed, w) <= v <= MaxOf(signed, w)
    ensures IntOf(signed, BytesOf(v, w)) == v
  {
    Pow256Even(w);
    FromToBytes(if v < 0 then v + Pow256(w) else v, w);
  }

  lemma BytesOfIntOf(signed: bool, b: seq<Byte>)
    requires b != []
    ensures MinOf(signed, |b|) <= IntOf(signed, b) <= MaxOf(signed, |b|)
    ensures BytesOf(IntOf(signed, b), |b|) == b
  {
    Pow256Even(|b|);
    ToFromBytes(b);
  }

  lemma Widths()
    ensures Pow256(1) == 0x100 && Pow256(2) == 0x1_0000 && Pow256(4) == TWO_32 && Pow256(8) == TWO_64
  {
    assert Pow256(2) == 0x1_0000;
    assert Pow256(3) == 0x100_0000;
    assert Pow256(4) == TWO_32;
    assert Pow256(5) == 0x100_0000_0000;
    assert Pow256(6) == 0x1_0000_0000_0000;
    assert Pow256(7) == 0x100_0000_0000_0000;
  }

  // ---- Field kinds: 1 bool, 2..9 int8, uint8, .. uint64, 10 float32, 11 float64 ----

  const BOOL := 1

  predicate KnownKind(k: nat) { 1 <= k <= 11 }

  predicate IsInteger(k: nat) { 2 <= k <= 9 }

  predicate IsFloat(k: nat) { 10 <= k <= 11 }

  predicate IsSigned(k: nat) { k % 2 == 0 }

  function Width(k: nat): (w: nat)
    requires KnownKind(k)
    ensures w == 1 || w == 2 || w == 4 || w == 8
  {
    if k <= 3 then 1 else if k <= 5 then 2 else if k <= 7 || k == 10 then 4 else 8
  }

  function KindName(k: nat): string
    requires KnownKind(k)
  {
    ["", "bool", "int8", "uint8", "int16", "uint16", "int32", "uint32", "int64", "uint64", "float32", "float64"][k]
  }

  datatype ValueKind = BOOLEAN | SIGNED_INTEGER | UNSIGNED_INTEGER | FLOATING_POINT | STRING | STRUCT

  function KindOf(k: nat): ValueKind {
    if k == BOOL then BOOLEAN
    else if k >= 10 then FLOATING_POINT
    else if k % 2 == 0 then SIGNED_INTEGER else UNSIGNED_INTEGER
  }

  // ---- Floating point text is the C++ library's: show and parse are parameters ----

  /** Stream output with max_digits10 digits, and stream input of a whole text, on the bit pattern of a w-byte
      float. */
  datatype FloatText = FloatText(show: (nat, nat) -> string, parse: (nat, string) -> Option<nat>)

  /** Exponent bits not all ones. */
  predicate Finite(w: nat, bits: nat) {
    if w == 4 then (bits / 0x80_0000) % 0x100 != 0xFF else (bits / 0x10_0000_0000_0000) % 0x800 != 0x7FF
  }

  /** The only facts about the C++ library the laws below use. Parsing yields a w-byte pattern; max_digits10 digits
      identify a finite value; the text of NaN or infinity never reads as a finite value. */
  ghost predicate ExactText(ft: FloatText) {
    && (forall w: nat, t: string :: ft.parse(w, t).Some? ==> ft.parse(w, t).value < Pow256(w))
    && (forall w: nat, bits: nat :: (w == 4 || w == 8) && bits < Pow256(w) && Finite(w, bits) ==>
          ft.show(w, bits) != "" && ft.parse(w, ft.show(w, bits)) == Some(bits))
    && (forall w: nat, bits: nat :: (w == 4 || w == 8) && bits < Pow256(w) && !Finite(w, bits) ==>
          var back := ft.parse(w, ft.show(w, bits)); back.None? || !Finite(w, back.value))
  }

  /** The facts asked of the library do not contradict one another. */
  lemma ExactTextPossible() returns (ft: FloatText)
    ensures ExactText(ft)
  {
    ft := FloatText((w: nat, bits: nat) => Print(bits),
                    (w: nat, t: string) => if t != "" && AllDigits(t)
                        && Value(t) < Pow256(w) then Some(Value(t)) else None);
    forall bits: nat
      ensures Print(bits) != "" && AllDigits(Print(bits)) && Value(Print(bits)) == bits
    {
      PrintIsNumeral(bits);
    }
  }

  // ---- ReadScalar and WriteScalar ----

  function ReadScalar(ft: FloatText, k: nat, b: seq<Byte>): Result<string>
    requires KnownKind(k) ==> |b| == Width(k)
  {
    if k == BOOL then if b[0] > 1 then Err(EPROTO) else Ok(if b[0] == 1 then "true" else "false")
    else if IsInteger(k) then Ok(PrintInt(IntOf(IsSigned(k), b)))
    else if IsFloat(k) then Ok(ft.show(Width(k), FromBytes(b)))
    else Err(ENOTSUP)
  }

  function ParseInteger(k: nat, text: string): (r: Result<int>)
    requires IsInteger(k)
  {
    if text == "" then Err(EINVAL) else
      match FromChars(IsSigned(k), text)
      case OutOfRange => Err(ERANGE)
      case NoMatch => Err(EINVAL)
      case Matched(v, end) =>
        if end != |text| then Err(EINVAL)
        else if v < MinOf(IsSigned(k), Width(k)) || v > MaxOf(IsSigned(k), Width(k)) then Err(ERANGE)
        else Ok(v)
  }

  function ParseFloat(ft: FloatText, k: nat, text: string): Result<nat>
    requires IsFloat(k)
  {
    if text == "" then Err(EINVAL) else
      match ft.parse(Width(k), text)
      case None => Err(ERANGE)
      case Some(bits) => if Finite(Width(k), bits) then Ok(bits) else Err(ERANGE)
  }

  function WriteScalar(ft: FloatText, k: nat, text: string): (r: Result<seq<Byte>>)
    ensures r.Ok? ==> KnownKind(k) && |r.value| == Width(k)
    ensures r.Err? ==> r.code < 0
  {
    if k == BOOL then
      if text == "true" then Ok([1]) else if text == "false" then Ok([0]) else Err(EINVAL)
    else if IsInteger(k) then
      match ParseInteger(k, text)
      case Ok(v) => Ok(BytesOf(v, Width(k)))
      case Err(code) => Err(code)
    else if IsFloat(k) then
      match ParseFloat(ft, k, text)
      case Ok(bits) => Ok(ToBytes(bits, Width(k)))
      case Err(code) => Err(code)
    else Err(ENOTSUP)
  }

  /** The text the reader prints for a value that the writer accepted as text. */
  function Canonical(ft: FloatText, k: nat, text: string): string
    requires WriteScalar(ft, k, text).Ok?
  {
    if k == BOOL then text
    else if IsInteger(k) then PrintInt(ParseInteger(k, text).value)
    else ft.show(Width(k), ParseFloat(ft, k, text).value)
  }

  /** Integer text is accepted exactly when it spells a number of the type: an optional minus sign where the type is
      signed, one or more digits, nothing else. */
  lemma IntegerTextAccepted(k: nat, text: string, v: int)
    requires IsInteger(k)
    ensures ParseInteger(k, text) == Ok(v) <==>
            (&& MinOf(IsSigned(k), Width(k)) <= v <= MaxOf(IsSigned(k), Width(k))
             && if IsSigned(k) && text != "" && text[0] == '-'
                then text[1..] != "" && AllDigits(text[1..]) && v == 0 - Value(text[1..])
                else text != "" && AllDigits(text) && v == Value(text))
  {
    hide FromChars, Value, Pow256;
    Widths();
    if ParseInteger(k, text) == Ok(v) {
      FromCharsWhole(IsSigned(k), text);
    } else {
      var body := if IsSigned(k) && text != "" && text[0] == '-' then text[1..] else text;
      if body != "" && AllDigits(body) { FromCharsDigits(IsSigned(k), text); }
    }
  }

  lemma WriteThenRead(ft: FloatText, k: nat, text: string)
    requires ExactText(ft)
    requires WriteScalar(ft, k, text).Ok?
    ensures ReadScalar(ft, k, WriteScalar(ft, k, text).value) == Ok(Canonical(ft, k, text))
    ensures WriteScalar(ft, k, Canonical(ft, k, text)) == WriteScalar(ft, k, text)
  {
    if IsInteger(k) {
      Widths();
      var v := ParseInteger(k, text).value;
      IntOfBytesOf(IsSigned(k), v, Width(k));
      FromCharsPrint(IsSigned(k), v);
    } else if IsFloat(k) {
      FromToBytes(ParseFloat(ft, k, text).value, Width(k));
    }
  }

  /** A slot whose bytes can be shown but not written back: NaN and the infinities. */
  predicate NonFinite(k: nat, b: seq<Byte>) {
    IsFloat(k) && !Finite(Width(k), FromBytes(b))
  }

  /** Shown bytes are written back unchanged; only a non-finite float is refused. */
  lemma ReadThenWrite(ft: FloatText, k: nat, b: seq<Byte>)
    requires ExactText(ft)
    requires KnownKind(k) && |b| == Width(k)
    requires ReadScalar(ft, k, b).Ok?
    ensures WriteScalar(ft, k, ReadScalar(ft, k, b).value).Ok? <==> !NonFinite(k, b)
    ensures !NonFinite(k, b) ==> WriteScalar(ft, k, ReadScalar(ft, k, b).value) == Ok(b)
  {
    if k == BOOL {
      assert b == [b[0]];
    } else if IsInteger(k) {
      Widths();
      var v := IntOf(IsSigned(k), b);
      BytesOfIntOf(IsSigned(k), b);
      FromCharsPrint(IsSigned(k), v);
    } else if IsFloat(k) {
      ToFromBytes(b);
    }
  }
}
