/** What the codec reads and writes, said in bytes, numbers and characters. */
module CodecMeaning {
  import opened Results
  import opened Numerals
  import opened Scalars
  import opened ValueCodec
  import CodecLaws
  import RoundTrips

  // ---- Numbers in memory ----

  /** The number b[0] + b[1] * 256 + b[2] * 256^2 + .. of the first n bytes. */
  function LittleEndian(b: seq<Byte>, n: nat): nat
    requires n <= |b|
  {
    if n == 0 then 0 else LittleEndian(b, n - 1) + b[n - 1] * Pow256(n - 1)
  }

  lemma {:induction false} FromBytesSplit(b: seq<Byte>, n: nat)
    requires n <= |b|
    ensures FromBytes(b) == LittleEndian(b, n) + Pow256(n) * FromBytes(b[n..])
  {
    if n == 0 {
      assert b[0..] == b;
    } else {
      FromBytesSplit(b, n - 1);
      var rest := b[n - 1..];
      assert rest[0] == b[n - 1] && rest[1..] == b[n..];
      SplitOne(LittleEndian(b, n - 1), Pow256(n - 1), b[n - 1], FromBytes(b[n..]));
    }
  }

  lemma SplitOne(low: int, p: int, x: int, high: int)
    ensures low + p * (x + 256 * high) == low + x * p + 256 * p * high
  {
  }

  lemma InMemory(b: seq<Byte>)
    ensures FromBytes(b) == LittleEndian(b, |b|) < Pow256(|b|)
  {
    FromBytesSplit(b, |b|);
    ToFromBytes(b);
  }

  // ---- Integers ----

  /** int8, int16, int32 and int64. */
  predicate SignedKind(k: nat) { k == 2 || k == 4 || k == 6 || k == 8 }

  /** uint8, uint16, uint32 and uint64. */
  predicate UnsignedKind(k: nat) { k == 3 || k == 5 || k == 7 || k == 9 }

  function Bytes(k: nat): nat {
    if k == 2 || k == 3 then 1 else if k == 4 || k == 5 then 2 else if k == 6 || k == 7 then 4 else 8
  }

  /** 2 to the 8, 16, 32 and 64. */
  function Modulus(k: nat): int {
    if k == 2 || k == 3 then 0x100 else if k == 4 || k == 5 then 0x1_0000
    else if k == 6 || k == 7 then 0x1_0000_0000 else 0x1_0000_0000_0000_0000
  }

  /** The bytes are the memory of this number: its two's complement for the signed kinds. */
  predicate Denotes(k: nat, b: seq<Byte>, v: int) {
    && |b| == Bytes(k)
    && (v == LittleEndian(b, |b|) || v == LittleEndian(b, |b|) - Modulus(k))
    && if SignedKind(k) then 0 - Modulus(k) / 2 <= v < Modulus(k) / 2 else 0 <= v < Modulus(k)
  }

  lemma ModulusIsPower(k: nat)
    requires SignedKind(k) || UnsignedKind(k)
    ensures Width(k) == Bytes(k) && Pow256(Bytes(k)) == Modulus(k) && IsInteger(k) && k != BOOL
    ensures IsSigned(k) <==> SignedKind(k)
  {
    Widths();
  }

  /** What IntOf makes of the bytes is the number they are the memory of, and no other is. */
  lemma IntDenoted(k: nat, b: seq<Byte>)
    requires (SignedKind(k) || UnsignedKind(k)) && |b| == Bytes(k)
    ensures Denotes(k, b, IntOf(IsSigned(k), b))
    ensures forall v :: Denotes(k, b, v) ==> v == IntOf(IsSigned(k), b)
  {
    ModulusIsPower(k);
    InMemory(b);
  }

  /** An integer is shown as the decimal text of the number in memory. */
  lemma IntegerShown(ft: FloatText, k: nat, b: seq<Byte>) returns (v: int)
    requires (SignedKind(k) || UnsignedKind(k)) && |b| == Bytes(k)
    ensures ReadScalar(ft, k, b) == Ok(PrintInt(v)) && Denotes(k, b, v)
  {
    ModulusIsPower(k);
    IntDenoted(k, b);
    v := IntOf(IsSigned(k), b);
  }

  /** The text is the number: digits, after a minus sign for the signed kinds only. */
  predicate Spells(k: nat, text: string, v: int) {
    if SignedKind(k) && text != "" && text[0] == '-'
    then text[1..] != "" && AllDigits(text[1..]) && v == 0 - Value(text[1..])
    else text != "" && AllDigits(text) && v == Value(text)
  }

  /** Bytes are stored for exactly the texts of the numbers they are the memory of. */
  lemma IntegerStored(ft: FloatText, k: nat, text: string, b: seq<Byte>)
    requires SignedKind(k) || UnsignedKind(k)
    ensures WriteScalar(ft, k, text) == Ok(b) <==> exists v :: Spells(k, text, v) && Denotes(k, b, v)
  {
    hide Value, Pow256, ParseInteger, IntOf, BytesOf, ToBytes, FromBytes;
    ModulusIsPower(k);
    var signed := IsSigned(k);
    if WriteScalar(ft, k, text) == Ok(b) {
      var v := ParseInteger(k, text).value;
      IntegerTextAccepted(k, text, v);
      IntOfBytesOf(signed, v, Width(k));
      IntDenoted(k, b);
      assert Spells(k, text, v) && Denotes(k, b, v);
    }
    if exists v :: Spells(k, text, v) && Denotes(k, b, v) {
      var v :| Spells(k, text, v) && Denotes(k, b, v);
      IntDenoted(k, b);
      IntegerTextAccepted(k, text, v);
      BytesOfIntOf(signed, b);
    }
  }

  /** Digits stand for themselves, the last for units, the one before for tens. */
  lemma DigitPlaces(s: string, c: char)
    requires AllDigits(s) && '0' <= c <= '9'
    ensures AllDigits(s + [c]) && Value(s + [c]) == 10 * Value(s) + (c as int - 48) && Value("") == 0
  {
    assert (s + [c])[..|s|] == s;
  }

  // ---- Booleans and floats ----

  lemma BooleanShownAndStored(ft: FloatText, text: string, b: seq<Byte>)
    requires |b| == 1
    ensures ReadScalar(ft, 1, b) == (if b == [0] then Ok("false") else if b == [1] then Ok("true") else Err(EPROTO))
    ensures WriteScalar(ft, 1, text) == Ok(b) <==> (text == "true" && b == [1]) || (text == "false" && b == [0])
  {
    assert b == [b[0]];
  }

  /** The pattern of a float of w bytes with this sign, exponent and fraction. */
  function Pattern(w: nat, sign: nat, exponent: nat, fraction: nat): nat {
    if w == 4 then sign * 0x8000_0000 + exponent * 0x80_0000 + fraction
    else sign * 0x8000_0000_0000_0000 + exponent * 0x10_0000_0000_0000 + fraction
  }

  /** A float is finite unless all its exponent bits are set. */
  lemma FiniteByExponent(w: nat, sign: nat, exponent: nat, fraction: nat)
    requires sign < 2
    requires (w == 4 && exponent < 0x100 && fraction < 0x80_0000)
             || (w == 8 && exponent < 0x800 && fraction < 0x10_0000_0000_0000)
    ensures Finite(w, Pattern(w, sign, exponent, fraction)) <==> exponent != if w == 4 then 0xFF else 0x7FF
  {
    var bits := Pattern(w, sign, exponent, fraction);
    if w == 4 {
      assert bits / 0x80_0000 == sign * 0x100 + exponent;
    } else {
      assert bits / 0x10_0000_0000_0000 == sign * 0x800 + exponent;
    }
  }

  /** A float's text is the library's, over the pattern in memory; what is stored is always finite. */
  lemma FloatShownAndStored(ft: FloatText, k: nat, text: string, b: seq<Byte>)
    requires ExactText(ft) && (k == 10 || k == 11) && |b| == if k == 10 then 4 else 8
    ensures ReadScalar(ft, k, b) == Ok(ft.show(|b|, LittleEndian(b, |b|)))
    ensures WriteScalar(ft, k, text) == Ok(b) <==>
              text != "" && ft.parse(|b|, text) == Some(LittleEndian(b, |b|)) && Finite(|b|, LittleEndian(b, |b|))
  {
    InMemory(b);
    ToFromBytes(b);
    if ft.parse(|b|, text).Some? { FromToBytes(ft.parse(|b|, text).value, |b|); }
  }

  // ---- Refusals ----

  /** A text that is no value is bad input: out of range when its digits denote a number of no 64-bit type or of
      another width, and malformed otherwise. */
  lemma IntegerRefused(ft: FloatText, k: nat, text: string)
    requires SignedKind(k) || UnsignedKind(k)
    requires WriteScalar(ft, k, text).Err?
    ensures WriteScalar(ft, k, text).code == EINVAL || WriteScalar(ft, k, text).code == ERANGE
    ensures (exists v :: Spells(k, text, v)) ==> WriteScalar(ft, k, text).code == ERANGE
  {
    if exists v :: Spells(k, text, v) {
      ModulusIsPower(k);
      FromCharsDigits(IsSigned(k), text);
    }
  }

  lemma ScalarRefused(ft: FloatText, k: nat, text: string)
    requires 1 <= k <= 11 && WriteScalar(ft, k, text).Err?
    ensures WriteScalar(ft, k, text).code == EINVAL || WriteScalar(ft, k, text).code == ERANGE
  {
  }

  // ---- Whole payloads ----

  /** The names and kinds of value of the eleven types. */
  lemma KindTable()
    ensures forall k :: 1 <= k <= 11 ==>
              KindName(k) == ["bool", "int8", "uint8", "int16", "uint16", "int32", "uint32", "int64", "uint64",
                              "float32", "float64"][k - 1]
    ensures KindOf(1) == BOOLEAN && KindOf(10) == KindOf(11) == FLOATING_POINT
    ensures KindOf(2) == KindOf(4) == KindOf(6) == KindOf(8) == SIGNED_INTEGER
    ensures KindOf(3) == KindOf(5) == KindOf(7) == KindOf(9) == UNSIGNED_INTEGER
  {
  }

  /** The bytes of element j, where the elements stand one after another. */
  function Slot(f: FieldInfo, bytes: seq<Byte>, j: nat): seq<Byte>
    requires f.offset + (j + 1) * f.elementSize <= |bytes|
  {
    bytes[f.offset + j * f.elementSize..f.offset + j * f.elementSize + f.elementSize]
  }

  /** The text of element j: the value of a scalar, or the j-th of an array. */
  function TextAt(f: FieldInfo, v: FieldValue, j: nat): string
    requires f.arrayCount == 1 || j < |v.arrayValues|
  {
    if f.arrayCount == 1 then v.value else v.arrayValues[j]
  }

  lemma SlotInside(f: FieldInfo, bytes: seq<Byte>, j: nat)
    requires Placed(f, |bytes|) && j < f.arrayCount
    ensures f.offset + (j + 1) * f.elementSize <= |bytes| && Slot(f, bytes, j) == Element(f, bytes, j)
  {
    ElementInside(f, j, |bytes|);
    assert (j + 1) * f.elementSize == j * f.elementSize + f.elementSize;
  }

  /** The shape of a field's value: its name and type, and one text per element. */
  predicate Shaped(f: FieldInfo, v: FieldValue) {
    && v.name == f.name && 1 <= f.kind <= 11 && v.kind == KindOf(f.kind) && v.typeName == KindName(f.kind)
    && |v.arrayValues| == (if f.arrayCount == 1 then 0 else f.arrayCount) && (f.arrayCount != 1 ==> v.value == "")
  }

  /** Every element stands in its own slot and has this text. */
  ghost predicate Reads(ft: FloatText, f: FieldInfo, v: FieldValue, bytes: seq<Byte>) {
    forall j :: 0 <= j < f.arrayCount && (f.arrayCount == 1 || j < |v.arrayValues|) ==>
      && f.offset + (j + 1) * f.elementSize <= |bytes| && (1 <= f.kind <= 11 ==> f.elementSize == Width(f.kind))
      && ReadScalar(ft, f.kind, Slot(f, bytes, j)) == Ok(TextAt(f, v, j))
  }

  /** Decoding shows, for every declared field in order, what its slots read. */
  lemma DecodedPlainly(ft: FloatText, d: TypeDescriptor, p: Payload, v: DataSnapshot)
    requires Decode(ft, d, p) == Ok(v)
    ensures v.typeName == d.typeName && v.typeId == d.typeId == p.typeId && v.sequence == p.sequence
    ensures |p.bytes| == d.payloadSize && |v.fields| == |d.fields|
    ensures forall i :: 0 <= i < |d.fields| ==>
              Shaped(d.fields[i], v.fields[i]) && Reads(ft, d.fields[i], v.fields[i], p.bytes)
  {
    hide Decode, ReadScalar, Element, KindName, KindOf;
    RoundTrips.DecodeMeaning(ft, d, p);
    forall i | 0 <= i < |d.fields|
      ensures Shaped(d.fields[i], v.fields[i]) && Reads(ft, d.fields[i], v.fields[i], p.bytes)
    {
      assert RoundTrips.Readable(ft, d.fields[i], p.bytes);
      FieldPlainly(ft, d.fields[i], p.bytes);
    }
  }

  lemma FieldPlainly(ft: FloatText, f: FieldInfo, bytes: seq<Byte>)
    requires RoundTrips.Readable(ft, f, bytes)
    ensures var v := FieldOf(f, RoundTrips.Shown(ft, f, bytes)); Shaped(f, v) && Reads(ft, f, v, bytes)
  {
    hide ReadScalar, KindName, KindOf;
    var v := FieldOf(f, RoundTrips.Shown(ft, f, bytes));
    forall j | 0 <= j < f.arrayCount && (f.arrayCount == 1 || j < |v.arrayValues|)
      ensures f.offset + (j + 1) * f.elementSize <= |bytes| && f.elementSize == Width(f.kind)
      ensures ReadScalar(ft, f.kind, Slot(f, bytes, j)) == Ok(TextAt(f, v, j))
    {
      SlotInside(f, bytes, j);
    }
  }

  /** Every element is written into its own slot. */
  ghost predicate Wrote(ft: FloatText, f: FieldInfo, v: FieldValue, bytes: seq<Byte>) {
    && (f.arrayCount > 1 ==> |v.arrayValues| == f.arrayCount)
    && forall j :: 0 <= j < f.arrayCount && (f.arrayCount == 1 || j < |v.arrayValues|) ==>
      && f.offset + (j + 1) * f.elementSize <= |bytes|
      && WriteScalar(ft, f.kind, TextAt(f, v, j)) == Ok(Slot(f, bytes, j))
  }

  /** The one input of a field's name is written into its slots. */
  ghost predicate WrittenFrom(ft: FloatText, f: FieldInfo, fields: seq<FieldValue>, bytes: seq<Byte>) {
    exists v :: v in fields && v.name == f.name && Wrote(ft, f, v, bytes)
  }

  predicate Outside(infos: seq<FieldInfo>, at: nat) {
    forall f <- infos :: !(f.offset <= at < f.offset + f.arrayCount * f.elementSize)
  }

  /** Encoding writes, for every declared field, the texts of the one input of its name into its slots. */
  lemma EncodedPlainly(ft: FloatText, d: TypeDescriptor, input: DataSnapshot, seed: Option<Payload>, out: Payload)
    requires Encode(ft, d, input, seed) == Ok(out) && CodecLaws.DisjointFields(d.fields)
    ensures |out.bytes| == d.payloadSize && out.typeId == d.typeId
    ensures out.sequence == if seed.Some? then seed.value.sequence else 0
    ensures forall i :: 0 <= i < |d.fields| ==>
              WrittenFrom(ft, d.fields[i], input.fields, out.bytes)
    ensures forall at :: 0 <= at < d.payloadSize && Outside(d.fields, at) ==>
              out.bytes[at] == if seed.Some? && at < |seed.value.bytes| then seed.value.bytes[at] else 0
  {
    hide Encode, WriteScalar;
    CodecLaws.EncodeHolds(ft, d, input, seed);
    CodecLaws.EncodeCoverage(ft, d, input, seed);
    CodecLaws.EncodeAccepts(ft, d, input, seed);
    forall i | 0 <= i < |d.fields|
      ensures WrittenFrom(ft, d.fields[i], input.fields, out.bytes)
    {
      var v := CodecLaws.Named(input.fields, d.fields[i].name);
      HeldPlainly(ft, d.fields[i], v, out.bytes);
    }
    forall at | 0 <= at < d.payloadSize && Outside(d.fields, at)
      ensures out.bytes[at] == if seed.Some? && at < |seed.value.bytes| then seed.value.bytes[at] else 0
    {
      forall i | 0 <= i < |d.fields| ensures !CodecLaws.Covers(d.fields[i], at) {
        var f := d.fields[i];
        assert f in d.fields && Length(f) == f.arrayCount * f.elementSize;
      }
      assert CodecLaws.Undeclared(d.fields, at);
    }
  }

  lemma HeldPlainly(ft: FloatText, f: FieldInfo, v: FieldValue, bytes: seq<Byte>)
    requires CodecLaws.Holds(ft, f, v, bytes)
    ensures Wrote(ft, f, v, bytes)
  {
    hide WriteScalar;
    forall j | 0 <= j < f.arrayCount && (f.arrayCount == 1 || j < |v.arrayValues|)
      ensures f.offset + (j + 1) * f.elementSize <= |bytes|
      ensures WriteScalar(ft, f.kind, TextAt(f, v, j)) == Ok(Slot(f, bytes, j))
    {
      SlotInside(f, bytes, j);
    }
  }
}
