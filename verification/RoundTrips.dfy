/** The two round trips of the codec. */
module RoundTrips {
  import opened Results
  import Numerals
  import opened Scalars
  import opened ValueCodec
  import opened CodecLaws

  // ---- What Decode yields ----

  predicate Readable(ft: FloatText, f: FieldInfo, bytes: seq<Byte>) {
    && Placed(f, |bytes|)
    && forall j :: 0 <= j < f.arrayCount ==> ReadScalar(ft, f.kind, Element(f, bytes, j)).Ok?
  }

  /** The text shown for each element. */
  function Shown(ft: FloatText, f: FieldInfo, bytes: seq<Byte>): (texts: seq<string>)
    requires Readable(ft, f, bytes)
    ensures |texts| == f.arrayCount
  {
    seq(f.arrayCount, j requires 0 <= j < f.arrayCount => ReadScalar(ft, f.kind, Element(f, bytes, j)).value)
  }

  lemma DecodeFieldEffect(ft: FloatText, f: FieldInfo, bytes: seq<Byte>)
    requires ValidField(f) && |bytes| < Numerals.TWO_32
    ensures DecodeField(ft, f, bytes).Ok? <==> Readable(ft, f, bytes)
    ensures Readable(ft, f, bytes) ==> DecodeField(ft, f, bytes) == Ok(FieldOf(f, Shown(ft, f, bytes)))
  {
    if Bounds(f, |bytes|) {
      ReadElementsEffect(ft, f, bytes, f.arrayCount);
      var r := ReadElements(ft, f, bytes, f.arrayCount);
      if Readable(ft, f, bytes) {
        assert r.value == Shown(ft, f, bytes);
      }
    }
  }

  lemma {:induction false} DecodeFieldsEffect(ft: FloatText, infos: seq<FieldInfo>, bytes: seq<Byte>)
    requires (forall f <- infos :: ValidField(f)) && |bytes| < Numerals.TWO_32
    ensures var r := DecodeFields(ft, infos, bytes);
            && (r.Ok? <==> forall f <- infos :: Readable(ft, f, bytes))
            && (r.Ok? ==> forall i :: 0 <= i < |infos| ==> r.value[i] == FieldOf(infos[i], Shown(ft, infos[i], bytes)))
  {
    if infos != [] {
      var last := |infos| - 1;
      assert infos == infos[..last] + [infos[last]];
      assert ValidField(infos[last]);
      DecodeFieldsEffect(ft, infos[..last], bytes);
      DecodeFieldEffect(ft, infos[last], bytes);
    }
  }

  /** Exactly when Decode succeeds, and what it yields: each field's element texts in declaration order. */
  lemma DecodeMeaning(ft: FloatText, d: TypeDescriptor, p: Payload)
    ensures Decode(ft, d, p).Ok? <==>
            && ValidDescriptor(d) && p.typeId == d.typeId && |p.bytes| == d.payloadSize
            && forall f <- d.fields :: Readable(ft, f, p.bytes)
    ensures Decode(ft, d, p).Ok? ==>
              var v := Decode(ft, d, p).value;
              && v.typeName == d.typeName && v.typeId == d.typeId && v.sequence == p.sequence
              && |v.fields| == |d.fields|
              && forall i :: 0 <= i < |d.fields| ==>
                 v.fields[i] == FieldOf(d.fields[i], Shown(ft, d.fields[i], p.bytes))
  {
    if ValidDescriptor(d) && |p.bytes| == d.payloadSize {
      DecodeFieldsEffect(ft, d.fields, p.bytes);
    }
  }

  lemma FieldOfTexts(f: FieldInfo, texts: seq<string>)
    requires KnownKind(f.kind) && |texts| == f.arrayCount
    ensures ShapeFits(f, FieldOf(f, texts)) && Texts(f, FieldOf(f, texts)) == texts
  {
  }

  // ---- Decode, then Encode over the same payload ----

  /** Some element of the field is NaN or infinite. */
  predicate HasNonFinite(f: FieldInfo, bytes: seq<Byte>)
    requires Placed(f, |bytes|)
  {
    exists j :: 0 <= j < f.arrayCount && NonFinite(f.kind, Element(f, bytes, j))
  }

  lemma ShownIsAccepted(ft: FloatText, f: FieldInfo, bytes: seq<Byte>)
    requires ExactText(ft) && Readable(ft, f, bytes)
    ensures Acceptable(ft, f, FieldOf(f, Shown(ft, f, bytes)), |bytes|) <==> !HasNonFinite(f, bytes)
    ensures !HasNonFinite(f, bytes) ==> Holds(ft, f, FieldOf(f, Shown(ft, f, bytes)), bytes)
  {
    var texts := Shown(ft, f, bytes);
    FieldOfTexts(f, texts);
    forall j | 0 <= j < f.arrayCount
      ensures WriteScalar(ft, f.kind, texts[j]).Ok? <==> !NonFinite(f.kind, Element(f, bytes, j))
      ensures !NonFinite(f.kind, Element(f, bytes, j)) ==> WriteScalar(ft, f.kind, texts[j]) == Ok(Element(f, bytes, j))
    {
      ReadThenWrite(ft, f.kind, Element(f, bytes, j));
    }
  }

  lemma {:induction false} WriteElementsBack(ft: FloatText, f: FieldInfo, texts: seq<string>, n: nat, bytes: seq<Byte>)
    requires Placed(f, |bytes|) && n <= |texts| == f.arrayCount
    requires forall j :: 0 <= j < n ==> WriteScalar(ft, f.kind, texts[j]) == Ok(Element(f, bytes, j))
    ensures WriteElements(ft, f, texts, n, bytes) == Ok(bytes)
  {
    if n > 0 {
      WriteElementsBack(ft, f, texts, n - 1, bytes);
      ElementInside(f, n - 1, |bytes|);
      assert SetElement(f, bytes, n - 1, Element(f, bytes, n - 1)) == bytes;
    }
  }

  /** Writing what a payload already holds leaves it as it is, overlapping fields included. */
  lemma {:induction false} EncodeFieldsBack(
      ft: FloatText, infos: seq<FieldInfo>, fields: seq<FieldValue>, used: seq<bool>, bytes: seq<Byte>)
    requires (forall f <- infos :: ValidField(f)) && |bytes| < Numerals.TWO_32 && |used| == |infos|
    requires forall k :: 0 <= k < |fields| ==>
               Place(infos, fields[k]) < |infos| && Holds(ft, infos[Place(infos, fields[k])], fields[k], bytes)
    ensures EncodeFields(ft, infos, fields, used, bytes).Ok? ==>
              EncodeFields(ft, infos, fields, used, bytes) == Ok(bytes)
    decreases |fields|
  {
    if fields != [] {
      var i := Place(infos, fields[0]);
      WriteElementsBack(ft, infos[i], Texts(infos[i], fields[0]), infos[i].arrayCount, bytes);
      if EncodeField(ft, infos[i], fields[0], bytes).Ok? {
        EncodeFieldsBack(ft, infos, fields[1..], used[i := true], bytes);
      }
    }
  }

  /** One field of a shown payload, offered back to the encoder. */
  lemma DecodedSupplies(ft: FloatText, d: TypeDescriptor, p: Payload, i: nat)
    requires ExactText(ft) && Decode(ft, d, p).Ok? && DistinctNames(d.fields) && i < |d.fields|
    ensures Placed(d.fields[i], |p.bytes|) && |Decode(ft, d, p).value.fields| == |d.fields|
    ensures Supplies(ft, d.fields, i, Decode(ft, d, p).value.fields, d.payloadSize) <==>
              !HasNonFinite(d.fields[i], p.bytes)
    ensures Place(d.fields, Decode(ft, d, p).value.fields[i]) == i
    ensures !HasNonFinite(d.fields[i], p.bytes) ==> Holds(ft, d.fields[i], Decode(ft, d, p).value.fields[i], p.bytes)
  {
    var fields := Decode(ft, d, p).value.fields;
    DecodeMeaning(ft, d, p);
    assert Readable(ft, d.fields[i], p.bytes);
    ShownIsAccepted(ft, d.fields[i], p.bytes);
    PlaceOfOwnName(d.fields, i);
    assert fields[i] in fields;
    OnlyOwnField(d.fields, fields, i);
  }

  /** A shown payload encodes over itself byte for byte, padding included, unless two declared fields share a name or
      some float is not finite; then it does not encode at all. */
  lemma DecodeThenEncode(ft: FloatText, d: TypeDescriptor, p: Payload)
    requires ExactText(ft) && Decode(ft, d, p).Ok?
    ensures Encode(ft, d, Decode(ft, d, p).value, Some(p)).Ok? <==>
            && DistinctNames(d.fields)
            && forall i :: 0 <= i < |d.fields| ==> Placed(d.fields[i], |p.bytes|) && !HasNonFinite(d.fields[i], p.bytes)
    ensures Encode(ft, d, Decode(ft, d, p).value, Some(p)).Ok? ==>
              Encode(ft, d, Decode(ft, d, p).value, Some(p)) == Ok(p)
  {
    var v := Decode(ft, d, p).value;
    DecodeMeaning(ft, d, p);
    EncodeAccepts(ft, d, v, Some(p));
    if DistinctNames(d.fields) {
      forall i | 0 <= i < |d.fields|
        ensures Placed(d.fields[i], |p.bytes|)
        ensures Supplies(ft, d.fields, i, v.fields, d.payloadSize) <==> !HasNonFinite(d.fields[i], p.bytes)
      {
        DecodedSupplies(ft, d, p, i);
      }
      if forall i :: 0 <= i < |d.fields| ==> !HasNonFinite(d.fields[i], p.bytes) {
        DecodedBack(ft, d, p);
      }
    }
  }

  lemma DecodedBack(ft: FloatText, d: TypeDescriptor, p: Payload)
    requires ExactText(ft) && Decode(ft, d, p).Ok? && DistinctNames(d.fields)
    requires forall i :: 0 <= i < |d.fields| ==> Placed(d.fields[i], |p.bytes|) && !HasNonFinite(d.fields[i], p.bytes)
    ensures Encode(ft, d, Decode(ft, d, p).value, Some(p)).Ok? ==>
              Encode(ft, d, Decode(ft, d, p).value, Some(p)) == Ok(p)
  {
    var fields := Decode(ft, d, p).value.fields;
    DecodeMeaning(ft, d, p);
    forall i | 0 <= i < |d.fields|
      ensures Place(d.fields, fields[i]) == i && Holds(ft, d.fields[i], fields[i], p.bytes)
    {
      DecodedSupplies(ft, d, p, i);
    }
    EncodeFieldsBack(ft, d.fields, fields, Falses(|d.fields|), p.bytes);
  }

  lemma OnlyOwnField(infos: seq<FieldInfo>, fields: seq<FieldValue>, i: nat)
    requires DistinctNames(infos) && |fields| == |infos| && i < |infos|
    requires forall k :: 0 <= k < |fields| ==> fields[k].name == infos[k].name
    ensures forall v <- fields :: v.name == infos[i].name ==> v == fields[i]
  {
  }

  // ---- Encode, then Decode ----

  /** Each accepted text as it will be shown. */
  function CanonicalTexts(ft: FloatText, f: FieldInfo, v: FieldValue): (texts: seq<string>)
    requires ShapeFits(f, v)
    requires forall j :: 0 <= j < f.arrayCount ==> WriteScalar(ft, f.kind, Texts(f, v)[j]).Ok?
    ensures |texts| == f.arrayCount
  {
    seq(f.arrayCount, j requires 0 <= j < f.arrayCount => Canonical(ft, f.kind, Texts(f, v)[j]))
  }

  predicate Normalisable(ft: FloatText, d: TypeDescriptor, input: DataSnapshot) {
    && DistinctNames(d.fields)
    && forall i :: 0 <= i < |d.fields| ==>
         && (exists u <- input.fields :: u.name == d.fields[i].name)
         && Acceptable(ft, d.fields[i], Named(input.fields, d.fields[i].name), d.payloadSize)
  }

  /** The fields in declaration order with canonical texts. */
  function NormalFields(ft: FloatText, d: TypeDescriptor, input: DataSnapshot): (fields: seq<FieldValue>)
    requires Normalisable(ft, d, input)
    ensures |fields| == |d.fields|
  {
    seq(|d.fields|, i requires 0 <= i < |d.fields| =>
      FieldOf(d.fields[i], CanonicalTexts(ft, d.fields[i], Named(input.fields, d.fields[i].name))))
  }

  lemma HeldIsShown(ft: FloatText, f: FieldInfo, v: FieldValue, bytes: seq<Byte>)
    requires ExactText(ft) && Holds(ft, f, v, bytes)
    ensures Readable(ft, f, bytes)
    ensures Shown(ft, f, bytes) == CanonicalTexts(ft, f, v)
    ensures Holds(ft, f, FieldOf(f, CanonicalTexts(ft, f, v)), bytes)
  {
    forall j | 0 <= j < f.arrayCount
      ensures ReadScalar(ft, f.kind, Element(f, bytes, j)) == Ok(Canonical(ft, f.kind, Texts(f, v)[j]))
      ensures WriteScalar(ft, f.kind, Canonical(ft, f.kind, Texts(f, v)[j])) == Ok(Element(f, bytes, j))
    {
      WriteThenRead(ft, f.kind, Texts(f, v)[j]);
    }
    FieldOfTexts(f, CanonicalTexts(ft, f, v));
  }

  /** Decoding an encoded payload normalises its input, and the normal form encodes to the same payload. */
  lemma EncodeThenDecode(ft: FloatText, d: TypeDescriptor, input: DataSnapshot, seed: Option<Payload>)
    requires ExactText(ft) && DisjointFields(d.fields) && Encode(ft, d, input, seed).Ok?
    ensures Normalisable(ft, d, input)
    ensures var out := Encode(ft, d, input, seed).value;
            var normal := DataSnapshot(d.typeName, out.sequence, NormalFields(ft, d, input), d.typeId);
            && Decode(ft, d, out) == Ok(normal)
            && Encode(ft, d, normal, seed) == Ok(out)
  {
    var out := Encode(ft, d, input, seed).value;
    EncodeHolds(ft, d, input, seed);
    EncodeCoverage(ft, d, input, seed);
    var fields := NormalFields(ft, d, input);
    forall i | 0 <= i < |d.fields|
      ensures Readable(ft, d.fields[i], out.bytes)
      ensures fields[i] == FieldOf(d.fields[i], Shown(ft, d.fields[i], out.bytes))
      ensures Holds(ft, d.fields[i], fields[i], out.bytes)
    {
      HeldIsShown(ft, d.fields[i], Named(input.fields, d.fields[i].name), out.bytes);
    }
    assert ValidDescriptor(d);
    DecodeMeaning(ft, d, out);
    assert forall f <- d.fields :: Readable(ft, f, out.bytes);
    var normal := DataSnapshot(d.typeName, out.sequence, fields, d.typeId);
    assert Decode(ft, d, out).value.fields == fields;
    NormalEncodes(ft, d, normal, seed, out);
  }

  /** An input in declaration order that a payload holds, encoded over a seed agreeing on all undeclared bytes. */
  lemma NormalEncodes(ft: FloatText, d: TypeDescriptor, v: DataSnapshot, seed: Option<Payload>, out: Payload)
    requires ValidDescriptor(d) && DistinctNames(d.fields) && DisjointFields(d.fields) && SeedFits(d, seed)
    requires v.typeId == d.typeId && v.typeName == d.typeName && |v.fields| == |d.fields|
    requires |out.bytes| == d.payloadSize && out == Base(d, seed).(bytes := out.bytes)
    requires forall i :: 0 <= i < |d.fields| ==>
               && v.fields[i].name == d.fields[i].name
               && v.fields[i].kind == KindOf(d.fields[i].kind)
               && KnownKind(d.fields[i].kind) && v.fields[i].typeName == KindName(d.fields[i].kind)
               && Holds(ft, d.fields[i], v.fields[i], out.bytes)
    requires forall at :: 0 <= at < d.payloadSize && Undeclared(d.fields, at) ==>
               out.bytes[at] == Base(d, seed).bytes[at]
    ensures Encode(ft, d, v, seed) == Ok(out)
  {
    forall i | 0 <= i < |d.fields| ensures Supplies(ft, d.fields, i, v.fields, d.payloadSize) {
      assert v.fields[i] in v.fields;
    }
    EncodeAccepts(ft, d, v, seed);
    EncodeHolds(ft, d, v, seed);
    EncodeCoverage(ft, d, v, seed);
    var again := Encode(ft, d, v, seed).value;
    forall i, j | 0 <= i < |d.fields| && 0 <= j < d.fields[i].arrayCount
      ensures Element(d.fields[i], again.bytes, j) == Element(d.fields[i], out.bytes, j)
    {
      OnlyOwnField(d.fields, v.fields, i);
      assert Named(v.fields, d.fields[i].name) == v.fields[i];
      assert Holds(ft, d.fields[i], v.fields[i], again.bytes);
      assert WriteScalar(ft, d.fields[i].kind, Texts(d.fields[i], v.fields[i])[j]) ==
          Ok(Element(d.fields[i], out.bytes, j));
    }
    BytesDetermined(d.fields, again.bytes, out.bytes);
  }

  // ---- Payloads that do not encode back ----

  lemma FirstElement(f: FieldInfo, bytes: seq<Byte>)
    requires Placed(f, |bytes|) && f.arrayCount == 1 && f.offset == 0 && f.elementSize == |bytes|
    ensures Element(f, bytes, 0) == bytes
  {
  }

  /** A quiet NaN is shown and then refused. */
  lemma NanRefused(ft: FloatText) returns (d: TypeDescriptor, p: Payload)
    requires ExactText(ft)
    ensures DistinctNames(d.fields) && DisjointFields(d.fields)
    ensures Decode(ft, d, p).Ok? && Encode(ft, d, Decode(ft, d, p).value, Some(p)).Err?
  {
    hide Decode, Encode, Finite, ExactText;
    var f := FieldInfo("ratio", 10, 0, 4, 1);
    d := TypeDescriptor(1, "sample", 4, [f]);
    p := Payload(1, 0, [0x00, 0x00, 0xC0, 0x7F]);
    FirstElement(f, p.bytes);
    NanBits();
    assert Readable(ft, f, p.bytes);
    DecodeMeaning(ft, d, p);
    DecodeThenEncode(ft, d, p);
    assert HasNonFinite(d.fields[0], p.bytes);
  }

  lemma NanBits()
    ensures NonFinite(10, [0x00, 0x00, 0xC0, 0x7F])
  {
    var b: seq<Byte> := [0x00, 0x00, 0xC0, 0x7F];
    assert b[1..] == [0x00, 0xC0, 0x7F] && b[1..][1..] == [0xC0, 0x7F] && b[1..][1..][1..] == [0x7F];
    assert FromBytes(b[1..][1..][1..]) == 0x7F by { assert b[1..][1..][1..][1..] == []; }
    assert FromBytes(b[1..][1..]) == 0x7FC0;
    assert FromBytes(b) == 0x7FC0_0000;
  }

  lemma BoolReadable(ft: FloatText, f: FieldInfo, bytes: seq<Byte>)
    requires f.kind == BOOL && f.elementSize == 1 && f.arrayCount == 1 && f.offset < |bytes| < Numerals.TWO_32
    requires bytes[f.offset] <= 1
    ensures Readable(ft, f, bytes)
  {
    var at: nat := f.offset;
    assert ElementAt(f, 0) == at;
    assert bytes[at..at + 1] == [bytes[at]];
    assert Element(f, bytes, 0) == [bytes[at]];
  }

  /** Two declared fields of one name are shown and then refused. */
  lemma SameNameRefused(ft: FloatText) returns (d: TypeDescriptor, p: Payload)
    requires ExactText(ft)
    ensures DisjointFields(d.fields)
    ensures Decode(ft, d, p).Ok? && Encode(ft, d, Decode(ft, d, p).value, Some(p)).Err?
  {
    hide Decode, Encode, ExactText, Readable, Placed;
    var (f, g) := (FieldInfo("on", BOOL, 0, 1, 1), FieldInfo("on", BOOL, 1, 1, 1));
    d := TypeDescriptor(1, "sample", 2, [f, g]);
    p := Payload(1, 0, [0, 1]);
    BoolReadable(ft, f, p.bytes);
    BoolReadable(ft, g, p.bytes);
    DecodeMeaning(ft, d, p);
    DecodeThenEncode(ft, d, p);
    assert d.fields[0].name == d.fields[1].name;
  }
}
