/** The whole edit: only the elements whose text the user changed change in the stored parameter. */
module WholeEdit {
  import opened Results
  import opened Scalars
  import opened ValueCodec
  import CodecLaws
  import RoundTrips
  import ParameterEdit
  import CodecMeaning

  /** The user changed the text of element j of field i since it was shown. */
  predicate Changed(d: TypeDescriptor, shown: seq<FieldValue>, edited: seq<FieldValue>, i: nat, j: nat)
    requires |shown| == |edited| == |d.fields| && i < |d.fields| && j < d.fields[i].arrayCount
    requires ShapeFits(d.fields[i], shown[i]) && ShapeFits(d.fields[i], edited[i])
  {
    Texts(d.fields[i], edited[i])[j] != Texts(d.fields[i], shown[i])[j]
  }

  /** A form over a decoded value: fields in declaration order, each of its declared kind and shape. */
  predicate FormOf(d: TypeDescriptor, fields: seq<FieldValue>) {
    && |fields| == |d.fields|
    && forall i :: 0 <= i < |fields| ==>
         && KnownKind(d.fields[i].kind)
         && fields[i].name == d.fields[i].name
         && fields[i].kind == KindOf(d.fields[i].kind) && fields[i].typeName == KindName(d.fields[i].kind)
         && ShapeFits(d.fields[i], fields[i])
         && |fields[i].arrayValues| == if d.fields[i].arrayCount == 1 then 0 else d.fields[i].arrayCount
  }

  lemma DecodedForm(ft: FloatText, d: TypeDescriptor, p: Payload)
    requires Decode(ft, d, p).Ok?
    ensures FormOf(d, Decode(ft, d, p).value.fields)
    ensures forall i :: 0 <= i < |d.fields| ==>
              RoundTrips.Readable(ft, d.fields[i], p.bytes)
                  && Texts(d.fields[i], Decode(ft, d, p).value.fields[i]) == RoundTrips.Shown(ft, d.fields[i], p.bytes)
  {
    RoundTrips.DecodeMeaning(ft, d, p);
    forall i | 0 <= i < |d.fields|
      ensures RoundTrips.Readable(ft, d.fields[i], p.bytes)
    {
      assert d.fields[i] in d.fields;
    }
  }

  lemma EditedForm(d: TypeDescriptor, fields: seq<FieldValue>, edited: seq<FieldValue>)
    requires FormOf(d, fields) && ParameterEdit.SameForm(fields, edited)
    ensures FormOf(d, edited)
  {
  }

  lemma FormsAlign(d: TypeDescriptor, a: seq<FieldValue>, b: seq<FieldValue>)
    requires FormOf(d, a) && FormOf(d, b) && CodecLaws.DistinctNames(d.fields)
    ensures ParameterEdit.Aligned(a, b)
  {
  }

  predicate AllWritable(ft: FloatText, d: TypeDescriptor, fields: seq<FieldValue>)
    requires FormOf(d, fields)
  {
    forall i, j :: 0 <= i < |d.fields| && 0 <= j < d.fields[i].arrayCount ==>
      WriteScalar(ft, d.fields[i].kind, Texts(d.fields[i], fields[i])[j]).Ok?
  }

  /** A form encodes exactly when the layout does and every text is writable. */
  lemma FormEncodes(ft: FloatText, d: TypeDescriptor, v: DataSnapshot, seed: Option<Payload>)
    requires ValidDescriptor(d) && FormOf(d, v.fields) && v.typeId == d.typeId && v.typeName == d.typeName
    requires SeedFits(d, seed) && forall f <- d.fields :: Placed(f, d.payloadSize)
    ensures Encode(ft, d, v, seed).Ok? <==> CodecLaws.DistinctNames(d.fields) && AllWritable(ft, d, v.fields)
  {
    CodecLaws.EncodeAccepts(ft, d, v, seed);
    if CodecLaws.DistinctNames(d.fields) {
      forall i | 0 <= i < |d.fields|
        ensures CodecLaws.Supplies(ft, d.fields, i, v.fields, d.payloadSize) <==>
                forall j :: 0 <= j < d.fields[i].arrayCount ==>
                    WriteScalar(ft, d.fields[i].kind, Texts(d.fields[i], v.fields[i])[j]).Ok?
      {
        assert Placed(d.fields[i], d.payloadSize);
        assert v.fields[i] in v.fields;
        RoundTrips.OnlyOwnField(d.fields, v.fields, i);
      }
    }
  }

  lemma {:induction false} TextsRefused(ft: FloatText, f: FieldInfo, texts: seq<string>, n: nat, bytes: seq<Byte>)
    requires Placed(f, |bytes|) && n <= |texts| == f.arrayCount
    requires WriteElements(ft, f, texts, n, bytes).Err?
    ensures WriteElements(ft, f, texts, n, bytes).code in {EINVAL, ERANGE}
  {
    hide WriteScalar;
    if WriteElements(ft, f, texts, n - 1, bytes).Err? {
      TextsRefused(ft, f, texts, n - 1, bytes);
    } else {
      CodecMeaning.ScalarRefused(ft, f.kind, texts[n - 1]);
    }
  }

  /** From field k on, with exactly the fields before it used. */
  lemma {:induction false} FieldsRefused(ft: FloatText, d: TypeDescriptor, fields: seq<FieldValue>, k: nat,
                                         used: seq<bool>, bytes: seq<Byte>)
    requires ValidDescriptor(d) && FormOf(d, fields) && k <= |fields| == |used| && |bytes| == d.payloadSize
    requires (forall f <- d.fields :: Placed(f, d.payloadSize)) && forall i :: 0 <= i < |used| ==> (used[i] <==> i < k)
    requires EncodeFields(ft, d.fields, fields[k..], used, bytes).Err?
    ensures EncodeFields(ft, d.fields, fields[k..], used, bytes).code in {EINVAL, ERANGE}
    decreases |fields| - k
  {
    hide WriteElements, KindOf, KindName;
    var i := FieldIndex(d.fields, fields[k].name);
    assert fields[k..][0] == fields[k] && fields[k..][1..] == fields[k + 1..] && i <= k;
    if !used[i] {
      assert d.fields[k] in d.fields;
      var next := EncodeField(ft, d.fields[k], fields[k], bytes);
      if next.Err? {
        TextsRefused(ft, d.fields[k], Texts(d.fields[k], fields[k]), d.fields[k].arrayCount, bytes);
      } else {
        FieldsRefused(ft, d, fields, k + 1, used[k := true], next.value);
      }
    }
  }

  /** An edited form is refused for its texts, or for a repeated name, and for nothing else: always with a code that
      counts as bad input. */
  lemma EditRefused(ft: FloatText, d: TypeDescriptor, p: Payload, edited: DataSnapshot)
    requires Decode(ft, d, p).Ok? && Encode(ft, d, edited, None).Err?
    requires var shown := Decode(ft, d, p).value;
             edited == shown.(fields := edited.fields) && ParameterEdit.SameForm(shown.fields, edited.fields)
    ensures Encode(ft, d, edited, None).code in {EINVAL, ERANGE}
  {
    hide EncodeFields, DecodeFields;
    DecodedForm(ft, d, p);
    RoundTrips.DecodeMeaning(ft, d, p);
    assert forall f <- d.fields :: RoundTrips.Readable(ft, f, p.bytes);
    assert edited.fields[0..] == edited.fields;
    FieldsRefused(ft, d, edited.fields, 0, Falses(|d.fields|), Base(d, None).bytes);
  }

  /** The overlay result, field by field. */
  predicate Overlaid(shown: seq<FieldValue>, edited: seq<FieldValue>, live: seq<FieldValue>, current: seq<FieldValue>)
    requires ParameterEdit.Aligned(shown, live) && ParameterEdit.SameForm(shown, edited)
  {
    |current| == |live| && forall i :: 0 <= i < |live| ==>
        ParameterEdit.OverlaidField(shown[i], edited[i], live[i], current[i])
  }

  lemma OverlaidTexts(d: TypeDescriptor, shown: seq<FieldValue>, edited: seq<FieldValue>, live: seq<FieldValue>,
                      current: seq<FieldValue>)
    requires FormOf(d, shown) && FormOf(d, live) && ParameterEdit.SameForm(shown, edited)
             && ParameterEdit.Aligned(shown, live)
    requires Overlaid(shown, edited, live, current)
    ensures FormOf(d, edited) && FormOf(d, current)
    ensures forall i, j :: 0 <= i < |d.fields| && 0 <= j < d.fields[i].arrayCount ==>
              Texts(d.fields[i], current[i])[j] ==
              if Changed(d, shown, edited, i, j) then Texts(d.fields[i], edited[i])[j]
              else Texts(d.fields[i], live[i])[j]
  {
    forall i | 0 <= i < |d.fields|
      ensures ParameterEdit.SameShape(live[i], current[i])
    {
      assert ParameterEdit.OverlaidField(shown[i], edited[i], live[i], current[i]);
    }
  }

  /** What the server holds after a whole edit. */
  predicate OnlyEditsChanged(
      ft: FloatText, d: TypeDescriptor, shown: seq<FieldValue>, edited: seq<FieldValue>, live: seq<Byte>,
          seed: seq<Byte>, out: seq<Byte>)
    requires FormOf(d, shown) && FormOf(d, edited)
    requires |live| == |seed| == |out| == d.payloadSize && forall f <- d.fields :: Placed(f, d.payloadSize)
  {
    && (forall i, j :: 0 <= i < |d.fields| && 0 <= j < d.fields[i].arrayCount ==>
          if Changed(d, shown, edited, i, j)
          then WriteScalar(ft, d.fields[i].kind, Texts(d.fields[i], edited[i])[j]) == Ok(Element(d.fields[i], out, j))
          else Element(d.fields[i], out, j) == Element(d.fields[i], live, j))
    && (forall at :: 0 <= at < d.payloadSize && CodecLaws.Undeclared(d.fields, at) ==> out[at] == seed[at])
  }

  /** Elements the user left alone can be written back. */
  predicate RestFinite(d: TypeDescriptor, shown: seq<FieldValue>, edited: seq<FieldValue>, live: seq<Byte>)
    requires FormOf(d, shown) && FormOf(d, edited)
    requires |live| == d.payloadSize && forall f <- d.fields :: Placed(f, d.payloadSize)
  {
    forall i, j :: 0 <= i < |d.fields| && 0 <= j < d.fields[i].arrayCount && !Changed(d, shown, edited, i, j) ==>
      !NonFinite(d.fields[i].kind, Element(d.fields[i], live, j))
  }

  /** Edit a value shown from p0, overlay it on the fresh payload live, and encode over the stored payload seed. All
      three encodings succeed exactly when field names are distinct, every text of the edited form spells a value, and
      every element left alone is finite in the fresh payload. Then every edited element holds what was typed, every
      other element holds the fresh bytes and every undeclared byte is the stored one. */
  lemma OnlyEditedElementsChange(
      ft: FloatText, d: TypeDescriptor, p0: Payload, edited: DataSnapshot, live: Payload, current: DataSnapshot,
          seed: Payload)
    requires ExactText(ft) && CodecLaws.DisjointFields(d.fields)
    requires Decode(ft, d, p0).Ok? && Decode(ft, d, live).Ok? && SeedFits(d, Some(seed))
    requires var shown := Decode(ft, d, p0).value;
             && edited == shown.(fields := edited.fields) && ParameterEdit.SameForm(shown.fields, edited.fields)
    requires var now := Decode(ft, d, live).value;
             && current == now.(fields := current.fields)
             && (CodecLaws.DistinctNames(d.fields) ==>
                   var shown := Decode(ft, d, p0).value.fields;
                   FormOf(d, shown) && FormOf(d, now.fields) && ParameterEdit.Aligned(shown, now.fields)
                       && Overlaid(shown, edited.fields, now.fields, current.fields))
    ensures var shown := Decode(ft, d, p0).value.fields;
            && FormOf(d, shown) && FormOf(d, edited.fields)
            && (forall f <- d.fields :: Placed(f, d.payloadSize)) && |live.bytes| == d.payloadSize
            && (Encode(ft, d, edited, None).Ok? && Encode(ft, d, current, None).Ok?
                && Encode(ft, d, current, Some(seed)).Ok? <==>
                  && CodecLaws.DistinctNames(d.fields)
                  && AllWritable(ft, d, edited.fields)
                  && RestFinite(d, shown, edited.fields, live.bytes))
            && (Encode(ft, d, edited, None).Ok? && Encode(ft, d, current, Some(seed)).Ok? ==>
                  && |Encode(ft, d, current, Some(seed)).value.bytes| == d.payloadSize
                  && OnlyEditsChanged(ft, d, shown, edited.fields, live.bytes, seed.bytes,
                                      Encode(ft, d, current, Some(seed)).value.bytes))
  {
    var shown := Decode(ft, d, p0).value.fields;
    DecodedForm(ft, d, p0);
    DecodedForm(ft, d, live);
    RoundTrips.DecodeMeaning(ft, d, p0);
    RoundTrips.DecodeMeaning(ft, d, live);
    EditedForm(d, shown, edited.fields);
    forall f | f in d.fields ensures Placed(f, d.payloadSize) {
      assert RoundTrips.Readable(ft, f, live.bytes);
    }
    FormEncodes(ft, d, edited, None);
    if CodecLaws.DistinctNames(d.fields) {
      var now := Decode(ft, d, live).value.fields;
      OverlaidTexts(d, shown, edited.fields, now, current.fields);
      FormEncodes(ft, d, current, None);
      FormEncodes(ft, d, current, Some(seed));
      CurrentWritable(ft, d, shown, edited.fields, live, current.fields);
      if Encode(ft, d, current, Some(seed)).Ok? {
        EditedPayload(ft, d, shown, edited.fields, live, current, seed);
      }
    }
  }

  lemma CurrentWritable(ft: FloatText, d: TypeDescriptor, shown: seq<FieldValue>, edited: seq<FieldValue>,
                        live: Payload, current: seq<FieldValue>)
    requires ExactText(ft) && Decode(ft, d, live).Ok? && |live.bytes| == d.payloadSize
    requires forall f <- d.fields :: Placed(f, d.payloadSize)
    requires FormOf(d, shown) && FormOf(d, edited) && FormOf(d, current) && FormOf(d, Decode(ft, d, live).value.fields)
    requires forall i, j :: 0 <= i < |d.fields| && 0 <= j < d.fields[i].arrayCount ==>
               Texts(d.fields[i], current[i])[j] ==
               if Changed(d, shown, edited, i, j) then Texts(d.fields[i], edited[i])[j]
               else Texts(d.fields[i], Decode(ft, d, live).value.fields[i])[j]
    ensures AllWritable(ft, d, edited) ==> (AllWritable(ft, d, current) <==> RestFinite(d, shown, edited, live.bytes))
    ensures forall i, j ::
              0 <= i < |d.fields| && 0 <= j < d.fields[i].arrayCount && !Changed(d, shown, edited, i, j) ==>
              WriteScalar(ft, d.fields[i].kind, Texts(d.fields[i], current[i])[j]).Ok? ==>
              WriteScalar(ft, d.fields[i].kind, Texts(d.fields[i], current[i])[j]) ==
                  Ok(Element(d.fields[i], live.bytes, j))
  {
    DecodedForm(ft, d, live);
    forall i, j | 0 <= i < |d.fields| && 0 <= j < d.fields[i].arrayCount && !Changed(d, shown, edited, i, j)
      ensures WriteScalar(ft, d.fields[i].kind, Texts(d.fields[i], current[i])[j]).Ok? <==>
              !NonFinite(d.fields[i].kind, Element(d.fields[i], live.bytes, j))
      ensures WriteScalar(ft, d.fields[i].kind, Texts(d.fields[i], current[i])[j]).Ok? ==>
              WriteScalar(ft, d.fields[i].kind, Texts(d.fields[i], current[i])[j]) ==
                  Ok(Element(d.fields[i], live.bytes, j))
    {
      assert RoundTrips.Readable(ft, d.fields[i], live.bytes);
      ReadThenWrite(ft, d.fields[i].kind, Element(d.fields[i], live.bytes, j));
    }
  }

  lemma EditedPayload(
      ft: FloatText, d: TypeDescriptor, shown: seq<FieldValue>, edited: seq<FieldValue>, live: Payload,
          current: DataSnapshot, seed: Payload)
    requires ExactText(ft) && CodecLaws.DisjointFields(d.fields) && Decode(ft, d, live).Ok?
             && |live.bytes| == d.payloadSize
    requires SeedFits(d, Some(seed)) && Encode(ft, d, current, Some(seed)).Ok?
    requires forall f <- d.fields :: Placed(f, d.payloadSize)
    requires FormOf(d, shown) && FormOf(d, edited) && FormOf(d, current.fields)
    requires FormOf(d, Decode(ft, d, live).value.fields)
    requires forall i, j :: 0 <= i < |d.fields| && 0 <= j < d.fields[i].arrayCount ==>
               Texts(d.fields[i], current.fields[i])[j] ==
               if Changed(d, shown, edited, i, j) then Texts(d.fields[i], edited[i])[j]
               else Texts(d.fields[i], Decode(ft, d, live).value.fields[i])[j]
    ensures |Encode(ft, d, current, Some(seed)).value.bytes| == d.payloadSize
    ensures OnlyEditsChanged(ft, d, shown, edited, live.bytes, seed.bytes,
                             Encode(ft, d, current, Some(seed)).value.bytes)
  {
    var out := Encode(ft, d, current, Some(seed)).value.bytes;
    CodecLaws.EncodeHolds(ft, d, current, Some(seed));
    CodecLaws.EncodeCoverage(ft, d, current, Some(seed));
    CurrentWritable(ft, d, shown, edited, live, current.fields);
    forall i, j | 0 <= i < |d.fields| && 0 <= j < d.fields[i].arrayCount
      ensures WriteScalar(ft, d.fields[i].kind, Texts(d.fields[i], current.fields[i])[j]) ==
                Ok(Element(d.fields[i], out, j))
    {
      assert current.fields[i] in current.fields;
      RoundTrips.OnlyOwnField(d.fields, current.fields, i);
      assert CodecLaws.Named(current.fields, d.fields[i].name) == current.fields[i];
      assert CodecLaws.Holds(ft, d.fields[i], current.fields[i], out);
    }
  }
}
