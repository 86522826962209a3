/** The parameter form as the window keeps it, from showing a value to applying an edit. */
module ParameterEditor {
  import opened Results
  import opened Scalars
  import opened ValueCodec
  import CodecLaws
  import opened ParameterEdit
  import opened WholeEdit

  /** Set replaces the whole stored value: the input is validated before storage is opened, then encoded over the
      stored payload so that undeclared bytes survive. */
  function SetPayload(ft: FloatText, d: TypeDescriptor, value: DataSnapshot, stored: Result<Payload>): Result<Payload> {
    match Encode(ft, d, value, None)
    case Err(code) => Err(code)
    case Ok(_) =>
      match stored
      case Err(code) => Err(code)
      case Ok(seed) => Encode(ft, d, value, Some(seed))
  }

  function GetValue(ft: FloatText, d: TypeDescriptor, read: Result<Payload>): Result<DataSnapshot> {
    match read
    case Err(code) => Err(code)
    case Ok(p) => Decode(ft, d, p)
  }

  class Editor {
    const ft: FloatText
    const d: TypeDescriptor
    var value: DataSnapshot
    var rows: seq<Row>
    var inputs: seq<string>
    var dirty: bool
    var invalid: bool

    /** The payload the form was last rendered from. */
    ghost var shownFrom: Payload

    predicate TextChanged()
      reads this
      requires |inputs| == |rows| && forall k :: 0 <= k < |rows| ==> IsRow(value.fields, rows[k])
    {
      exists k :: 0 <= k < |rows| && inputs[k] != RowText(value.fields, rows[k])
    }

    ghost predicate Valid()
      reads this
    {
      && Decode(ft, d, shownFrom) == Ok(value)
      && RowsOf(value.fields, rows) && |inputs| == |rows|
      && (forall k :: 0 <= k < |rows| ==> IsRow(value.fields, rows[k]))
      && (!invalid ==> (dirty <==> TextChanged()))
    }

    constructor (ft: FloatText, d: TypeDescriptor, p: Payload)
      requires Decode(ft, d, p).Ok?
      ensures Valid() && !dirty && !invalid && this.ft == ft && this.d == d && shownFrom == p
    {
      this.ft, this.d := ft, d;
      value := Decode(ft, d, p).value;
      shownFrom := p;
      invalid, dirty := false, false;
      new;
      rows, inputs := FieldRows(value.fields);
    }

    /** Shows a value that was just read. */
    method Render(p: Payload)
      requires Decode(ft, d, p).Ok?
      modifies this
      ensures Valid() && !dirty && invalid == old(invalid)
      ensures shownFrom == p && |inputs| == |rows|
      ensures forall k :: 0 <= k < |rows| ==>
                IsRow(value.fields, rows[k]) && inputs[k] == RowText(value.fields, rows[k])
    {
      value := Decode(ft, d, p).value;
      shownFrom := p;
      dirty := false;
      rows, inputs := FieldRows(value.fields);
    }

    /** The user types into a row; whether anything is edited is recomputed over all rows. */
    method Edit(row: nat, text: string)
      requires Valid() && row < |rows|
      modifies this`inputs, this`dirty
      ensures Valid()
      ensures inputs == old(inputs)[row := text]
      ensures dirty <==> TextChanged()
    {
      inputs := inputs[row := text];
      dirty := false;
      for k := 0 to |inputs|
        invariant inputs == old(inputs)[row := text]
        invariant dirty <==> exists l :: 0 <= l < k && inputs[l] != RowText(value.fields, rows[l])
      {
        if inputs[k] != RowText(value.fields, rows[k]) {
          dirty := true;
        }
      }
    }

    /** Applies the edit. The four reads and writes of the storage are the parameters: the fresh read, the stored
        payload Set starts from, the result of the write and the read back. A payload is written exactly when the form
        is edited and not stale and the edit goes through. Input that spells no value leaves the form as it is; any
        other failure makes it stale and keeps the typed texts. The edit is given up only after a successful write. */
    method Apply(live: Result<Payload>, stored: Result<Payload>, setResult: int, back: Result<Payload>)
      returns (written: Option<Payload>)
      requires Valid()
      modifies this
      ensures Valid()
      ensures !old(dirty) || old(invalid) ==> written == None && unchanged(this)
      ensures old(dirty) && !old(invalid) ==>
                forall p: Payload :: written == Some(p) <==>
                    Writes(ft, d, old(shownFrom), old(rows), old(inputs), live, stored, p)
      ensures old(dirty) && !old(invalid) ==>
                forall edited: DataSnapshot, code: int ::
                  IsEditOf(old(value), old(rows), old(inputs), edited) && Encode(ft, d, edited, None) == Err(code) ==>
                    written == None
                        && if IsInputError(code) then unchanged(this) else StaleSince(old(shownFrom), old(inputs))
      ensures old(dirty) && !old(invalid) && written == None ==>
                || StaleSince(old(shownFrom), old(inputs))
                || exists edited: DataSnapshot ::
                     && IsEditOf(old(value), old(rows), old(inputs), edited)
                     && Encode(ft, d, edited, None).Err? && IsInputError(Encode(ft, d, edited, None).code)
      ensures old(dirty) && !dirty ==> written.Some? && setResult == 0
      ensures written.Some? && setResult != 0 ==> StaleSince(old(shownFrom), old(inputs))
      ensures written.Some? && setResult == 0 && GetValue(ft, d, back).Err? ==>
                invalid && !dirty && inputs == old(inputs) && shownFrom == old(shownFrom)
      ensures written.Some? && setResult == 0 && GetValue(ft, d, back).Ok? ==>
                shownFrom == back.value && !dirty && !invalid
    {
      hide Decode, Encode, Overlaid, Visited, Aligned;
      written := None;
      if !dirty || invalid { return; }
      var edited := EditedFields(value, inputs, rows);
      assert IsEditOf(value, rows, inputs, edited);
      OnlyEdit(value, rows, inputs, edited);
      var validated := Encode(ft, d, edited, None);
      if validated.Err? {
        assert forall p: Payload :: !Writes(ft, d, shownFrom, rows, inputs, live, stored, p);
        if validated.code != EINVAL && validated.code != ERANGE && validated.code != EMSGSIZE { invalid := true; }
        return;
      }
      var current := GetValue(ft, d, live);
      if current.Err? { invalid := true; return; }
      OverlayOfForms(ft, d, shownFrom, live.value);
      EncodedNames(ft, d, edited);
      if current.value.typeId != value.typeId || current.value.typeName != value.typeName ||
         |current.value.fields| != |value.fields| {
        assert false;
      }
      var code, overlaid := Overlay(value, edited, rows, current.value);
      AlignedFound(value.fields, current.value.fields);
      if code != 0 { assert false; }
      OverlayAligned(value.fields, edited.fields, current.value.fields, rows, overlaid.fields);
      OverlaidSame(value.fields, edited.fields, current.value.fields, overlaid.fields);
      assert IsOverlay(ft, d, shownFrom, edited, live.value, overlaid);
      OnlyOverlay(ft, d, shownFrom, edited, live.value, overlaid);
      var payload := SetPayload(ft, d, overlaid, stored);
      assert forall p: Payload :: payload == Ok(p) <==> Writes(ft, d, shownFrom, rows, inputs, live, stored, p);
      if payload.Err? { invalid := true; return; }
      written := Some(payload.value);
      if setResult != 0 { invalid := true; return; }
      dirty := false;
      if GetValue(ft, d, back).Err? { invalid := true; return; }
      invalid := false;
      Render(back.value);
    }

    /** Nothing more can be applied before a new read, and what was typed is still there. */
    ghost predicate StaleSince(from: Payload, typed: seq<string>)
      reads this
    {
      invalid && dirty && shownFrom == from && inputs == typed
    }
  }

  predicate IsInputError(code: int) { code == EINVAL || code == ERANGE || code == EMSGSIZE }

  /** The edit goes through and writes p: both reads succeed, the edited form and its overlay on the fresh read
      encode, and p is the overlay encoded over the stored payload. */
  ghost predicate Writes(ft: FloatText, d: TypeDescriptor, p0: Payload, rows: seq<Row>, inputs: seq<string>,
                         live: Result<Payload>, stored: Result<Payload>, p: Payload)
  {
    && Decode(ft, d, p0).Ok? && live.Ok? && stored.Ok?
    && exists edited: DataSnapshot, current: DataSnapshot ::
         && IsEditOf(Decode(ft, d, p0).value, rows, inputs, edited)
         && IsOverlay(ft, d, p0, edited, live.value, current)
         && Encode(ft, d, edited, None).Ok? && Encode(ft, d, current, None).Ok?
         && Encode(ft, d, current, Some(stored.value)) == Ok(p)
  }

  /** The shown value with the typed texts. */
  ghost predicate IsEditOf(shown: DataSnapshot, rows: seq<Row>, inputs: seq<string>, edited: DataSnapshot) {
    && edited == shown.(fields := edited.fields)
    && SameForm(shown.fields, edited.fields)
    && |inputs| == |rows|
    && forall k :: 0 <= k < |rows| ==> IsRow(edited.fields, rows[k]) && RowText(edited.fields, rows[k]) == inputs[k]
  }

  /** The fresh value with the changed texts, the premise of OnlyEditedElementsChange. */
  ghost predicate IsOverlay(ft: FloatText, d: TypeDescriptor, p0: Payload, edited: DataSnapshot, live: Payload,
                            current: DataSnapshot)
  {
    && Decode(ft, d, p0).Ok? && Decode(ft, d, live).Ok?
    && var shown := Decode(ft, d, p0).value;
       var now := Decode(ft, d, live).value;
       && edited == shown.(fields := edited.fields) && SameForm(shown.fields, edited.fields)
       && current == now.(fields := current.fields)
       && (CodecLaws.DistinctNames(d.fields) ==>
             FormOf(d, shown.fields) && FormOf(d, now.fields) && Aligned(shown.fields, now.fields)
             && Overlaid(shown.fields, edited.fields, now.fields, current.fields))
  }

  /** The rows hold every text, so the typed texts decide the edited value. */
  lemma OnlyEdit(shown: DataSnapshot, rows: seq<Row>, inputs: seq<string>, edited: DataSnapshot)
    requires RowsOf(shown.fields, rows) && IsEditOf(shown, rows, inputs, edited)
    ensures forall other: DataSnapshot :: IsEditOf(shown, rows, inputs, other) ==> other == edited
  {
    forall other: DataSnapshot | IsEditOf(shown, rows, inputs, other) ensures other == edited {
      forall i | 0 <= i < |shown.fields| ensures other.fields[i] == edited.fields[i] {
        SameTexts(shown.fields, rows, other.fields, edited.fields, i);
      }
      assert other.fields == edited.fields;
    }
  }

  lemma SameTexts(shown: seq<FieldValue>, rows: seq<Row>, a: seq<FieldValue>, b: seq<FieldValue>, i: nat)
    requires RowsOf(shown, rows) && SameForm(shown, a) && SameForm(shown, b) && i < |shown|
    requires forall k :: 0 <= k < |rows| ==>
               IsRow(a, rows[k]) && IsRow(b, rows[k]) && RowText(a, rows[k]) == RowText(b, rows[k])
    ensures a[i] == b[i]
  {
    assert SameShape(shown[i], a[i]) && SameShape(shown[i], b[i]);
    if shown[i].arrayValues == [] {
      assert IsRow(shown, Row(i, -1)) && Row(i, -1) in rows;
    }
    forall j | 0 <= j < |shown[i].arrayValues| ensures a[i].arrayValues[j] == b[i].arrayValues[j] {
      assert IsRow(shown, Row(i, j)) && Row(i, j) in rows;
    }
    assert a[i].arrayValues == b[i].arrayValues;
  }

  /** The overlay conditions decide every field. */
  lemma OverlaidSame(shown: seq<FieldValue>, edited: seq<FieldValue>, live: seq<FieldValue>, current: seq<FieldValue>)
    requires Aligned(shown, live) && SameForm(shown, edited)
    requires |current| == |live| && forall i :: 0 <= i < |live| ==>
               OverlaidField(shown[i], edited[i], live[i], current[i])
    ensures Overlaid(shown, edited, live, current)
    ensures forall other: seq<FieldValue> :: Overlaid(shown, edited, live, other) ==> other == current
  {
    forall other: seq<FieldValue> | Overlaid(shown, edited, live, other) ensures other == current {
      forall i | 0 <= i < |live| ensures other[i] == current[i] {
        assert OverlaidField(shown[i], edited[i], live[i], other[i])
            && OverlaidField(shown[i], edited[i], live[i], current[i]);
        assert other[i].arrayValues == current[i].arrayValues;
      }
    }
  }

  lemma OnlyOverlay(ft: FloatText, d: TypeDescriptor, p0: Payload, edited: DataSnapshot, live: Payload,
                    current: DataSnapshot)
    requires CodecLaws.DistinctNames(d.fields) && IsOverlay(ft, d, p0, edited, live, current)
    ensures forall other: DataSnapshot :: IsOverlay(ft, d, p0, edited, live, other) ==> other == current
  {
    hide Decode, Overlaid, Aligned, FormOf;
    var (shown, now) := (Decode(ft, d, p0).value.fields, Decode(ft, d, live).value.fields);
    forall other: DataSnapshot | IsOverlay(ft, d, p0, edited, live, other) ensures other == current {
      FieldsOverlaid(shown, edited.fields, now, current.fields);
      OverlaidSame(shown, edited.fields, now, current.fields);
    }
  }

  lemma FieldsOverlaid(shown: seq<FieldValue>, edited: seq<FieldValue>, live: seq<FieldValue>, current: seq<FieldValue>)
    requires Aligned(shown, live) && SameForm(shown, edited) && Overlaid(shown, edited, live, current)
    ensures |current| == |live| && |shown| == |live| == |edited|
    ensures forall i :: 0 <= i < |live| ==>
              SameShape(shown[i], edited[i]) && Compatible(live[i], shown[i])
                  && OverlaidField(shown[i], edited[i], live[i], current[i])
  {
  }

  lemma EncodedNames(ft: FloatText, d: TypeDescriptor, v: DataSnapshot)
    requires Encode(ft, d, v, None).Ok?
    ensures CodecLaws.DistinctNames(d.fields)
  {
    CodecLaws.EncodeAccepts(ft, d, v, None);
  }

  lemma OverlayOfForms(ft: FloatText, d: TypeDescriptor, p0: Payload, live: Payload)
    requires Decode(ft, d, p0).Ok? && Decode(ft, d, live).Ok?
    ensures var (shown, now) := (Decode(ft, d, p0).value, Decode(ft, d, live).value);
            && FormOf(d, shown.fields) && FormOf(d, now.fields) && |shown.fields| == |now.fields|
            && shown.typeId == now.typeId && shown.typeName == now.typeName
    ensures CodecLaws.DistinctNames(d.fields) ==>
              Aligned(Decode(ft, d, p0).value.fields, Decode(ft, d, live).value.fields)
  {
    DecodedForm(ft, d, p0);
    DecodedForm(ft, d, live);
    if CodecLaws.DistinctNames(d.fields) {
      FormsAlign(d, Decode(ft, d, p0).value.fields, Decode(ft, d, live).value.fields);
    }
  }

  /** Some edit of the shown value goes through over these reads, said without encoding anything. */
  ghost predicate GoesThrough(ft: FloatText, d: TypeDescriptor, p0: Payload, rows: seq<Row>, inputs: seq<string>,
                              live: Payload, stored: Payload)
    requires Decode(ft, d, p0).Ok? && Decode(ft, d, live).Ok?
  {
    var shown := Decode(ft, d, p0).value;
    && CodecLaws.DistinctNames(d.fields) && SeedFits(d, Some(stored))
    && (forall f <- d.fields :: Placed(f, d.payloadSize)) && |live.bytes| == d.payloadSize && FormOf(d, shown.fields)
    && exists edited: DataSnapshot ::
         && IsEditOf(shown, rows, inputs, edited) && FormOf(d, edited.fields)
         && AllWritable(ft, d, edited.fields) && RestFinite(d, shown.fields, edited.fields, live.bytes)
  }

  /** Exactly when a payload is written: names are distinct, the stored payload fits the type, every typed text spells
      a value, and the elements left alone are finite in the fresh payload. */
  lemma WritesExactly(ft: FloatText, d: TypeDescriptor, p0: Payload, rows: seq<Row>, inputs: seq<string>,
                      live: Payload, stored: Payload)
    requires ExactText(ft) && CodecLaws.DisjointFields(d.fields) && Decode(ft, d, p0).Ok? && Decode(ft, d, live).Ok?
    requires RowsOf(Decode(ft, d, p0).value.fields, rows)
    ensures (exists p :: Writes(ft, d, p0, rows, inputs, Ok(live), Ok(stored), p)) <==>
              GoesThrough(ft, d, p0, rows, inputs, live, stored)
  {
    hide Decode, Encode, Overlaid, Aligned, AllWritable, RestFinite, OnlyEditsChanged, Placed, SeedFits,
         CodecLaws.DistinctNames, ExactText;
    var shown := Decode(ft, d, p0).value;
    OverlayOfForms(ft, d, p0, live);
    if exists p :: Writes(ft, d, p0, rows, inputs, Ok(live), Ok(stored), p) {
      var p :| Writes(ft, d, p0, rows, inputs, Ok(live), Ok(stored), p);
      var edited: DataSnapshot, current: DataSnapshot :|
        && IsEditOf(shown, rows, inputs, edited) && IsOverlay(ft, d, p0, edited, live, current)
        && Encode(ft, d, edited, None).Ok? && Encode(ft, d, current, None).Ok?
        && Encode(ft, d, current, Some(stored)) == Ok(p);
      SeedFitted(ft, d, current, stored);
      OnlyEditedElementsChange(ft, d, p0, edited, live, current, stored);
    }
    if GoesThrough(ft, d, p0, rows, inputs, live, stored) {
      var edited: DataSnapshot :|
        && IsEditOf(shown, rows, inputs, edited) && FormOf(d, edited.fields)
        && AllWritable(ft, d, edited.fields) && RestFinite(d, shown.fields, edited.fields, live.bytes);
      var current := SomeOverlay(ft, d, p0, edited, live);
      OnlyEditedElementsChange(ft, d, p0, edited, live, current, stored);
      assert Writes(ft, d, p0, rows, inputs, Ok(live), Ok(stored), Encode(ft, d, current, Some(stored)).value);
    }
  }

  lemma SeedFitted(ft: FloatText, d: TypeDescriptor, v: DataSnapshot, stored: Payload)
    requires Encode(ft, d, v, Some(stored)).Ok?
    ensures SeedFits(d, Some(stored))
  {
    CodecLaws.EncodeAccepts(ft, d, v, Some(stored));
  }

  lemma SomeOverlay(ft: FloatText, d: TypeDescriptor, p0: Payload, edited: DataSnapshot, live: Payload)
    returns (current: DataSnapshot)
    requires Decode(ft, d, p0).Ok? && Decode(ft, d, live).Ok? && CodecLaws.DistinctNames(d.fields)
    requires var shown := Decode(ft, d, p0).value;
             edited == shown.(fields := edited.fields) && SameForm(shown.fields, edited.fields)
    ensures IsOverlay(ft, d, p0, edited, live, current)
  {
    OverlayOfForms(ft, d, p0, live);
    var (shown, now) := (Decode(ft, d, p0).value.fields, Decode(ft, d, live).value.fields);
    var fields := SomeFields(shown, edited.fields, now);
    current := Decode(ft, d, live).value.(fields := fields);
  }

  lemma SomeFields(shown: seq<FieldValue>, edited: seq<FieldValue>, live: seq<FieldValue>)
    returns (current: seq<FieldValue>)
    requires Aligned(shown, live) && SameForm(shown, edited)
    ensures Overlaid(shown, edited, live, current)
  {
    current := seq(|live|, i requires 0 <= i < |live| => SomeField(shown[i], edited[i], live[i]));
  }

  function SomeField(before: FieldValue, after: FieldValue, live: FieldValue): (out: FieldValue)
    requires SameShape(before, after) && Compatible(live, before)
    ensures OverlaidField(before, after, live, out)
  {
    if before.arrayValues == [] then live.(value := if after.value != before.value then after.value else live.value)
    else live.(arrayValues := seq(|live.arrayValues|, j requires 0 <= j < |live.arrayValues| =>
      if after.arrayValues[j] != before.arrayValues[j] then after.arrayValues[j] else live.arrayValues[j]))
  }

  /** Over any edit the form can send: a written payload differs from the fresh one only where the user typed, and
      from the stored one only in declared bytes. */
  lemma WrittenPayload(
      ft: FloatText, d: TypeDescriptor, p0: Payload, rows: seq<Row>, inputs: seq<string>, edited: DataSnapshot,
      live: Payload, current: DataSnapshot, stored: Payload, written: Payload)
    requires ExactText(ft) && CodecLaws.DisjointFields(d.fields)
    requires Decode(ft, d, p0).Ok? && IsEditOf(Decode(ft, d, p0).value, rows, inputs, edited)
    requires IsOverlay(ft, d, p0, edited, live, current)
    requires Encode(ft, d, edited, None).Ok? && Encode(ft, d, current, Some(stored)) == Ok(written)
    ensures var shown := Decode(ft, d, p0).value.fields;
            && FormOf(d, shown) && FormOf(d, edited.fields) && (forall f <- d.fields :: Placed(f, d.payloadSize))
            && |live.bytes| == |stored.bytes| == |written.bytes| == d.payloadSize
            && OnlyEditsChanged(ft, d, shown, edited.fields, live.bytes, stored.bytes, written.bytes)
            && written.typeId == stored.typeId && written.sequence == stored.sequence
  {
    OnlyEditedElementsChange(ft, d, p0, edited, live, current, stored);
    CodecLaws.EncodeCoverage(ft, d, current, Some(stored));
  }
}
