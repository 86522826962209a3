/** Editing a parameter: flatten to rows, collect typed text, overlay on a fresh read, encode over the stored
    bytes. */
module ParameterEdit {
  import Results
  import opened ValueCodec

  /** A row of the form: the whole value of a field (element -1) or one array element. */
  datatype Row = Row(field: nat, element: int)

  predicate IsRow(fields: seq<FieldValue>, r: Row) {
    && r.field < |fields|
    && if fields[r.field].arrayValues == [] then r.element == -1 else 0 <= r.element < |fields[r.field].arrayValues|
  }

  function RowText(fields: seq<FieldValue>, r: Row): string
    requires IsRow(fields, r)
  {
    if r.element < 0 then fields[r.field].value else fields[r.field].arrayValues[r.element]
  }

  function SetRow(fields: seq<FieldValue>, r: Row, text: string): (out: seq<FieldValue>)
    requires IsRow(fields, r)
    ensures |out| == |fields|
  {
    var f := fields[r.field];
    fields[r.field := if r.element < 0 then f.(value := text) else f.(arrayValues := f.arrayValues[r.element := text])]
  }

  /** Fields that differ at most in their texts. */
  predicate SameShape(a: FieldValue, b: FieldValue) {
    && a.name == b.name && a.kind == b.kind && a.typeName == b.typeName
    && |a.arrayValues| == |b.arrayValues|
    && (a.arrayValues != [] ==> a.value == b.value)
  }

  predicate SameForm(a: seq<FieldValue>, b: seq<FieldValue>) {
    |a| == |b| && forall i :: 0 <= i < |a| ==> SameShape(a[i], b[i])
  }

  /** Fields in order, and the elements of a field in order. */
  predicate Above(a: Row, b: Row) { a.field < b.field || (a.field == b.field && a.element < b.element) }

  /** The rows as displayed: exactly the places a text can stand, each once, in order. */
  ghost predicate RowsOf(fields: seq<FieldValue>, rows: seq<Row>) {
    && (forall r :: r in rows <==> IsRow(fields, r))
    && (forall k, l :: 0 <= k < l < |rows| ==> Above(rows[k], rows[l]))
  }

  /** Flattens a value, scalars and array elements alike. */
  method FieldRows(fields: seq<FieldValue>) returns (rows: seq<Row>, texts: seq<string>)
    ensures RowsOf(fields, rows)
    ensures |texts| == |rows| && forall k :: 0 <= k < |rows| ==> texts[k] == RowText(fields, rows[k])
  {
    rows, texts := [], [];
    for i := 0 to |fields|
      invariant forall r :: r in rows <==> IsRow(fields, r) && r.field < i
      invariant forall k, l :: 0 <= k < l < |rows| ==> Above(rows[k], rows[l])
      invariant |texts| == |rows| && forall k :: 0 <= k < |rows| ==> texts[k] == RowText(fields, rows[k])
    {
      var field := fields[i];
      if field.arrayValues == [] {
        rows, texts := rows + [Row(i, -1)], texts + [field.value];
      } else {
        for j := 0 to |field.arrayValues|
          invariant forall r :: r in rows <==> IsRow(fields, r) && (r.field < i || (r.field == i && r.element < j))
          invariant forall k, l :: 0 <= k < l < |rows| ==> Above(rows[k], rows[l])
          invariant |texts| == |rows| && forall k :: 0 <= k < |rows| ==> texts[k] == RowText(fields, rows[k])
        {
          rows, texts := rows + [Row(i, j)], texts + [field.arrayValues[j]];
        }
      }
    }
  }

  /** The value with every row's text replaced by the typed one. */
  method EditedFields(value: DataSnapshot, inputs: seq<string>, rows: seq<Row>) returns (edited: DataSnapshot)
    requires RowsOf(value.fields, rows) && |inputs| == |rows|
    ensures edited == value.(fields := edited.fields)
    ensures SameForm(value.fields, edited.fields)
    ensures forall k :: 0 <= k < |rows| ==>
              IsRow(edited.fields, rows[k]) && RowText(edited.fields, rows[k]) == inputs[k]
  {
    edited := value;
    for row := 0 to |inputs|
      invariant edited == value.(fields := edited.fields)
      invariant SameForm(value.fields, edited.fields)
      invariant forall k :: 0 <= k < |rows| ==> IsRow(value.fields, rows[k]) && IsRow(edited.fields, rows[k])
      invariant forall k :: 0 <= k < row ==> RowText(edited.fields, rows[k]) == inputs[k]
    {
      edited := edited.(fields := SetRow(edited.fields, rows[row], inputs[row]));
    }
  }

  // ---- The overlay ----

  /** Position of the first field of that name, or the number of fields. */
  function FindNamed(fields: seq<FieldValue>, name: string): (i: nat)
    ensures i <= |fields|
    ensures i < |fields| ==> fields[i].name == name
    ensures forall k :: 0 <= k < i ==> fields[k].name != name
  {
    if fields == [] || fields[0].name == name then 0 else 1 + FindNamed(fields[1..], name)
  }

  predicate Compatible(field: FieldValue, before: FieldValue) {
    field.kind == before.kind && field.typeName == before.typeName && |field.arrayValues| == |before.arrayValues|
  }

  /** What overlaying one field must give: the typed text where it differs from the text shown, the fresh text
      elsewhere. */
  predicate OverlaidField(before: FieldValue, after: FieldValue, live: FieldValue, out: FieldValue)
    requires SameShape(before, after) && Compatible(live, before)
  {
    && SameShape(live, out)
    && (before.arrayValues == [] ==> out.value == if after.value != before.value then after.value else live.value)
    && (forall j :: 0 <= j < |out.arrayValues| ==>
          out.arrayValues[j] ==
          if after.arrayValues[j] != before.arrayValues[j] then after.arrayValues[j] else live.arrayValues[j])
  }

  /** The fresh value carries the same fields under the same distinct names. */
  predicate Aligned(shown: seq<FieldValue>, live: seq<FieldValue>) {
    && |live| == |shown|
    && (forall i :: 0 <= i < |shown| ==> live[i].name == shown[i].name && Compatible(live[i], shown[i]))
    && (forall i, k :: 0 <= i < k < |shown| ==> shown[i].name != shown[k].name)
  }

  lemma FindAligned(shown: seq<FieldValue>, fields: seq<FieldValue>, i: nat)
    requires Aligned(shown, fields) && i < |shown|
    ensures FindNamed(fields, shown[i].name) == i < |fields| && Compatible(fields[i], shown[i])
  {
    assert forall k :: 0 <= k < i ==> fields[k].name == shown[k].name;
  }

  /** The fresh value still has a field of this name, and the first one has the same type. */
  predicate Found(live: seq<FieldValue>, before: FieldValue) {
    var at := FindNamed(live, before.name);
    at < |live| && Compatible(live[at], before)
  }

  /** Where the text of a shown row belongs in the fresh value. */
  function PlaceOf(live: seq<FieldValue>, shown: seq<FieldValue>, r: Row): Row
    requires IsRow(shown, r)
  {
    Row(FindNamed(live, shown[r.field].name), r.element)
  }

  /** The text of a place once rows were visited: that of the last changed row that belongs there, or else the fresh
      one. */
  function LastText(shown: seq<FieldValue>, edited: seq<FieldValue>, live: seq<FieldValue>, rows: seq<Row>,
                    place: Row): string
    requires IsRow(live, place) && forall r :: r in rows ==> IsRow(shown, r) && IsRow(edited, r)
  {
    if rows == [] then RowText(live, place) else
      var (before, r) := (rows[..|rows| - 1], rows[|rows| - 1]);
      assert r in rows;
      if PlaceOf(live, shown, r) == place && RowText(edited, r) != RowText(shown, r) then RowText(edited, r)
      else LastText(shown, edited, live, before, place)
  }

  /** Every place of the fresh value holds the text that the visited rows leave there. */
  ghost predicate Visited(shown: seq<FieldValue>, edited: seq<FieldValue>, live: seq<FieldValue>, rows: seq<Row>,
                          current: seq<FieldValue>)
    requires forall r :: r in rows ==> IsRow(shown, r) && IsRow(edited, r)
  {
    && SameForm(live, current)
    && forall place :: IsRow(live, place) ==>
         IsRow(current, place) && RowText(current, place) == LastText(shown, edited, live, rows, place)
  }

  /** Fresh whole value with only explicitly changed scalars and array elements overlaid, each in the field of its
      name. Refused exactly when a shown field is missing or of another type. */
  method Overlay(shown: DataSnapshot, edited: DataSnapshot, rows: seq<Row>, live: DataSnapshot)
    returns (code: int, current: DataSnapshot)
    requires RowsOf(shown.fields, rows) && SameForm(shown.fields, edited.fields)
    ensures code == if forall f <- shown.fields :: Found(live.fields, f) then 0 else Results.EPROTOTYPE
    ensures current == live.(fields := current.fields)
    ensures forall r :: r in rows ==> IsRow(shown.fields, r) && IsRow(edited.fields, r)
    ensures code == 0 ==> Visited(shown.fields, edited.fields, live.fields, rows, current.fields)
  {
    hide FindNamed, LastText, RowsOf, Found, Visited;
    current := live;
    RowsAreRows(shown.fields, edited.fields, rows);
    NoneVisited(shown.fields, edited.fields, live.fields);
    assert rows[..0] == [];
    for k := 0 to |rows|
      invariant current == live.(fields := current.fields)
      invariant Visited(shown.fields, edited.fields, live.fields, rows[..k], current.fields)
      invariant forall m :: 0 <= m < k ==> Found(live.fields, shown.fields[rows[m].field])
    {
      var r := rows[k];
      assert r in rows && rows[..k + 1] == rows[..k] + [r];
      var (before, after) := (shown.fields[r.field], edited.fields[r.field]);
      var at := FindNamed(current.fields, before.name);
      FoundStays(live.fields, current.fields, before, rows[..k], shown.fields, edited.fields);
      if at == |current.fields| || !Compatible(current.fields[at], before) {
        return Results.EPROTOTYPE, current;
      }
      RowVisited(shown.fields, edited.fields, live.fields, rows[..k], current.fields, r);
      if r.element < 0 {
        if after.value != before.value {
          current := current.(fields := SetRow(current.fields, Row(at, -1), after.value));
        }
      } else if after.arrayValues[r.element] != before.arrayValues[r.element] {
        current := current.(fields := SetRow(current.fields, Row(at, r.element), after.arrayValues[r.element]));
      }
    }
    assert rows[..|rows|] == rows;
    EveryFieldHasRow(shown.fields, live.fields, rows);
    code := 0;
  }

  lemma RowsAreRows(shown: seq<FieldValue>, edited: seq<FieldValue>, rows: seq<Row>)
    requires RowsOf(shown, rows) && SameForm(shown, edited)
    ensures forall r :: r in rows ==> IsRow(shown, r) && IsRow(edited, r) && shown[r.field] in shown
  {
  }

  lemma NoneVisited(shown: seq<FieldValue>, edited: seq<FieldValue>, live: seq<FieldValue>)
    ensures Visited(shown, edited, live, [], live)
  {
  }

  lemma EveryFieldHasRow(shown: seq<FieldValue>, live: seq<FieldValue>, rows: seq<Row>)
    requires RowsOf(shown, rows)
    requires forall m :: 0 <= m < |rows| ==> rows[m].field < |shown| && Found(live, shown[rows[m].field])
    ensures forall f <- shown :: Found(live, f)
  {
    hide Found;
    forall i | 0 <= i < |shown| ensures Found(live, shown[i]) {
      var r := Row(i, if shown[i].arrayValues == [] then -1 else 0);
      assert IsRow(shown, r) && r in rows;
    }
  }

  lemma {:induction false} FindSame(live: seq<FieldValue>, current: seq<FieldValue>, name: string)
    requires SameForm(live, current)
    ensures FindNamed(live, name) == FindNamed(current, name)
  {
    if live != [] { FindSame(live[1..], current[1..], name); }
  }

  lemma FoundStays(live: seq<FieldValue>, current: seq<FieldValue>, before: FieldValue, rows: seq<Row>,
                   shown: seq<FieldValue>, edited: seq<FieldValue>)
    requires forall r :: r in rows ==> IsRow(shown, r) && IsRow(edited, r)
    requires Visited(shown, edited, live, rows, current)
    ensures FindNamed(current, before.name) == FindNamed(live, before.name) <= |live| == |current|
    ensures Found(live, before) <==>
            FindNamed(current, before.name) < |current| && Compatible(current[FindNamed(current, before.name)], before)
  {
    hide FindNamed, LastText;
    FindSame(live, current, before.name);
  }

  /** Visiting one more row. */
  lemma RowVisited(shown: seq<FieldValue>, edited: seq<FieldValue>, live: seq<FieldValue>, rows: seq<Row>,
                   current: seq<FieldValue>, r: Row)
    requires forall q :: q in rows + [r] ==> IsRow(shown, q) && IsRow(edited, q)
    requires IsRow(shown, r) && Visited(shown, edited, live, rows, current) && Found(live, shown[r.field])
    ensures IsRow(shown, r) && IsRow(edited, r) && IsRow(live, PlaceOf(live, shown, r))
    ensures IsRow(current, PlaceOf(live, shown, r))
    ensures Visited(shown, edited, live, rows + [r],
                    if RowText(edited, r) != RowText(shown, r)
                    then SetRow(current, PlaceOf(live, shown, r), RowText(edited, r)) else current)
  {
    hide FindNamed;
    assert r in rows + [r] && (rows + [r])[..|rows|] == rows;
  }

  // ---- What the overlay leaves ----

  predicate DistinctFields(fields: seq<FieldValue>) {
    forall i, k :: 0 <= i < k < |fields| ==> fields[i].name != fields[k].name
  }

  /** When shown names are distinct, a place holds the typed text of the one row that belongs there, if it was
      changed. */
  lemma {:induction false} LastTextOfRow(shown: seq<FieldValue>, edited: seq<FieldValue>, live: seq<FieldValue>,
                                         rows: seq<Row>, r: Row)
    requires DistinctFields(shown) && forall q :: q in rows ==>
               IsRow(shown, q) && IsRow(edited, q) && Found(live, shown[q.field])
    requires r in rows && IsRow(shown, r) && IsRow(live, PlaceOf(live, shown, r))
    ensures LastText(shown, edited, live, rows, PlaceOf(live, shown, r)) ==
            if RowText(edited, r) != RowText(shown, r) then RowText(edited, r)
            else RowText(live, PlaceOf(live, shown, r))
  {
    var (before, last) := (rows[..|rows| - 1], rows[|rows| - 1]);
    assert rows == before + [last] && last in rows;
    if PlaceOf(live, shown, last) == PlaceOf(live, shown, r) {
      assert shown[last.field].name == shown[r.field].name;
      assert last == r;
    }
    if r in before {
      LastTextOfRow(shown, edited, live, before, r);
    } else {
      LastTextElsewhere(shown, edited, live, before, PlaceOf(live, shown, r));
    }
  }

  /** A place no visited row belongs to keeps the fresh text. */
  lemma {:induction false} LastTextElsewhere(shown: seq<FieldValue>, edited: seq<FieldValue>, live: seq<FieldValue>,
                                             rows: seq<Row>, place: Row)
    requires IsRow(live, place) && forall q :: q in rows ==> IsRow(shown, q) && IsRow(edited, q)
    requires forall q :: q in rows ==> PlaceOf(live, shown, q) != place || RowText(edited, q) == RowText(shown, q)
    ensures LastText(shown, edited, live, rows, place) == RowText(live, place)
  {
    if rows != [] {
      assert rows == rows[..|rows| - 1] + [rows[|rows| - 1]];
      LastTextElsewhere(shown, edited, live, rows[..|rows| - 1], place);
    }
  }

  /** The overlay by name, in whatever order the fresh fields stand: an edited row shows in the field of its name, and
      everything else is fresh. */
  lemma OverlayByName(shown: seq<FieldValue>, edited: seq<FieldValue>, live: seq<FieldValue>, rows: seq<Row>,
                      current: seq<FieldValue>)
    requires RowsOf(shown, rows) && SameForm(shown, edited) && DistinctFields(shown) && forall f <- shown ::
               Found(live, f)
    requires forall r :: r in rows ==> IsRow(shown, r) && IsRow(edited, r)
    requires Visited(shown, edited, live, rows, current)
    ensures SameForm(live, current)
    ensures forall i :: 0 <= i < |shown| ==>
              var at := FindNamed(live, shown[i].name);
              at < |live| && Compatible(live[at], shown[i]) && OverlaidField(shown[i], edited[i], live[at], current[at])
    ensures forall p :: 0 <= p < |live| && (forall i :: 0 <= i < |shown| ==> FindNamed(live, shown[i].name) != p) ==>
              current[p] == live[p]
  {
    forall i | 0 <= i < |shown|
      ensures var at := FindNamed(live, shown[i].name);
              at < |live| && Compatible(live[at], shown[i]) && OverlaidField(shown[i], edited[i], live[at], current[at])
    {
      assert Found(live, shown[i]);
      FieldByName(shown, edited, live, rows, current, i);
    }
    forall p | 0 <= p < |live|
        && (forall i :: 0 <= i < |shown| ==> FindNamed(live, shown[i].name) != p) ensures current[p] == live[p] {
      OtherField(shown, edited, live, rows, current, p);
    }
  }

  lemma FieldByName(shown: seq<FieldValue>, edited: seq<FieldValue>, live: seq<FieldValue>, rows: seq<Row>,
                    current: seq<FieldValue>, i: nat)
    requires RowsOf(shown, rows) && SameForm(shown, edited) && DistinctFields(shown) && forall f <- shown ::
               Found(live, f)
    requires forall r :: r in rows ==> IsRow(shown, r) && IsRow(edited, r)
    requires Visited(shown, edited, live, rows, current) && i < |shown| && Found(live, shown[i])
    ensures var at := FindNamed(live, shown[i].name); OverlaidField(shown[i], edited[i], live[at], current[at])
  {
    hide FindNamed, LastText;
    var at := FindNamed(live, shown[i].name);
    assert forall q :: q in rows ==> shown[q.field] in shown;
    if shown[i].arrayValues == [] {
      assert IsRow(shown, Row(i, -1));
      LastTextOfRow(shown, edited, live, rows, Row(i, -1));
    }
    forall j | 0 <= j < |current[at].arrayValues|
      ensures current[at].arrayValues[j] ==
              if edited[i].arrayValues[j] != shown[i].arrayValues[j] then edited[i].arrayValues[j]
              else live[at].arrayValues[j]
    {
      assert IsRow(shown, Row(i, j)) && IsRow(live, Row(at, j));
      LastTextOfRow(shown, edited, live, rows, Row(i, j));
    }
  }

  lemma OtherField(shown: seq<FieldValue>, edited: seq<FieldValue>, live: seq<FieldValue>, rows: seq<Row>,
                   current: seq<FieldValue>, p: nat)
    requires forall r :: r in rows ==> IsRow(shown, r) && IsRow(edited, r)
    requires Visited(shown, edited, live, rows, current) && p < |live|
    requires forall i :: 0 <= i < |shown| ==> FindNamed(live, shown[i].name) != p
    ensures current[p] == live[p]
  {
    hide FindNamed, LastText;
    assert SameShape(live[p], current[p]);
    if live[p].arrayValues == [] {
      assert IsRow(live, Row(p, -1));
      LastTextElsewhere(shown, edited, live, rows, Row(p, -1));
    }
    forall j | 0 <= j < |live[p].arrayValues| ensures current[p].arrayValues[j] == live[p].arrayValues[j] {
      assert IsRow(live, Row(p, j));
      LastTextElsewhere(shown, edited, live, rows, Row(p, j));
    }
    assert current[p].arrayValues == live[p].arrayValues;
  }

  /** Over a fresh value with the same fields, the overlay succeeds field by field. */
  lemma OverlayAligned(shown: seq<FieldValue>, edited: seq<FieldValue>, live: seq<FieldValue>, rows: seq<Row>,
                       current: seq<FieldValue>)
    requires RowsOf(shown, rows) && SameForm(shown, edited) && Aligned(shown, live)
    requires forall r :: r in rows ==> IsRow(shown, r) && IsRow(edited, r)
    requires Visited(shown, edited, live, rows, current)
    ensures |current| == |live| == |shown| && forall i :: 0 <= i < |live| ==>
              OverlaidField(shown[i], edited[i], live[i], current[i])
  {
    hide FindNamed, LastText;
    AlignedFound(shown, live);
    OverlayByName(shown, edited, live, rows, current);
    forall i | 0 <= i < |live|
      ensures OverlaidField(shown[i], edited[i], live[i], current[i])
    {
      FindAligned(shown, live, i);
    }
  }

  lemma AlignedFound(shown: seq<FieldValue>, live: seq<FieldValue>)
    requires Aligned(shown, live)
    ensures forall f <- shown :: Found(live, f)
  {
    forall i | 0 <= i < |shown| ensures Found(live, shown[i]) { FindAligned(shown, live, i); }
  }
}
