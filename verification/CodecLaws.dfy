/** What encoding and decoding promise each other. */
module CodecLaws {
  import opened Results
  import Numerals
  import opened Scalars
  import opened ValueCodec
  import Ordering

  // ---- Where fields lie ----

  predicate Covers(f: FieldInfo, at: int) { f.offset <= at < f.offset + Length(f) }

  ghost predicate DisjointFields(infos: seq<FieldInfo>) {
    forall i, k, at :: 0 <= i < k < |infos| && Covers(infos[i], at) ==> !Covers(infos[k], at)
  }

  predicate DistinctNames(infos: seq<FieldInfo>) {
    forall i, k :: 0 <= i < k < |infos| ==> infos[i].name != infos[k].name
  }

  /** No declared field covers the byte. */
  predicate Undeclared(infos: seq<FieldInfo>, at: int) {
    forall i :: 0 <= i < |infos| ==> !Covers(infos[i], at)
  }

  lemma ElementsApart(f: FieldInfo, size: nat, j: nat, k: nat)
    requires Placed(f, size) && j < k < f.arrayCount
    ensures ElementAt(f, j) + f.elementSize <= ElementAt(f, k)
  {
    ElementInside(f, j, size);
    ElementInside(f, k, size);
    assert (j + 1) * f.elementSize <= k * f.elementSize;
    assert (j + 1) * f.elementSize == j * f.elementSize + f.elementSize;
  }

  /** Every byte a field covers belongs to one of its elements. */
  lemma ElementOfByte(f: FieldInfo, size: nat, at: nat) returns (j: nat)
    requires Placed(f, size) && Covers(f, at)
    ensures j < f.arrayCount && ElementAt(f, j) <= at < ElementAt(f, j) + f.elementSize
  {
    var w := f.elementSize;
    j := (at - f.offset) / w;
    assert j * w <= at - f.offset < j * w + w;
    assert j >= f.arrayCount ==> j * w >= f.arrayCount * w;
    ElementInside(f, j, size);
  }

  lemma ElementAfterSet(f: FieldInfo, bytes: seq<Byte>, j: nat, scalar: seq<Byte>, k: nat)
    requires Placed(f, |bytes|) && j < f.arrayCount && k < f.arrayCount && |scalar| == Width(f.kind)
    ensures Element(f, SetElement(f, bytes, j, scalar), k) == if k == j then scalar else Element(f, bytes, k)
  {
    ElementInside(f, j, |bytes|);
    ElementInside(f, k, |bytes|);
    if k < j { ElementsApart(f, |bytes|, k, j); }
    if j < k { ElementsApart(f, |bytes|, j, k); }
  }

  /** Payloads that agree on every element of every field and on every undeclared byte are equal. */
  lemma BytesDetermined(infos: seq<FieldInfo>, a: seq<Byte>, b: seq<Byte>)
    requires |a| == |b| && forall f <- infos :: Placed(f, |a|)
    requires forall i, j :: 0 <= i < |infos| && 0 <= j < infos[i].arrayCount ==>
               Element(infos[i], a, j) == Element(infos[i], b, j)
    requires forall at :: 0 <= at < |a| && Undeclared(infos, at) ==> a[at] == b[at]
    ensures a == b
  {
    forall at | 0 <= at < |a| ensures a[at] == b[at] {
      if !Undeclared(infos, at) {
        var i :| 0 <= i < |infos| && Covers(infos[i], at);
        var f := infos[i];
        assert Placed(f, |a|);
        var j := ElementOfByte(f, |a|, at);
        ElementInside(f, j, |a|);
        assert a[at] == Element(f, a, j)[at - ElementAt(f, j)];
        assert b[at] == Element(f, b, j)[at - ElementAt(f, j)];
      }
    }
  }

  // ---- One field ----

  lemma {:induction false} ReadElementsEffect(ft: FloatText, f: FieldInfo, bytes: seq<Byte>, n: nat)
    requires Placed(f, |bytes|) && n <= f.arrayCount
    ensures var r := ReadElements(ft, f, bytes, n);
            && (r.Ok? <==> forall j :: 0 <= j < n ==> ReadScalar(ft, f.kind, Element(f, bytes, j)).Ok?)
            && (r.Ok? ==> forall j :: 0 <= j < n ==> ReadScalar(ft, f.kind, Element(f, bytes, j)) == Ok(r.value[j]))
  {
    if n > 0 {
      ReadElementsEffect(ft, f, bytes, n - 1);
    }
  }

  lemma {:induction false} WriteElementsEffect(ft: FloatText, f: FieldInfo, texts: seq<string>, n: nat,
                                               bytes: seq<Byte>)
    requires Placed(f, |bytes|) && n <= |texts| == f.arrayCount
    ensures var r := WriteElements(ft, f, texts, n, bytes);
            && (r.Ok? <==> forall j :: 0 <= j < n ==> WriteScalar(ft, f.kind, texts[j]).Ok?)
            && (r.Ok? ==> forall j :: 0 <= j < n ==> WriteScalar(ft, f.kind, texts[j]) == Ok(Element(f, r.value, j)))
            && (r.Ok? ==> forall at :: 0 <= at < |bytes| && !Covers(f, at) ==> r.value[at] == bytes[at])
  {
    hide WriteScalar;
    if n > 0 {
      WriteElementsEffect(ft, f, texts, n - 1, bytes);
      var before := WriteElements(ft, f, texts, n - 1, bytes);
      var scalar := WriteScalar(ft, f.kind, texts[n - 1]);
      if before.Ok? && scalar.Ok? {
        ElementInside(f, n - 1, |bytes|);
        var after := SetElement(f, before.value, n - 1, scalar.value);
        forall j | 0 <= j < n ensures WriteScalar(ft, f.kind, texts[j]) == Ok(Element(f, after, j)) {
          ElementAfterSet(f, before.value, n - 1, scalar.value, j);
        }
      }
    }
  }

  /** The encoder accepts this input for this declared field. */
  predicate Acceptable(ft: FloatText, f: FieldInfo, v: FieldValue, size: nat) {
    && Placed(f, size)
    && v.kind == KindOf(f.kind) && v.typeName == KindName(f.kind)
    && ShapeFits(f, v)
    && forall j :: 0 <= j < f.arrayCount ==> WriteScalar(ft, f.kind, Texts(f, v)[j]).Ok?
  }

  /** The payload holds exactly the scalars the input spells, element by element. */
  predicate Holds(ft: FloatText, f: FieldInfo, v: FieldValue, bytes: seq<Byte>) {
    && Placed(f, |bytes|)
    && ShapeFits(f, v)
    && forall j :: 0 <= j < f.arrayCount ==> WriteScalar(ft, f.kind, Texts(f, v)[j]) == Ok(Element(f, bytes, j))
  }

  lemma EncodeFieldEffect(ft: FloatText, f: FieldInfo, v: FieldValue, bytes: seq<Byte>)
    requires ValidField(f) && |bytes| < Numerals.TWO_32
    ensures var r := EncodeField(ft, f, v, bytes);
            && (r.Ok? <==> Acceptable(ft, f, v, |bytes|))
            && (r.Ok? ==> Holds(ft, f, v, r.value))
            && (r.Ok? ==> forall at :: 0 <= at < |bytes| && !Covers(f, at) ==> r.value[at] == bytes[at])
  {
    if Bounds(f, |bytes|) && ShapeFits(f, v) {
      WriteElementsEffect(ft, f, Texts(f, v), f.arrayCount, bytes);
    }
  }

  // ---- All fields ----

  /** The declared field each input names. */
  function Place(infos: seq<FieldInfo>, v: FieldValue): nat { FieldIndex(infos, v.name) }

  /** Each input names a free declared field and no two name the same. */
  predicate Placeable(infos: seq<FieldInfo>, fields: seq<FieldValue>, used: seq<bool>)
    requires |used| == |infos|
  {
    && (forall k :: 0 <= k < |fields| ==> Place(infos, fields[k]) < |infos| && !used[Place(infos, fields[k])])
    && (forall k, l :: 0 <= k < l < |fields| ==> Place(infos, fields[k]) != Place(infos, fields[l]))
  }

  predicate AllAcceptable(ft: FloatText, infos: seq<FieldInfo>, fields: seq<FieldValue>, size: nat)
    requires forall k :: 0 <= k < |fields| ==> Place(infos, fields[k]) < |infos|
  {
    forall k :: 0 <= k < |fields| ==> Acceptable(ft, infos[Place(infos, fields[k])], fields[k], size)
  }

  /** No input names a field that covers the byte. */
  predicate Untouched(infos: seq<FieldInfo>, fields: seq<FieldValue>, at: int)
    requires forall k :: 0 <= k < |fields| ==> Place(infos, fields[k]) < |infos|
  {
    forall k :: 0 <= k < |fields| ==> !Covers(infos[Place(infos, fields[k])], at)
  }

  lemma PlaceableTail(infos: seq<FieldInfo>, fields: seq<FieldValue>, used: seq<bool>)
    requires |used| == |infos| && fields != [] && Place(infos, fields[0]) < |infos|
    ensures Placeable(infos, fields, used) <==>
            !used[Place(infos, fields[0])] && Placeable(infos, fields[1..], used[Place(infos, fields[0]) := true])
  {
    var i := Place(infos, fields[0]);
    var rest := fields[1..];
    var used' := used[i := true];
    if Placeable(infos, fields, used) {
      assert forall k :: 0 <= k < |rest| ==> rest[k] == fields[k + 1];
    }
    if !used[i] && Placeable(infos, rest, used') {
      forall k | 0 <= k < |fields| ensures Place(infos, fields[k]) < |infos| && !used[Place(infos, fields[k])] {
        if k > 0 { assert fields[k] == rest[k - 1]; }
      }
      forall k, l | 0 <= k < l < |fields| ensures Place(infos, fields[k]) != Place(infos, fields[l]) {
        assert fields[l] == rest[l - 1];
        if k > 0 { assert fields[k] == rest[k - 1]; }
      }
    }
  }

  lemma {:induction false} EncodeFieldsEffect(
      ft: FloatText, infos: seq<FieldInfo>, fields: seq<FieldValue>, used: seq<bool>, bytes: seq<Byte>)
    requires (forall f <- infos :: ValidField(f)) && |bytes| < Numerals.TWO_32
    requires |used| == |infos|
    ensures var r := EncodeFields(ft, infos, fields, used, bytes);
            && (r.Ok? <==> Placeable(infos, fields, used) && AllAcceptable(ft, infos, fields, |bytes|))
            && (r.Ok? ==> forall at :: 0 <= at < |bytes| && Untouched(infos, fields, at) ==> r.value[at] == bytes[at])
            && (r.Ok? && DisjointFields(infos) ==>
                  forall k :: 0 <= k < |fields| ==> Holds(ft, infos[Place(infos, fields[k])], fields[k], r.value))
    decreases |fields|
  {
    var r := EncodeFields(ft, infos, fields, used, bytes);
    if fields != [] {
      var i := Place(infos, fields[0]);
      if i < |infos| && !used[i] {
        var f := infos[i];
        assert ValidField(f);
        EncodeFieldEffect(ft, f, fields[0], bytes);
        PlaceableTail(infos, fields, used);
        var next := EncodeField(ft, f, fields[0], bytes);
        if next.Ok? {
          EncodeRest(ft, infos, fields, used, bytes, next.value);
        }
      }
    }
  }

  /** What a field holds depends on its own bytes only. */
  lemma StillHolds(ft: FloatText, f: FieldInfo, v: FieldValue, bytes: seq<Byte>, after: seq<Byte>)
    requires ValidField(f) && Holds(ft, f, v, bytes) && |after| == |bytes| < Numerals.TWO_32
    requires forall at :: 0 <= at < |bytes| && Covers(f, at) ==> after[at] == bytes[at]
    ensures Holds(ft, f, v, after)
  {
    hide WriteScalar;
    forall j | 0 <= j < f.arrayCount ensures Element(f, after, j) == Element(f, bytes, j) {
      ElementInside(f, j, |bytes|);
    }
  }

  /** The induction step, once the first input is written. */
  lemma EncodeRest(
      ft: FloatText, infos: seq<FieldInfo>, fields: seq<FieldValue>, used: seq<bool>, bytes: seq<Byte>, next: seq<Byte>)
    requires (forall f <- infos :: ValidField(f)) && |bytes| < Numerals.TWO_32
    requires |used| == |infos| && fields != []
    requires Place(infos, fields[0]) < |infos| && !used[Place(infos, fields[0])]
    requires EncodeField(ft, infos[Place(infos, fields[0])], fields[0], bytes) == Ok(next)
    ensures var r := EncodeFields(ft, infos, fields, used, bytes);
            && (r.Ok? <==> Placeable(infos, fields, used) && AllAcceptable(ft, infos, fields, |bytes|))
            && (r.Ok? ==> forall at :: 0 <= at < |bytes| && Untouched(infos, fields, at) ==> r.value[at] == bytes[at])
            && (r.Ok? && DisjointFields(infos) ==>
                  forall k :: 0 <= k < |fields| ==> Holds(ft, infos[Place(infos, fields[k])], fields[k], r.value))
    decreases |fields|, 0
  {
    var r := EncodeFields(ft, infos, fields, used, bytes);
    var i := Place(infos, fields[0]);
    var f := infos[i];
    var rest := fields[1..];
    assert forall k :: 0 <= k < |rest| ==> rest[k] == fields[k + 1];
    hide Holds, Covers, EncodeField, Acceptable;
    EncodeFieldEffect(ft, f, fields[0], bytes);
    PlaceableTail(infos, fields, used);
    EncodeFieldsEffect(ft, infos, rest, used[i := true], next);
    if r.Ok? {
      forall at | 0 <= at < |bytes| && Untouched(infos, fields, at) ensures r.value[at] == bytes[at] {
        assert Untouched(infos, rest, at);
      }
      if DisjointFields(infos) {
        forall at | 0 <= at < |bytes| && Covers(f, at) ensures r.value[at] == next[at] {
          assert Untouched(infos, rest, at);
        }
        StillHolds(ft, f, fields[0], next, r.value);
        forall k | 0 <= k < |fields| ensures Holds(ft, infos[Place(infos, fields[k])], fields[k], r.value) {
          if k > 0 { assert fields[k] == rest[k - 1]; }
        }
      }
    }
  }

  // ---- Pigeonhole ----

  lemma {:induction false} DistinctCount(xs: seq<nat>, n: nat)
    requires forall k :: 0 <= k < |xs| ==> xs[k] < n
    requires forall k, l :: 0 <= k < l < |xs| ==> xs[k] != xs[l]
    ensures |xs| <= n
    ensures |xs| == n ==> forall i :: 0 <= i < n ==> i in xs
    decreases n
  {
    if n == 0 {
    } else if n - 1 in xs {
      var p :| 0 <= p < |xs| && xs[p] == n - 1;
      var ys := xs[..p] + xs[p + 1..];
      forall k | 0 <= k < |ys| ensures ys[k] < n - 1 && ys[k] in xs { assert ys[k] == xs[if k < p then k else k + 1]; }
      DistinctCount(ys, n - 1);
      if |xs| == n {
        forall i | 0 <= i < n - 1 ensures i in xs { assert i in ys; }
      }
    } else {
      DistinctCount(xs, n - 1);
    }
  }

  function Places(infos: seq<FieldInfo>, fields: seq<FieldValue>): (xs: seq<nat>)
    ensures |xs| == |fields| && forall k :: 0 <= k < |xs| ==> xs[k] == Place(infos, fields[k])
  {
    seq(|fields|, k requires 0 <= k < |fields| => Place(infos, fields[k]))
  }

  lemma PlaceOfOwnName(infos: seq<FieldInfo>, i: nat)
    requires DistinctNames(infos) && i < |infos|
    ensures FieldIndex(infos, infos[i].name) == i
  {
  }

  /** As many inputs as declared fields, no two for the same field: every field gets its input, and no two declared
      fields can share a name, for only the first of them would ever be found. */
  lemma EveryFieldIsNamed(infos: seq<FieldInfo>, fields: seq<FieldValue>)
    requires |fields| == |infos| && Placeable(infos, fields, Falses(|infos|))
    ensures DistinctNames(infos)
    ensures forall i :: 0 <= i < |infos| ==> i in Places(infos, fields)
  {
    var places := Places(infos, fields);
    DistinctCount(places, |infos|);
    forall i, k | 0 <= i < k < |infos| ensures infos[i].name != infos[k].name {
      assert k in places;
      var l :| 0 <= l < |fields| && Place(infos, fields[l]) == k;
    }
  }

  /** The inputs supply the declared field i. */
  predicate Supplies(ft: FloatText, infos: seq<FieldInfo>, i: nat, fields: seq<FieldValue>, size: nat)
    requires i < |infos|
  {
    exists v <- fields :: v.name == infos[i].name && Acceptable(ft, infos[i], v, size)
  }

  lemma SuppliedIsPlaceable(ft: FloatText, infos: seq<FieldInfo>, fields: seq<FieldValue>, size: nat)
    requires |fields| == |infos| && DistinctNames(infos)
    requires forall i :: 0 <= i < |infos| ==> Supplies(ft, infos, i, fields, size)
    ensures Placeable(infos, fields, Falses(|infos|))
    ensures AllAcceptable(ft, infos, fields, size)
  {
    var ks := Suppliers(ft, infos, fields, size, |infos|);
    DistinctCount(ks, |fields|);
    forall k | 0 <= k < |fields|
      ensures Place(infos, fields[k]) < |infos| && ks[Place(infos, fields[k])] == k
    {
      assert k in ks;
      var i :| 0 <= i < |ks| && ks[i] == k;
      PlaceOfOwnName(infos, i);
    }
  }

  /** For each of the first n declared fields the position of an input that supplies it. */
  lemma {:induction false} Suppliers(ft: FloatText, infos: seq<FieldInfo>, fields: seq<FieldValue>, size: nat, n: nat)
    returns (ks: seq<nat>)
    requires n <= |infos| && DistinctNames(infos)
    requires forall i :: 0 <= i < |infos| ==> Supplies(ft, infos, i, fields, size)
    ensures |ks| == n
    ensures forall i :: 0 <= i < n ==>
              ks[i] < |fields| && fields[ks[i]].name == infos[i].name && Acceptable(ft, infos[i], fields[ks[i]], size)
    ensures forall i, l :: 0 <= i < l < n ==> ks[i] != ks[l]
  {
    if n == 0 {
      ks := [];
    } else {
      ks := Suppliers(ft, infos, fields, size, n - 1);
      assert Supplies(ft, infos, n - 1, fields, size);
      var k :| 0 <= k < |fields| && fields[k].name == infos[n - 1].name
          && Acceptable(ft, infos[n - 1], fields[k], size);
      ks := ks + [k];
    }
  }

  // ---- Encode ----

  /** Exactly when Encode succeeds, without reference to the order of the inputs. */
  lemma EncodeAccepts(ft: FloatText, d: TypeDescriptor, input: DataSnapshot, seed: Option<Payload>)
    ensures Encode(ft, d, input, seed).Ok? <==>
            && ValidDescriptor(d)
            && input.typeId == d.typeId && input.typeName == d.typeName
            && SeedFits(d, seed)
            && |input.fields| == |d.fields|
            && DistinctNames(d.fields)
            && forall i :: 0 <= i < |d.fields| ==> Supplies(ft, d.fields, i, input.fields, d.payloadSize)
  {
    if ValidDescriptor(d) && |input.fields| == |d.fields| && SeedFits(d, seed) {
      var bytes := Base(d, seed).bytes;
      assert |bytes| == d.payloadSize;
      EncodeFieldsEffect(ft, d.fields, input.fields, Falses(|d.fields|), bytes);
      if Placeable(d.fields, input.fields, Falses(|d.fields|)) && AllAcceptable(ft, d.fields, input.fields, |bytes|) {
        EveryFieldIsNamed(d.fields, input.fields);
        forall i | 0 <= i < |d.fields| ensures Supplies(ft, d.fields, i, input.fields, d.payloadSize) {
          assert i in Places(d.fields, input.fields);
          var k :| 0 <= k < |input.fields| && Place(d.fields, input.fields[k]) == i;
          assert input.fields[k] in input.fields;
        }
      }
      if DistinctNames(d.fields) && forall i :: 0 <= i < |d.fields| ==>
      Supplies(ft, d.fields, i, input.fields, d.payloadSize) {
        SuppliedIsPlaceable(ft, d.fields, input.fields, d.payloadSize);
      }
    }
  }

  /** Exactly one input is for the declared field i. */
  predicate NamedOnce(infos: seq<FieldInfo>, fields: seq<FieldValue>, i: nat) {
    exists k :: 0 <= k < |fields| && Place(infos, fields[k]) == i
      && forall l :: 0 <= l < |fields| && Place(infos, fields[l]) == i ==> l == k
  }

  lemma PlacedOnce(infos: seq<FieldInfo>, fields: seq<FieldValue>, k: nat)
    requires Placeable(infos, fields, Falses(|infos|)) && k < |fields|
    ensures NamedOnce(infos, fields, Place(infos, fields[k]))
  {
  }

  /** Success writes every declared field exactly once and touches no other byte. */
  lemma EncodeCoverage(ft: FloatText, d: TypeDescriptor, input: DataSnapshot, seed: Option<Payload>)
    requires Encode(ft, d, input, seed).Ok?
    ensures var out := Encode(ft, d, input, seed).value;
            && |out.bytes| == d.payloadSize && out.typeId == d.typeId && out.sequence == Base(d, seed).sequence
            && forall at :: 0 <= at < d.payloadSize && Undeclared(d.fields, at) ==>
               out.bytes[at] == Base(d, seed).bytes[at]
    ensures forall i :: 0 <= i < |d.fields| ==> Placed(d.fields[i], d.payloadSize)
    ensures forall i :: 0 <= i < |d.fields| ==> NamedOnce(d.fields, input.fields, i)
    ensures DistinctNames(d.fields)
  {
    var bytes := Base(d, seed).bytes;
    var fields := input.fields;
    EncodeFieldsEffect(ft, d.fields, fields, Falses(|d.fields|), bytes);
    EveryFieldIsNamed(d.fields, fields);
    forall at | 0 <= at < d.payloadSize && Undeclared(d.fields, at) ensures Untouched(d.fields, fields, at) {
    }
    forall i | 0 <= i < |d.fields| ensures NamedOnce(d.fields, fields, i) && Placed(d.fields[i], d.payloadSize) {
      assert i in Places(d.fields, fields);
      var k :| 0 <= k < |fields| && Place(d.fields, fields[k]) == i;
      PlacedOnce(d.fields, fields, k);
      assert Acceptable(ft, d.fields[i], fields[k], d.payloadSize);
    }
  }

  /** The input of that name. */
  function Named(fields: seq<FieldValue>, name: string): (v: FieldValue)
    requires exists u <- fields :: u.name == name
    ensures v in fields && v.name == name
  {
    if fields[0].name == name then fields[0] else Named(fields[1..], name)
  }

  lemma NamedUnique(infos: seq<FieldInfo>, fields: seq<FieldValue>, v: FieldValue)
    requires Placeable(infos, fields, Falses(|infos|)) && v in fields
    ensures Named(fields, v.name) == v
  {
    var u := Named(fields, v.name);
    var k :| 0 <= k < |fields| && fields[k] == u;
    var l :| 0 <= l < |fields| && fields[l] == v;
    assert Place(infos, fields[k]) == Place(infos, fields[l]);
  }

  /** With disjoint fields the result holds, in each declared field, the scalars of the input of that name. */
  lemma EncodeHolds(ft: FloatText, d: TypeDescriptor, input: DataSnapshot, seed: Option<Payload>)
    requires Encode(ft, d, input, seed).Ok? && DisjointFields(d.fields)
    ensures forall i :: 0 <= i < |d.fields| ==>
              && (exists u <- input.fields :: u.name == d.fields[i].name)
              && Acceptable(ft, d.fields[i], Named(input.fields, d.fields[i].name), d.payloadSize)
              && Holds(ft, d.fields[i], Named(input.fields, d.fields[i].name), Encode(ft, d, input, seed).value.bytes)
    ensures forall v <- input.fields :: Named(input.fields, v.name) == v
  {
    var fields := input.fields;
    EncodeFieldsEffect(ft, d.fields, fields, Falses(|d.fields|), Base(d, seed).bytes);
    EveryFieldIsNamed(d.fields, fields);
    forall v | v in fields ensures Named(fields, v.name) == v {
      NamedUnique(d.fields, fields, v);
    }
    forall i | 0 <= i < |d.fields|
      ensures exists u <- fields :: u.name == d.fields[i].name
      ensures Acceptable(ft, d.fields[i], Named(fields, d.fields[i].name), d.payloadSize)
      ensures Holds(ft, d.fields[i], Named(fields, d.fields[i].name), Encode(ft, d, input, seed).value.bytes)
    {
      assert i in Places(d.fields, fields);
      var k :| 0 <= k < |fields| && Place(d.fields, fields[k]) == i;
      assert fields[k] in fields;
      assert Named(fields, d.fields[i].name) == fields[k];
    }
  }

  lemma SuccessIgnoresOrder(ft: FloatText, d: TypeDescriptor, a: DataSnapshot, b: DataSnapshot, seed: Option<Payload>)
    requires |a.fields| == |b.fields| && (forall v :: v in a.fields <==> v in b.fields)
    requires a.typeId == b.typeId && a.typeName == b.typeName
    requires Encode(ft, d, a, seed).Ok?
    ensures Encode(ft, d, b, seed).Ok?
  {
    EncodeAccepts(ft, d, a, seed);
    forall i | 0 <= i < |d.fields| ensures Supplies(ft, d.fields, i, b.fields, d.payloadSize) {
      assert Supplies(ft, d.fields, i, a.fields, d.payloadSize);
    }
    EncodeAccepts(ft, d, b, seed);
  }

  /** The order of the inputs decides neither success nor, with disjoint fields, a single byte. */
  lemma EncodeIgnoresOrder(ft: FloatText, d: TypeDescriptor, a: DataSnapshot, b: DataSnapshot, seed: Option<Payload>)
    requires multiset(a.fields) == multiset(b.fields) && a.typeId == b.typeId && a.typeName == b.typeName
    ensures Encode(ft, d, a, seed).Ok? <==> Encode(ft, d, b, seed).Ok?
    ensures Encode(ft, d, a, seed).Ok? && DisjointFields(d.fields) ==> Encode(ft, d, a, seed) == Encode(ft, d, b, seed)
  {
    Ordering.MembersOfSame(a.fields, b.fields);
    if Encode(ft, d, a, seed).Ok? { SuccessIgnoresOrder(ft, d, a, b, seed); }
    if Encode(ft, d, b, seed).Ok? { SuccessIgnoresOrder(ft, d, b, a, seed); }
    if Encode(ft, d, a, seed).Ok? && DisjointFields(d.fields) {
      EncodeDetermined(ft, d, a, b, seed);
    }
  }

  /** Same inputs as a set: same payload. */
  lemma EncodeDetermined(ft: FloatText, d: TypeDescriptor, a: DataSnapshot, b: DataSnapshot, seed: Option<Payload>)
    requires Encode(ft, d, a, seed).Ok? && Encode(ft, d, b, seed).Ok? && DisjointFields(d.fields)
    requires forall v :: v in a.fields <==> v in b.fields
    ensures Encode(ft, d, a, seed) == Encode(ft, d, b, seed)
  {
    var x := Encode(ft, d, a, seed).value.bytes;
    var y := Encode(ft, d, b, seed).value.bytes;
    EncodeHolds(ft, d, a, seed);
    EncodeHolds(ft, d, b, seed);
    EncodeCoverage(ft, d, a, seed);
    EncodeCoverage(ft, d, b, seed);
    forall i, j | 0 <= i < |d.fields| && 0 <= j < d.fields[i].arrayCount
      ensures Element(d.fields[i], x, j) == Element(d.fields[i], y, j)
    {
      var v := Named(a.fields, d.fields[i].name);
      assert v in b.fields && Named(b.fields, v.name) == v;
      assert Holds(ft, d.fields[i], v, x) && Holds(ft, d.fields[i], v, y);
      assert WriteScalar(ft, d.fields[i].kind, Texts(d.fields[i], v)[j]) == Ok(Element(d.fields[i], x, j));
    }
    BytesDetermined(d.fields, x, y);
  }
}
