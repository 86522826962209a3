/** Descriptor-driven codec between byte payloads and typed text fields. */
module ValueCodec {
  import opened Results
  import opened Numerals
  import opened Scalars

  datatype FieldInfo = FieldInfo(name: string, kind: nat, offset: Uint32, elementSize: Uint32, arrayCount: Uint32)

  datatype TypeDescriptor = TypeDescriptor(typeId: Uint64, typeName: string, payloadSize: Uint32,
                                           fields: seq<FieldInfo>)

  datatype Payload = Payload(typeId: Uint64, sequence: Uint64, bytes: seq<Byte>)

  /** Scalars use value; fixed arrays use arrayValues and leave value empty. */
  datatype FieldValue = FieldValue(name: string, typeName: string, value: string, kind: ValueKind,
                                   arrayValues: seq<string>)

  datatype DataSnapshot = DataSnapshot(typeName: string, sequence: Uint64, fields: seq<FieldValue>, typeId: Uint64)

  /** A caller's variable, passed by reference. */
  class Cell<T> {
    var value: T
    constructor (value: T)
      ensures this.value == value
    {
      this.value := value;
    }
  }

  // ---- Descriptors ----

  /** What the framework's descriptor check is taken to establish; nothing about names or overlap. */
  predicate ValidDescriptor(d: TypeDescriptor) {
    forall f <- d.fields :: ValidField(f)
  }

  predicate ValidField(f: FieldInfo) {
    KnownKind(f.kind) && f.elementSize == Width(f.kind)
  }

  function Length(f: FieldInfo): nat { f.elementSize * f.arrayCount }

  predicate Bounds(f: FieldInfo, size: nat) {
    f.offset <= size && Length(f) <= size - f.offset
  }

  /** A declared field that lies inside a payload of this size. */
  predicate Placed(f: FieldInfo, size: nat) {
    ValidField(f) && Bounds(f, size) && size < TWO_32
  }

  /** The element address as computed: the product is taken in 32 bits. */
  function ElementAt(f: FieldInfo, j: nat): nat { f.offset + (j * f.elementSize) % TWO_32 }

  /** Within bounds of a 32-bit payload the product never wraps and the element never leaves its field. */
  lemma ElementInside(f: FieldInfo, j: nat, size: nat)
    requires Placed(f, size) && j < f.arrayCount
    ensures ElementAt(f, j) == f.offset + j * f.elementSize
    ensures ElementAt(f, j) + f.elementSize <= f.offset + Length(f) <= size
  {
    assert (j + 1) * f.elementSize <= f.arrayCount * f.elementSize;
    assert (j + 1) * f.elementSize == j * f.elementSize + f.elementSize;
  }

  /** The bytes of one array element of a field. */
  function Element(f: FieldInfo, bytes: seq<Byte>, j: nat): (b: seq<Byte>)
    requires Placed(f, |bytes|) && j < f.arrayCount
    ensures |b| == Width(f.kind)
  {
    ElementInside(f, j, |bytes|);
    bytes[ElementAt(f, j)..ElementAt(f, j) + f.elementSize]
  }

  function Splice(bytes: seq<Byte>, at: nat, part: seq<Byte>): (r: seq<Byte>)
    requires at + |part| <= |bytes|
    ensures |r| == |bytes|
    ensures forall i :: 0 <= i < |r| ==> r[i] == if at <= i < at + |part| then part[i - at] else bytes[i]
  {
    bytes[..at] + part + bytes[at + |part|..]
  }

  /** The payload with one element replaced. */
  function SetElement(f: FieldInfo, bytes: seq<Byte>, j: nat, scalar: seq<Byte>): (r: seq<Byte>)
    requires Placed(f, |bytes|) && j < f.arrayCount && |scalar| == Width(f.kind)
    ensures |r| == |bytes|
  {
    ElementInside(f, j, |bytes|);
    Splice(bytes, ElementAt(f, j), scalar)
  }

  // ---- Decode ----

  function FieldOf(f: FieldInfo, texts: seq<string>): FieldValue
    requires KnownKind(f.kind) && |texts| == f.arrayCount
  {
    if f.arrayCount == 1 then FieldValue(f.name, KindName(f.kind), texts[0], KindOf(f.kind), [])
    else FieldValue(f.name, KindName(f.kind), "", KindOf(f.kind), texts)
  }

  /** The texts of the first n elements. */
  function ReadElements(ft: FloatText, f: FieldInfo, bytes: seq<Byte>, n: nat): (r: Result<seq<string>>)
    requires Placed(f, |bytes|) && n <= f.arrayCount
    ensures r.Ok? ==> |r.value| == n
    ensures r.Err? ==> r.code == EPROTO
  {
    if n == 0 then Ok([]) else
      match ReadElements(ft, f, bytes, n - 1)
      case Err(code) => Err(code)
      case Ok(texts) =>
        match ReadScalar(ft, f.kind, Element(f, bytes, n - 1))
        case Err(code) => Err(code)
        case Ok(text) => Ok(texts + [text])
  }

  function DecodeField(ft: FloatText, f: FieldInfo, bytes: seq<Byte>): (r: Result<FieldValue>)
    requires ValidField(f) && |bytes| < TWO_32
    ensures r.Err? ==> r.code == EPROTO
  {
    if !Bounds(f, |bytes|) then Err(EPROTO) else
      match ReadElements(ft, f, bytes, f.arrayCount)
      case Err(code) => Err(code)
      case Ok(texts) => Ok(FieldOf(f, texts))
  }

  function DecodeFields(ft: FloatText, infos: seq<FieldInfo>, bytes: seq<Byte>): (r: Result<seq<FieldValue>>)
    requires (forall f <- infos :: ValidField(f)) && |bytes| < TWO_32
    ensures r.Ok? ==> |r.value| == |infos|
    ensures r.Err? ==> r.code == EPROTO
  {
    if infos == [] then Ok([]) else
      var last := |infos| - 1;
      match DecodeFields(ft, infos[..last], bytes)
      case Err(code) => Err(code)
      case Ok(fields) =>
        match DecodeField(ft, infos[last], bytes)
        case Err(code) => Err(code)
        case Ok(field) => Ok(fields + [field])
  }

  function Decode(ft: FloatText, d: TypeDescriptor, p: Payload): Result<DataSnapshot> {
    if !ValidDescriptor(d) then Err(EPROTO)
    else if p.typeId != d.typeId then Err(EPROTOTYPE)
    else if |p.bytes| != d.payloadSize then Err(EMSGSIZE)
    else
      match DecodeFields(ft, d.fields, p.bytes)
      case Err(code) => Err(code)
      case Ok(fields) => Ok(DataSnapshot(d.typeName, p.sequence, fields, d.typeId))
  }

  // ---- Encode ----

  /** The first declared field of that name, or the number of fields. */
  function FieldIndex(infos: seq<FieldInfo>, name: string): (i: nat)
    ensures i <= |infos|
    ensures i < |infos| ==> infos[i].name == name
    ensures forall k :: 0 <= k < i ==> infos[k].name != name
  {
    if infos == [] || infos[0].name == name then 0 else 1 + FieldIndex(infos[1..], name)
  }

  predicate ShapeFits(f: FieldInfo, v: FieldValue) {
    && (f.arrayCount > 1 ==> |v.arrayValues| == f.arrayCount && v.value == "")
    && (f.arrayCount == 1 ==> v.arrayValues == [])
  }

  function Texts(f: FieldInfo, v: FieldValue): (texts: seq<string>)
    requires ShapeFits(f, v)
    ensures |texts| == f.arrayCount
  {
    if f.arrayCount == 1 then [v.value] else if f.arrayCount == 0 then [] else v.arrayValues
  }

  /** The payload after the first n texts are written to their elements. */
  function WriteElements(ft: FloatText, f: FieldInfo, texts: seq<string>, n: nat,
                         bytes: seq<Byte>): (r: Result<seq<Byte>>)
    requires Placed(f, |bytes|) && n <= |texts| == f.arrayCount
    ensures r.Ok? ==> |r.value| == |bytes|
    ensures r.Err? ==> r.code < 0
  {
    if n == 0 then Ok(bytes) else
      match WriteElements(ft, f, texts, n - 1, bytes)
      case Err(code) => Err(code)
      case Ok(sofar) =>
        match WriteScalar(ft, f.kind, texts[n - 1])
        case Err(code) => Err(code)
        case Ok(scalar) => Ok(SetElement(f, sofar, n - 1, scalar))
  }

  function EncodeField(ft: FloatText, f: FieldInfo, v: FieldValue, bytes: seq<Byte>): (r: Result<seq<Byte>>)
    requires ValidField(f) && |bytes| < TWO_32
    ensures r.Ok? ==> |r.value| == |bytes|
    ensures r.Err? ==> r.code < 0
  {
    if !Bounds(f, |bytes|) then Err(EPROTO)
    else if v.kind != KindOf(f.kind) || v.typeName != KindName(f.kind) then Err(EPROTOTYPE)
    else if !ShapeFits(f, v) then Err(EMSGSIZE)
    else WriteElements(ft, f, Texts(f, v), f.arrayCount, bytes)
  }

  function EncodeFields(ft: FloatText, infos: seq<FieldInfo>, fields: seq<FieldValue>, used: seq<bool>,
                        bytes: seq<Byte>)
    : (r: Result<seq<Byte>>)
    requires (forall f <- infos :: ValidField(f)) && |bytes| < TWO_32
    requires |used| == |infos|
    ensures r.Ok? ==> |r.value| == |bytes|
    ensures r.Err? ==> r.code < 0
    decreases |fields|
  {
    if fields == [] then Ok(bytes) else
      var i := FieldIndex(infos, fields[0].name);
      if i == |infos| || used[i] then Err(EINVAL) else
        match EncodeField(ft, infos[i], fields[0], bytes)
        case Err(code) => Err(code)
        case Ok(next) => EncodeFields(ft, infos, fields[1..], used[i := true], next)
  }

  function Zeros(n: nat): seq<Byte> { seq(n, _ => 0) }

  function Falses(n: nat): seq<bool> { seq(n, _ => false) }

  /** The payload the encoder starts from: the seed, or zero bytes. */
  function Base(d: TypeDescriptor, seed: Option<Payload>): Payload {
    match seed
    case None => Payload(d.typeId, 0, Zeros(d.payloadSize))
    case Some(p) => p.(typeId := d.typeId)
  }

  predicate SeedFits(d: TypeDescriptor, seed: Option<Payload>) {
    seed.Some? ==> seed.value.typeId == d.typeId && |seed.value.bytes| == d.payloadSize
  }

  function Encode(ft: FloatText, d: TypeDescriptor, input: DataSnapshot, seed: Option<Payload>): (r: Result<Payload>)
  {
    if !ValidDescriptor(d) then Err(EPROTO)
    else if input.typeId != d.typeId || input.typeName != d.typeName then Err(EPROTOTYPE)
    else if |input.fields| != |d.fields| then Err(EINVAL)
    else if !SeedFits(d, seed) then Err(EPROTOTYPE)
    else
      match EncodeFields(ft, d.fields, input.fields, Falses(|d.fields|), Base(d, seed).bytes)
      case Err(code) => Err(code)
      case Ok(bytes) => Ok(Base(d, seed).(bytes := bytes))
  }

  // ---- The loops ----

  /** Once an element cannot be read, the field cannot. */
  lemma {:induction false} ReadElementsStops(ft: FloatText, f: FieldInfo, bytes: seq<Byte>, m: nat, n: nat)
    requires Placed(f, |bytes|) && m <= n <= f.arrayCount
    ensures ReadElements(ft, f, bytes, m).Err? ==> ReadElements(ft, f, bytes, n) == ReadElements(ft, f, bytes, m)
  {
    if m < n {
      ReadElementsStops(ft, f, bytes, m, n - 1);
    }
  }

  /** Once a prefix of the fields fails, the whole fails with the same code. */
  lemma DecodeFieldsStops(ft: FloatText, infos: seq<FieldInfo>, bytes: seq<Byte>, i: nat)
    requires (forall f <- infos :: ValidField(f)) && |bytes| < TWO_32
    requires i <= |infos|
    ensures DecodeFields(ft, infos[..i], bytes).Err? ==>
              DecodeFields(ft, infos, bytes) == DecodeFields(ft, infos[..i], bytes)
    decreases |infos|
  {
    if i == |infos| {
      assert infos[..i] == infos;
    } else {
      var rest := infos[..|infos| - 1];
      DecodeFieldsStops(ft, rest, bytes, i);
      assert rest[..i] == infos[..i];
    }
  }

  /** The element loop of one declared field, filling either value or arrayValues. */
  method DecodeFieldInto(ft: FloatText, f: FieldInfo, bytes: seq<Byte>) returns (code: int, field: FieldValue)
    requires Placed(f, |bytes|)
    ensures match DecodeField(ft, f, bytes)
            case Ok(v) => code == 0 && field == v
            case Err(e) => code == e
  {
    hide ReadScalar, KindName, KindOf;
    field := FieldValue(f.name, KindName(f.kind), "", KindOf(f.kind), []);
    ghost var texts := [];
    var j: Uint32 := 0;
    while j < f.arrayCount
      invariant 0 <= j <= f.arrayCount
      invariant ReadElements(ft, f, bytes, j) == Ok(texts)
      invariant field == FieldValue(f.name, KindName(f.kind), if f.arrayCount == 1 && j == 1 then texts[0] else "",
                                    KindOf(f.kind), if f.arrayCount == 1 then [] else texts)
    {
      ElementInside(f, j, |bytes|);
      ReadElementsStops(ft, f, bytes, j + 1, f.arrayCount);
      var text := ReadScalar(ft, f.kind, bytes[ElementAt(f, j)..ElementAt(f, j) + f.elementSize]);
      if text.Err? { return text.code, field; }
      texts := texts + [text.value];
      if f.arrayCount == 1 {
        field := field.(value := text.value);
      } else {
        field := field.(arrayValues := field.arrayValues + [text.value]);
      }
      j := j + 1;
    }
    return 0, field;
  }

  method DecodeInto(ft: FloatText, d: TypeDescriptor, p: Payload, output: Cell<DataSnapshot>) returns (code: int)
    modifies output
    ensures match Decode(ft, d, p)
            case Ok(v) => code == 0 && output.value == v
            case Err(e) => code == e && output.value == old(output.value)
  {
    if !ValidDescriptor(d) { return EPROTO; }
    if p.typeId != d.typeId { return EPROTOTYPE; }
    if |p.bytes| != d.payloadSize { return EMSGSIZE; }
    var fields: seq<FieldValue> := [];
    var i := 0;
    while i < |d.fields|
      invariant 0 <= i <= |d.fields|
      invariant DecodeFields(ft, d.fields[..i], p.bytes) == Ok(fields)
      invariant output.value == old(output.value)
    {
      var f := d.fields[i];
      assert ValidField(f);
      assert d.fields[..i + 1][..i] == d.fields[..i];
      DecodeFieldsStops(ft, d.fields, p.bytes, i + 1);
      if !Bounds(f, |p.bytes|) { return EPROTO; }
      var result, field := DecodeFieldInto(ft, f, p.bytes);
      if result != 0 { return result; }
      fields := fields + [field];
      i := i + 1;
    }
    assert d.fields[..i] == d.fields;
    output.value := DataSnapshot(d.typeName, p.sequence, fields, d.typeId);
    return 0;
  }

  /** Once a text cannot be written, the field cannot. */
  lemma {:induction false} WriteElementsStops(ft: FloatText, f: FieldInfo, texts: seq<string>, bytes: seq<Byte>,
                                              m: nat, n: nat)
    requires Placed(f, |bytes|) && m <= n <= |texts| == f.arrayCount
    ensures WriteElements(ft, f, texts, m, bytes).Err? ==>
              WriteElements(ft, f, texts, n, bytes) == WriteElements(ft, f, texts, m, bytes)
  {
    if m < n {
      WriteElementsStops(ft, f, texts, bytes, m, n - 1);
    }
  }

  /** Copies the bytes of a scalar into the buffer. */
  method Store(scalar: seq<Byte>, buffer: array<Byte>, at: nat)
    requires at + |scalar| <= buffer.Length
    modifies buffer
    ensures buffer[..] == Splice(old(buffer[..]), at, scalar)
  {
    var i := 0;
    while i < |scalar|
      invariant 0 <= i <= |scalar|
      invariant buffer[..] == Splice(old(buffer[..]), at, scalar[..i])
    {
      buffer[at + i] := scalar[i];
      i := i + 1;
    }
    assert scalar[..i] == scalar;
  }

  /** The checks of one input field, then its elements. */
  method EncodeFieldInto(ft: FloatText, f: FieldInfo, field: FieldValue, buffer: array<Byte>) returns (code: int)
    requires ValidField(f) && buffer.Length < TWO_32
    modifies buffer
    ensures match EncodeField(ft, f, field, old(buffer[..]))
            case Ok(bytes) => code == 0 && buffer[..] == bytes
            case Err(e) => code == e
  {
    if !Bounds(f, buffer.Length) { return EPROTO; }
    if field.kind != KindOf(f.kind) || field.typeName != KindName(f.kind) { return EPROTOTYPE; }
    if (f.arrayCount > 1 && (|field.arrayValues| != f.arrayCount || field.value != "")) ||
       (f.arrayCount == 1 && field.arrayValues != []) {
      return EMSGSIZE;
    }
    code := WriteElementsInto(ft, f, field, buffer);
  }

  /** The element loop of one input field. */
  method WriteElementsInto(ft: FloatText, f: FieldInfo, field: FieldValue, buffer: array<Byte>) returns (code: int)
    requires ValidField(f) && buffer.Length < TWO_32 && Bounds(f, buffer.Length)
    requires ShapeFits(f, field)
    modifies buffer
    ensures match WriteElements(ft, f, Texts(f, field), f.arrayCount, old(buffer[..]))
            case Ok(bytes) => code == 0 && buffer[..] == bytes
            case Err(e) => code == e
  {
    hide WriteScalar, ElementAt;
    ghost var before := buffer[..];
    ghost var texts := Texts(f, field);
    var j: Uint32 := 0;
    while j < f.arrayCount
      invariant 0 <= j <= f.arrayCount
      invariant WriteElements(ft, f, texts, j, before) == Ok(buffer[..])
    {
      ElementInside(f, j, buffer.Length);
      WriteElementsStops(ft, f, texts, before, j + 1, f.arrayCount);
      var scalar := WriteScalar(ft, f.kind, if f.arrayCount == 1 then field.value else field.arrayValues[j]);
      if scalar.Err? { return scalar.code; }
      ghost var sofar := buffer[..];
      Store(scalar.value, buffer, ElementAt(f, j));
      assert buffer[..] == SetElement(f, sofar, j, scalar.value);
      j := j + 1;
    }
    return 0;
  }

  method FindField(infos: seq<FieldInfo>, name: string) returns (i: nat)
    ensures i == FieldIndex(infos, name)
  {
    i := 0;
    while i < |infos| && name != infos[i].name
      invariant i <= FieldIndex(infos, name)
    {
      i := i + 1;
    }
  }

  method EncodeInto(ft: FloatText, d: TypeDescriptor, input: DataSnapshot, output: Cell<Payload>, seed: Option<Payload>)
    returns (code: int)
    modifies output
    ensures match Encode(ft, d, input, seed)
            case Ok(p) => code == 0 && output.value == p
            case Err(e) => code == e && output.value == old(output.value)
  {
    if !ValidDescriptor(d) { return EPROTO; }
    if input.typeId != d.typeId || input.typeName != d.typeName { return EPROTOTYPE; }
    if |input.fields| != |d.fields| { return EINVAL; }
    if !SeedFits(d, seed) { return EPROTOTYPE; }
    var base := Base(d, seed);
    var buffer := new Byte[d.payloadSize](i requires 0 <= i < d.payloadSize => base.bytes[i]);
    assert buffer[..] == base.bytes;
    var used := Falses(|d.fields|);
    ghost var whole := EncodeFields(ft, d.fields, input.fields, used, base.bytes);
    assert input.fields[0..] == input.fields;
    var k := 0;
    while k < |input.fields|
      invariant 0 <= k <= |input.fields|
      invariant |used| == |d.fields| && buffer.Length == d.payloadSize
      invariant EncodeFields(ft, d.fields, input.fields[k..], used, buffer[..]) == whole
      invariant output.value == old(output.value)
    {
      var field := input.fields[k];
      assert input.fields[k..][0] == field && input.fields[k..][1..] == input.fields[k + 1..];
      var i := FindField(d.fields, field.name);
      if i == |d.fields| || used[i] { return EINVAL; }
      assert ValidField(d.fields[i]);
      var result := EncodeFieldInto(ft, d.fields[i], field, buffer);
      if result != 0 { return result; }
      used := used[i := true];
      k := k + 1;
    }
    output.value := base.(bytes := buffer[..]);
    return 0;
  }
}
