/** Protocol buffers as the presence service uses them: messages of a typed schema, nested to
    any depth, with proto3's rule that zero values are not written. Reflection, extensions,
    maps and repeated fields are not part of the model. */
module Proto {
  import opened Wrappers
  import opened Base128

  // ----- schemas and messages -----

  datatype Kind = Int32 | Int64 | Text | Embedded(fields: seq<FieldDef>)

  datatype FieldDef = FieldDef(tag: nat, kind: Kind)

  type Schema = seq<FieldDef>

  datatype Value = Num(n: int) | Chars(s: seq<byte>) | Sub(m: Option<seq<Value>>)

  function Zero(k: Kind): Value {
    match k
    case Text => Chars([])
    case Embedded(_) => Sub(None)
    case _ => Num(0)
  }

  function Zeros(schema: Schema): (m: seq<Value>)
    ensures |m| == |schema| && forall i :: 0 <= i < |schema| ==> m[i] == Zero(schema[i].kind)
  {
    if schema == [] then [] else [Zero(schema[0].kind)] + Zeros(schema[1..])
  }

  predicate Typed(k: Kind, v: Value)
    decreases k
  {
    match k
    case Int32 => v.Num? && -0x8000_0000 <= v.n < 0x8000_0000
    case Int64 => v.Num? && -0x8000_0000_0000_0000 <= v.n < 0x8000_0000_0000_0000
    case Text => v.Chars?
    case Embedded(fields) => v.Sub? && (v.m.Some? ==> TypedAll(fields, v.m.value))
  }

  predicate TypedAll(schema: Schema, m: seq<Value>)
    decreases schema
  {
    if schema == [] then m == []
    else m != [] && TypedField(schema[0], m[0]) && TypedAll(schema[1..], m[1..])
  }

  predicate TypedField(d: FieldDef, v: Value)
    decreases d
  {
    Typed(d.kind, v)
  }

  /** Fields in ascending tag order, as they are encoded, here and in embedded messages. */
  predicate GoodSchema(schema: Schema)
    decreases schema
  {
    schema == []
    || (&& GoodField(schema[0])
        && (|schema| > 1 ==> schema[0].tag < schema[1].tag)
        && GoodSchema(schema[1..]))
  }

  predicate GoodField(d: FieldDef)
    decreases d
  {
    1 <= d.tag < 0x2000_0000 && GoodKind(d.kind)
  }

  predicate GoodKind(k: Kind)
    decreases k
  {
    k.Embedded? ==> GoodSchema(k.fields)
  }

  /** The messages of the service: Device and Event. */
  const DEVICE_SCHEMA: Schema :=
    [FieldDef(1, Text), FieldDef(2, Int32), FieldDef(3, Text), FieldDef(4, Int32)]

  const EVENT_SCHEMA: Schema := [FieldDef(1, Int64), FieldDef(2, Embedded(DEVICE_SCHEMA))]

  // ----- encoding -----

  const VARINT_TYPE := 0
  const BYTES_TYPE := 2
  const START_GROUP_TYPE := 3
  const END_GROUP_TYPE := 4

  function WireType(k: Kind): nat {
    match k
    case Int32 => VARINT_TYPE
    case Int64 => VARINT_TYPE
    case _ => BYTES_TYPE
  }

  function TagCode(d: FieldDef): seq<byte> {
    Encode(8 * d.tag + WireType(d.kind))
  }

  /** A signed number, sign-extended to 64 bits. */
  function Extended(v: int): (x: nat)
    ensures x < 0x1_0000_0000_0000_0000
  {
    v % 0x1_0000_0000_0000_0000
  }

  function Prefixed(b: seq<byte>): seq<byte> {
    Encode(|b|) + b
  }

  function EncodeField(d: FieldDef, v: Value): seq<byte>
    requires TypedField(d, v)
    decreases d
  {
    if v == Zero(d.kind) then [] else TagCode(d) + EncodeValue(d.kind, v)
  }

  function EncodeValue(k: Kind, v: Value): seq<byte>
    requires Typed(k, v) && v != Zero(k)
    decreases k
  {
    match v
    case Num(n) => Encode(Extended(n))
    case Chars(s) => Prefixed(s)
    case Sub(m) => Prefixed(Marshal(k.fields, m.value))
  }

  function Marshal(schema: Schema, m: seq<Value>): seq<byte>
    requires TypedAll(schema, m)
    decreases schema
  {
    if schema == [] then [] else EncodeField(schema[0], m[0]) + Marshal(schema[1..], m[1..])
  }

  // ----- sizes, computed without encoding -----

  function SizeVarint(x: nat): nat {
    if x < 128 then 1 else 1 + SizeVarint(x / 128)
  }

  function SizeField(d: FieldDef, v: Value): nat
    requires TypedField(d, v)
    decreases d
  {
    if v == Zero(d.kind) then 0 else |TagCode(d)| + SizeValue(d.kind, v)
  }

  function SizeValue(k: Kind, v: Value): nat
    requires Typed(k, v) && v != Zero(k)
    decreases k
  {
    match v
    case Num(n) => SizeVarint(Extended(n))
    case Chars(s) => SizeVarint(|s|) + |s|
    case Sub(m) => var n := Size(k.fields, m.value); n + SizeVarint(n)
  }

  function Size(schema: Schema, m: seq<Value>): nat
    requires TypedAll(schema, m)
    decreases schema
  {
    if schema == [] then 0 else SizeField(schema[0], m[0]) + Size(schema[1..], m[1..])
  }

  // ----- decoding -----

  datatype Error = UnexpectedEOF | VarintOverflow | BadLength | IllegalTag | EndGroup | BadWireType

  datatype Parse<+T> = Done(value: T, rest: seq<byte>) | Bad(error: Error)

  /** DecodeVarint: ten bytes at most, and what does not fit 64 bits is lost. */
  function ReadVarint(p: seq<byte>): (r: Parse<nat>)
    ensures r.Done? ==> |r.rest| < |p|
  {
    match Scan(p)
    case None => Bad(if |p| >= 10 then VarintOverflow else UnexpectedEOF)
    case Some((v, c)) => if c <= 10 then Done(v % 0x1_0000_0000_0000_0000, p[c..]) else Bad(VarintOverflow)
  }

  function ReadRaw(p: seq<byte>): (r: Parse<seq<byte>>)
    ensures r.Done? ==> |r.rest| + |r.value| < |p|
  {
    match ReadVarint(p)
    case Bad(e) => Bad(e)
    case Done(n, rest) =>
      if n >= 0x8000_0000_0000_0000 then Bad(BadLength)
      else if n > |rest| then Bad(UnexpectedEOF)
      else Done(rest[..n], rest[n..])
  }

  function Drop(p: seq<byte>, n: nat): Parse<()> {
    if n > |p| then Bad(UnexpectedEOF) else Done((), p[n..])
  }

  /** skip: over a field that the schema does not know. */
  function Skip(wire: nat, p: seq<byte>): (r: Parse<()>)
    ensures r.Done? ==> |r.rest| <= |p|
    decreases |p|, 1
  {
    if wire == VARINT_TYPE then
      match ReadVarint(p)
      case Bad(e) => Bad(e)
      case Done(_, rest) => Done((), rest)
    else if wire == 1 then Drop(p, 8)
    else if wire == BYTES_TYPE then
      match ReadRaw(p)
      case Bad(e) => Bad(e)
      case Done(_, rest) => Done((), rest)
    else if wire == 5 then Drop(p, 4)
    else if wire == START_GROUP_TYPE then SkipGroup(p)
    else Bad(BadWireType)
  }

  function SkipGroup(p: seq<byte>): (r: Parse<()>)
    ensures r.Done? ==> |r.rest| <= |p|
    decreases |p|, 0
  {
    match ReadVarint(p)
    case Bad(e) => Bad(e)
    case Done(u, rest) =>
      if u % 8 == END_GROUP_TYPE then Done((), rest)
      else
        match Skip(u % 8, rest)
        case Bad(e) => Bad(e)
        case Done(_, rest') => SkipGroup(rest')
  }

  function Find(schema: Schema, tag: nat): (r: Option<nat>)
    ensures r.Some? ==> r.value < |schema| && schema[r.value].tag == tag
  {
    if schema == [] then None
    else if schema[0].tag == tag then Some(0)
    else
      var r := Find(schema[1..], tag);
      if r.None? then None else Some(r.value + 1)
  }

  /** The low n bits of u as a signed number, 2^n being p. */
  function Signed(u: nat, p: nat): int
    requires p > 0
  {
    var x := u % p;
    if 2 * x >= p then x - p else x
  }

  /** What the decoder of a field makes of the bytes behind its tag, when the field already
      holds v: an embedded message is merged into the one that is there. */
  function DecodeField(k: Kind, v: Value, p: seq<byte>): (r: Parse<Value>)
    ensures r.Done? ==> |r.rest| < |p|
    decreases |p|, 0
  {
    match k
    case Int32 =>
      (match ReadVarint(p)
       case Bad(e) => Bad(e)
       case Done(u, rest) => Done(Num(Signed(u, 0x1_0000_0000)), rest))
    case Int64 =>
      (match ReadVarint(p)
       case Bad(e) => Bad(e)
       case Done(u, rest) => Done(Num(Signed(u, 0x1_0000_0000_0000_0000)), rest))
    case Text =>
      (match ReadRaw(p)
       case Bad(e) => Bad(e)
       case Done(s, rest) => Done(Chars(s), rest))
    case Embedded(fields) =>
      match ReadRaw(p)
      case Bad(e) => Bad(e)
      case Done(raw, rest) =>
        var m := if v.Sub? && v.m.Some? && |v.m.value| == |fields| then v.m.value else Zeros(fields);
        match Unmarshal(fields, m, raw)
        case Err(e) => Bad(e)
        case Ok(m') => Done(Sub(Some(m')), rest)
  }

  /** unmarshalType, over what is left of the buffer. */
  function Unmarshal(schema: Schema, m: seq<Value>, p: seq<byte>): (r: Result<seq<Value>, Error>)
    requires |m| == |schema|
    ensures r.Ok? ==> |r.value| == |schema|
    decreases |p|, 1
  {
    if p == [] then Ok(m)
    else
      match ReadVarint(p)
      case Bad(e) => Err(e)
      case Done(u, rest) =>
        var wire, tag := u % 8, u / 8;
        if wire == END_GROUP_TYPE then Err(EndGroup)
        else if tag == 0 then Err(IllegalTag)
        else
          match Find(schema, tag)
          case None =>
            (match Skip(wire, rest)
             case Bad(e) => Err(e)
             case Done(_, rest') => Unmarshal(schema, m, rest'))
          case Some(i) =>
            var d := schema[i];
            if wire != START_GROUP_TYPE && wire != WireType(d.kind) then Err(BadWireType)
            else
              match DecodeField(d.kind, m[i], rest)
              case Bad(e) => Err(e)
              case Done(v, rest') => Unmarshal(schema, m[i := v], rest')
  }

  // ----- sizes agree -----

  lemma {:induction false} SizeOfVarint(x: nat)
    ensures SizeVarint(x) == |Encode(x)|
  {
    if x >= 128 { SizeOfVarint(x / 128); }
  }

  lemma {:induction false} SizeOfField(d: FieldDef, v: Value)
    requires TypedField(d, v)
    ensures SizeField(d, v) == |EncodeField(d, v)|
    decreases d
  {
    if v != Zero(d.kind) { SizeOfValue(d.kind, v); }
  }

  lemma {:induction false} SizeOfValue(k: Kind, v: Value)
    requires Typed(k, v) && v != Zero(k)
    ensures SizeValue(k, v) == |EncodeValue(k, v)|
    decreases k
  {
    match v
    case Num(n) => SizeOfVarint(Extended(n));
    case Chars(s) => SizeOfVarint(|s|);
    case Sub(m) =>
      SizeAgrees(k.fields, m.value);
      SizeOfVarint(Size(k.fields, m.value));
  }

  /** Size is the length of Marshal, whatever the schema and the nesting. */
  lemma {:induction false} SizeAgrees(schema: Schema, m: seq<Value>)
    requires TypedAll(schema, m)
    ensures Size(schema, m) == |Marshal(schema, m)|
    decreases schema
  {
    if schema != [] {
      SizeOfField(schema[0], m[0]);
      SizeAgrees(schema[1..], m[1..]);
    }
  }

  // ----- values come back -----

  lemma VarintComes(x: nat, rest: seq<byte>)
    requires x < 0x1_0000_0000_0000_0000
    ensures ReadVarint(Encode(x) + rest) == Done(x, rest)
  {
    ScanEncode(x, rest);
    assert |Encode(x)| <= 10 by {
      Powers();
      Pow2Monotone(64, 70);
      EncodeLength(x, 10);
    }
    hide Encode, Scan;
    assert (Encode(x) + rest)[|Encode(x)|..] == rest;
  }

  lemma RawComes(b: seq<byte>, rest: seq<byte>)
    requires |b| < 0x8000_0000_0000_0000
    ensures ReadRaw(Prefixed(b) + rest) == Done(b, rest)
  {
    hide Encode, ReadVarint;
    VarintComes(|b|, b + rest);
    assert Prefixed(b) + rest == Encode(|b|) + (b + rest);
    assert (b + rest)[..|b|] == b && (b + rest)[|b|..] == rest;
  }

  /** Sign extension to 64 bits is undone by truncation to the field's width. */
  lemma SignComesBack(v: int)
    ensures -0x8000_0000 <= v < 0x8000_0000 ==> Signed(Extended(v), 0x1_0000_0000) == v
    ensures -0x8000_0000_0000_0000 <= v < 0x8000_0000_0000_0000 ==> Signed(Extended(v), 0x1_0000_0000_0000_0000) == v
  {
  }

  lemma {:induction false} TypedLength(schema: Schema, m: seq<Value>)
    requires TypedAll(schema, m)
    ensures |m| == |schema|
    ensures forall i :: 0 <= i < |m| ==> Typed(schema[i].kind, m[i])
  {
    if schema != [] { TypedLength(schema[1..], m[1..]); }
  }

  /** A tag is found where it is: tags ascend. */
  lemma {:induction false} FindsTag(schema: Schema, i: nat)
    requires GoodSchema(schema) && i < |schema|
    ensures Find(schema, schema[i].tag) == Some(i)
    ensures 1 <= schema[i].tag < 0x2000_0000 && GoodKind(schema[i].kind)
    ensures i > 0 ==> schema[0].tag < schema[i].tag
  {
    if i > 0 { FindsTag(schema[1..], i - 1); }
  }

  /** The value of a field comes back from its bytes, whatever else follows. */
  lemma {:induction false} ValueComes(k: Kind, v: Value, rest: seq<byte>)
    requires GoodKind(k) && Typed(k, v) && v != Zero(k)
    requires |EncodeValue(k, v)| < 0x8000_0000_0000_0000
    ensures DecodeField(k, Zero(k), EncodeValue(k, v) + rest) == Done(v, rest)
    decreases k
  {
    match v
    case Num(n) =>
      VarintComes(Extended(n), rest);
      SignComesBack(n);
    case Chars(s) => RawComes(s, rest);
    case Sub(m) =>
      var body := Marshal(k.fields, m.value);
      TypedLength(k.fields, m.value);
      RawComes(body, rest);
      RoundTrip(k.fields, m.value);
  }

  /** One round of the loop, on a field that the schema knows. */
  lemma Round(schema: Schema, m: seq<Value>, p: seq<byte>, i: nat, rest: seq<byte>, v: Value, rest': seq<byte>)
    requires i < |schema| == |m| && p != [] && schema[i].tag > 0
    requires Find(schema, schema[i].tag) == Some(i)
    requires ReadVarint(p) == Done(8 * schema[i].tag + WireType(schema[i].kind), rest)
    requires DecodeField(schema[i].kind, m[i], rest) == Done(v, rest')
    ensures Unmarshal(schema, m, p) == Unmarshal(schema, m[i := v], rest')
  {
    hide DecodeField, ReadVarint, Find, Skip;
    var u := 8 * schema[i].tag + WireType(schema[i].kind);
    assert u / 8 == schema[i].tag && u % 8 == WireType(schema[i].kind);
  }

  lemma {:induction false} FieldStep(schema: Schema, m: seq<Value>, i: nat, v: Value, rest: seq<byte>)
    requires GoodSchema(schema) && i < |schema| == |m|
    requires TypedField(schema[i], v) && v != Zero(schema[i].kind) && m[i] == Zero(schema[i].kind)
    requires DecodeField(schema[i].kind, Zero(schema[i].kind), EncodeValue(schema[i].kind, v) + rest) == Done(v, rest)
    ensures Unmarshal(schema, m, EncodeField(schema[i], v) + rest) == Unmarshal(schema, m[i := v], rest)
  {
    hide DecodeField, EncodeValue, ReadVarint, GoodSchema, Find, Encode, Typed, Unmarshal, Zero;
    var d := schema[i];
    FindsTag(schema, i);
    var b := EncodeValue(d.kind, v);
    VarintComes(8 * d.tag + WireType(d.kind), b + rest);
    Joined(TagCode(d), b, rest);
    Round(schema, m, EncodeField(d, v) + rest, i, b + rest, v, rest);
  }

  lemma MarshalStep(schema: Schema, m: seq<Value>, i: nat)
    requires TypedAll(schema, m) && i < |schema| == |m|
    requires TypedAll(schema[i..], m[i..])
    ensures TypedField(schema[i], m[i]) && TypedAll(schema[i + 1..], m[i + 1..])
    ensures Marshal(schema[i..], m[i..]) == EncodeField(schema[i], m[i]) + Marshal(schema[i + 1..], m[i + 1..])
  {
    hide EncodeField, TypedField;
    assert schema[i..][1..] == schema[i + 1..] && m[i..][1..] == m[i + 1..];
  }

  /** The fields before i as in m, the others still zero. */
  function Partly(schema: Schema, m: seq<Value>, i: nat): seq<Value>
    requires i <= |schema| == |m|
  {
    m[..i] + Zeros(schema)[i..]
  }

  lemma PartlyNext(schema: Schema, m: seq<Value>, i: nat)
    requires i < |schema| == |m|
    ensures |Partly(schema, m, i)| == |schema| && Partly(schema, m, i)[i] == Zero(schema[i].kind)
    ensures Partly(schema, m, i + 1) == Partly(schema, m, i)[i := m[i]]
  {
    hide Zero;
  }

  /** The loop over the fields from i on, with those before it already in place. */
  lemma {:induction false} FieldsCome(schema: Schema, m: seq<Value>, i: nat)
    requires GoodSchema(schema) && TypedAll(schema, m) && i <= |schema| == |m|
    requires TypedAll(schema[i..], m[i..])
    requires |Marshal(schema[i..], m[i..])| < 0x8000_0000_0000_0000
    ensures Unmarshal(schema, Partly(schema, m, i), Marshal(schema[i..], m[i..])) == Ok(m)
    decreases schema, |schema| - i
  {
    if i == |schema| {
      assert Partly(schema, m, i) == m;
    } else {
      MarshalStep(schema, m, i);
      PartlyNext(schema, m, i);
      FindsTag(schema, i);
      hide TypedAll, Marshal, GoodSchema, Unmarshal, DecodeField, Partly, GoodKind, Zero, Encode;
      var acc, d, v := Partly(schema, m, i), schema[i], m[i];
      var rest := Marshal(schema[i + 1..], m[i + 1..]);
      FieldsCome(schema, m, i + 1);
      if v == Zero(d.kind) {
        assert acc[i := v] == acc;
        assert [] + rest == rest;
      } else {
        FieldComes(d, v, rest);
        FieldStep(schema, acc, i, v, rest);
      }
    }
  }

  lemma {:induction false} FieldComes(d: FieldDef, v: Value, rest: seq<byte>)
    requires GoodKind(d.kind) && TypedField(d, v) && v != Zero(d.kind)
    requires |EncodeField(d, v)| < 0x8000_0000_0000_0000
    ensures DecodeField(d.kind, Zero(d.kind), EncodeValue(d.kind, v) + rest) == Done(v, rest)
    decreases d
  {
    hide EncodeValue, DecodeField;
    ValueComes(d.kind, v, rest);
  }

  /** Unmarshal(Marshal(m)) is m, for every schema and every message of it: negative enums,
      empty strings, absent and present-but-empty embedded messages included. */
  lemma {:induction false} RoundTrip(schema: Schema, m: seq<Value>)
    requires GoodSchema(schema) && TypedAll(schema, m)
    requires |Marshal(schema, m)| < 0x8000_0000_0000_0000
    ensures Unmarshal(schema, Zeros(schema), Marshal(schema, m)) == Ok(m)
    decreases schema, |schema| + 1
  {
    TypedLength(schema, m);
    hide TypedAll, Marshal, GoodSchema, Unmarshal;
    assert schema[0..] == schema && m[0..] == m;
    assert Partly(schema, m, 0) == Zeros(schema);
    FieldsCome(schema, m, 0);
  }

  // ----- the service's messages -----

  datatype Device = Device(id: seq<byte>, kind: int, userId: seq<byte>, status: int)

  datatype Event = Event(timestamp: int, device: Option<Device>)

  predicate GoodDevice(d: Device) {
    -0x8000_0000 <= d.kind < 0x8000_0000 && -0x8000_0000 <= d.status < 0x8000_0000
  }

  predicate GoodEvent(e: Event) {
    -0x8000_0000_0000_0000 <= e.timestamp < 0x8000_0000_0000_0000 && (e.device.Some? ==> GoodDevice(e.device.value))
  }

  function DeviceMessage(d: Device): seq<Value> {
    [Chars(d.id), Num(d.kind), Chars(d.userId), Num(d.status)]
  }

  function EventMessage(e: Event): seq<Value> {
    [Num(e.timestamp), Sub(if e.device.None? then None else Some(DeviceMessage(e.device.value)))]
  }

  /** One more field in front. */
  lemma TypedMore(d: FieldDef, v: Value, schema: Schema, m: seq<Value>)
    requires GoodField(d) && TypedField(d, v)
    requires GoodSchema(schema) && TypedAll(schema, m) && (schema != [] ==> d.tag < schema[0].tag)
    ensures GoodSchema([d] + schema) && TypedAll([d] + schema, [v] + m)
  {
    assert ([d] + schema)[1..] == schema && ([v] + m)[1..] == m;
  }

  lemma DeviceTyped(d: Device)
    requires GoodDevice(d)
    ensures GoodSchema(DEVICE_SCHEMA) && TypedAll(DEVICE_SCHEMA, DeviceMessage(d))
  {
    var s, m := DEVICE_SCHEMA, DeviceMessage(d);
    TypedMore(s[3], m[3], [], []);
    assert [s[3]] + [] == [s[3]] && [m[3]] + [] == [m[3]];
    TypedMore(s[2], m[2], [s[3]], [m[3]]);
    assert [s[2]] + [s[3]] == [s[2], s[3]] && [m[2]] + [m[3]] == [m[2], m[3]];
    TypedMore(s[1], m[1], [s[2], s[3]], [m[2], m[3]]);
    TypedMore(s[0], m[0], [s[1]] + [s[2], s[3]], [m[1]] + [m[2], m[3]]);
    assert s == [s[0]] + ([s[1]] + [s[2], s[3]]) && m == [m[0]] + ([m[1]] + [m[2], m[3]]);
  }

  lemma EventTyped(e: Event)
    requires GoodEvent(e)
    ensures GoodSchema(EVENT_SCHEMA) && TypedAll(EVENT_SCHEMA, EventMessage(e))
  {
    DeviceTyped(if e.device.Some? then e.device.value else Device([], 0, [], 0));
    var s, m := EVENT_SCHEMA, EventMessage(e);
    hide DeviceMessage, GoodDevice;
    assert s[1].kind == Embedded(DEVICE_SCHEMA);
    TypedMore(s[1], m[1], [], []);
    TypedMore(s[0], m[0], [s[1]] + [], [m[1]] + []);
    assert s == [s[0]] + ([s[1]] + []) && m == [m[0]] + ([m[1]] + []);
  }

  function MarshalEvent(e: Event): seq<byte>
    requires GoodEvent(e)
  {
    EventTyped(e);
    Marshal(EVENT_SCHEMA, EventMessage(e))
  }

  /** Every event comes back, timestamps and enum values of any sign, with no device, an empty
      one or a full one. (A Go slice is always shorter than 2^63 bytes.) */
  lemma EventRoundTrip(e: Event)
    requires GoodEvent(e) && |MarshalEvent(e)| < 0x8000_0000_0000_0000
    ensures Unmarshal(EVENT_SCHEMA, Zeros(EVENT_SCHEMA), MarshalEvent(e)) == Ok(EventMessage(e))
  {
    EventTyped(e);
    hide GoodSchema, TypedAll, Marshal, Unmarshal, EventMessage;
    RoundTrip(EVENT_SCHEMA, EventMessage(e));
  }

  /** The message determines the event. */
  lemma EventMessageInjective(a: Event, b: Event)
    requires EventMessage(a) == EventMessage(b)
    ensures a == b
  {
    assert EventMessage(a)[0] == EventMessage(b)[0] && EventMessage(a)[1] == EventMessage(b)[1];
    if a.device.Some? && b.device.Some? {
      var c, d := a.device.value, b.device.value;
      var x, y := DeviceMessage(c), DeviceMessage(d);
      assert x == y && x[0] == y[0] && x[1] == y[1] && x[2] == y[2] && x[3] == y[3];
    }
  }

  // ----- which field travels under which key -----

  /** A number as it is written: negative ones with 64 bits. */
  function Unsigned(n: int): nat
    requires -0x8000_0000_0000_0000 <= n < 0x8000_0000_0000_0000
  {
    if n < 0 then n + 0x1_0000_0000_0000_0000 else n
  }

  /** The bytes of a device: its id under key 0a (tag 1, with a length), its kind under 10
      (tag 2, a varint), the user's id under 1a (tag 3, with a length) and its status under 20
      (tag 4, a varint); what is empty or zero is left out. */
  function WireDevice(d: Device): seq<byte>
    requires GoodDevice(d)
  {
    (if d.id == [] then [] else [0x0a] + Encode(|d.id|) + d.id)
    + (if d.kind == 0 then [] else [0x10] + Encode(Unsigned(d.kind)))
    + (if d.userId == [] then [] else [0x1a] + Encode(|d.userId|) + d.userId)
    + (if d.status == 0 then [] else [0x20] + Encode(Unsigned(d.status)))
  }

  /** The bytes of an event: its timestamp under key 08 (tag 1, a varint) and, when there is
      one, its device under 12 (tag 2, with a length), even if that is empty. */
  function WireEvent(e: Event): seq<byte>
    requires GoodEvent(e)
  {
    (if e.timestamp == 0 then [] else [0x08] + Encode(Unsigned(e.timestamp)))
    + match e.device
      case None => []
      case Some(d) => [0x12] + Encode(|WireDevice(d)|) + WireDevice(d)
  }

  lemma ExtendedIs(n: int)
    requires -0x8000_0000_0000_0000 <= n < 0x8000_0000_0000_0000
    ensures Extended(n) == Unsigned(n)
  {
  }

  lemma MarshalMore(d: FieldDef, v: Value, schema: Schema, m: seq<Value>)
    requires TypedAll([d] + schema, [v] + m)
    ensures TypedField(d, v) && TypedAll(schema, m)
    ensures Marshal([d] + schema, [v] + m) == EncodeField(d, v) + Marshal(schema, m)
  {
    hide EncodeField, TypedField;
    assert ([d] + schema)[1..] == schema && ([v] + m)[1..] == m;
  }

  lemma KeyByte(d: FieldDef)
    requires 8 * d.tag + WireType(d.kind) < 128
    ensures TagCode(d) == [8 * d.tag + WireType(d.kind)]
  {
  }

  lemma NumberField(d: FieldDef, n: int)
    requires d.kind.Int32? || d.kind.Int64?
    requires TypedField(d, Num(n)) && -0x8000_0000_0000_0000 <= n < 0x8000_0000_0000_0000 && 8 * d.tag < 128
    ensures EncodeField(d, Num(n)) == if n == 0 then [] else [8 * d.tag] + Encode(Unsigned(n))
  {
    ExtendedIs(n);
    KeyByte(d);
    hide Encode, TagCode;
  }

  lemma TextField(d: FieldDef, s: seq<byte>)
    requires d.kind.Text? && 8 * d.tag + 2 < 128 && TypedField(d, Chars(s))
    ensures EncodeField(d, Chars(s)) == if s == [] then [] else [8 * d.tag + 2] + Encode(|s|) + s
  {
    KeyByte(d);
    hide Encode, TagCode;
    Joined([8 * d.tag + 2], Encode(|s|), s);
  }

  lemma FourJoined(a: seq<byte>, b: seq<byte>, c: seq<byte>, d: seq<byte>)
    ensures a + (b + (c + (d + []))) == a + b + c + d
  {
  }

  /** The fields of a message of four, one after the other. */
  lemma FourFields(s: Schema, m: seq<Value>)
    requires |s| == |m| == 4 && TypedAll(s, m)
    ensures forall i :: 0 <= i < 4 ==> TypedField(s[i], m[i])
    ensures Marshal(s, m)
            == EncodeField(s[0], m[0]) + EncodeField(s[1], m[1]) + EncodeField(s[2], m[2]) + EncodeField(s[3], m[3])
  {
    assert s == [s[0]] + s[1..] && m == [m[0]] + m[1..];
    assert s[1..] == [s[1]] + s[2..] && m[1..] == [m[1]] + m[2..];
    assert s[2..] == [s[2]] + s[3..] && m[2..] == [m[2]] + m[3..];
    assert s[3..] == [s[3]] + [] && m[3..] == [m[3]] + [];
    assert Marshal([], []) == [];
    hide TypedAll, TypedField, EncodeField, Marshal;
    MarshalMore(s[0], m[0], s[1..], m[1..]);
    MarshalMore(s[1], m[1], s[2..], m[2..]);
    MarshalMore(s[2], m[2], s[3..], m[3..]);
    MarshalMore(s[3], m[3], [], []);
    FourJoined(EncodeField(s[0], m[0]), EncodeField(s[1], m[1]), EncodeField(s[2], m[2]), EncodeField(s[3], m[3]));
  }

  /** The id travels under tag 1, the kind under 2, the user's id under 3, the status under 4. */
  lemma DeviceBytes(d: Device)
    requires GoodDevice(d)
    ensures TypedAll(DEVICE_SCHEMA, DeviceMessage(d))
    ensures Marshal(DEVICE_SCHEMA, DeviceMessage(d)) == WireDevice(d)
  {
    DeviceTyped(d);
    var id, kind, user, status := FieldDef(1, Text), FieldDef(2, Int32), FieldDef(3, Text), FieldDef(4, Int32);
    assert DEVICE_SCHEMA == [id, kind, user, status];
    assert DeviceMessage(d) == [Chars(d.id), Num(d.kind), Chars(d.userId), Num(d.status)];
    hide GoodSchema, TypedAll, TypedField, EncodeField, Encode, Marshal, DeviceMessage;
    FourFields(DEVICE_SCHEMA, DeviceMessage(d));
    TextField(id, d.id);
    NumberField(kind, d.kind);
    TextField(user, d.userId);
    NumberField(status, d.status);
  }

  lemma DeviceField(f: FieldDef, d: Device)
    requires GoodDevice(d) && f == FieldDef(2, Embedded(DEVICE_SCHEMA))
    requires TypedField(f, Sub(Some(DeviceMessage(d))))
    ensures EncodeField(f, Sub(Some(DeviceMessage(d)))) == [0x12] + Encode(|WireDevice(d)|) + WireDevice(d)
  {
    DeviceBytes(d);
    KeyByte(f);
    hide Encode, TagCode, WireDevice, DeviceMessage;
    Joined([0x12], Encode(|WireDevice(d)|), WireDevice(d));
  }

  /** The timestamp travels under tag 1 and the device under 2. */
  lemma EventBytes(e: Event)
    requires GoodEvent(e)
    ensures MarshalEvent(e) == WireEvent(e)
  {
    EventTyped(e);
    var s, m := EVENT_SCHEMA, EventMessage(e);
    assert s[0] == FieldDef(1, Int64) && s[1] == FieldDef(2, Embedded(DEVICE_SCHEMA)) && m[0] == Num(e.timestamp);
    assert s == [s[0]] + s[1..] && m == [m[0]] + m[1..];
    assert s[1..] == [s[1]] + [] && m[1..] == [m[1]] + [];
    assert Marshal([], []) == [];
    hide TypedAll, TypedField, Encode, Marshal, WireDevice, DeviceMessage;
    MarshalMore(s[0], m[0], s[1..], m[1..]);
    MarshalMore(s[1], m[1], [], []);
    if e.device.Some? { DeviceField(s[1], e.device.value); }
    NumberField(s[0], e.timestamp);
  }

  lemma MinusOneBytes()
    ensures Encode(0xffff_ffff_ffff_ffff) == [0xff, 0xff, 0xff, 0xff, 0xff, 0xff, 0xff, 0xff, 0xff, 0x01]
  {
    assert Encode(0xff_ffff_ffff_ffff) == [0xff, 0xff, 0xff, 0xff, 0xff, 0xff, 0xff, 0x7f] by {
      assert Encode(0x7ff_ffff_ffff) == [0xff, 0xff, 0xff, 0xff, 0xff, 0xff, 0x01];
    }
  }

  const SOME_DEVICE := Device([0x64], 1, [0x75], -1)

  const SOME_DEVICE_BYTES: seq<byte> :=
    [0x0a, 0x01, 0x64, 0x10, 0x01, 0x1a, 0x01, 0x75, 0x20, 0xff, 0xff, 0xff, 0xff, 0xff, 0xff, 0xff, 0xff, 0xff, 0x01]

  lemma DeviceExample()
    ensures GoodDevice(SOME_DEVICE) && WireDevice(SOME_DEVICE) == SOME_DEVICE_BYTES
  {
    MinusOneBytes();
    assert Encode(1) == [0x01];
    hide Encode;
  }

  /** An event with every field set, a negative status among them. */
  lemma EventExample()
    ensures var e := Event(300, Some(SOME_DEVICE));
            GoodEvent(e) && MarshalEvent(e) == [0x08, 0xac, 0x02, 0x12, 0x13] + SOME_DEVICE_BYTES
  {
    DeviceExample();
    hide WireDevice, MarshalEvent;
    EventBytes(Event(300, Some(SOME_DEVICE)));
    assert Encode(300) == [0xac, 0x02] && Encode(19) == [0x13];
  }
}
