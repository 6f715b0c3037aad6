/** Messages that no encoder writes in one go: bytes put behind other bytes merge, and fields
    that the schema does not know are passed over. */
module ProtoMerge {
  import opened Wrappers
  import opened Base128
  import opened Proto

  // ----- what is read is not changed by what follows -----

  lemma {:induction false} ScanMore(p: seq<byte>, q: seq<byte>)
    requires Scan(p).Some?
    ensures Scan(p + q) == Scan(p)
  {
    if p[0] >= 128 {
      assert (p + q)[1..] == p[1..] + q;
      ScanMore(p[1..], q);
    }
  }

  lemma Behind(p: seq<byte>, q: seq<byte>, n: nat)
    requires n <= |p|
    ensures (p + q)[n..] == p[n..] + q && (p + q)[..n] == p[..n]
  {
  }

  lemma VarintMore(p: seq<byte>, q: seq<byte>)
    requires ReadVarint(p).Done?
    ensures ReadVarint(p + q) == Done(ReadVarint(p).value, ReadVarint(p).rest + q)
  {
    ScanMore(p, q);
    Behind(p, q, Scan(p).value.1);
    hide Scan;
  }

  lemma RawMore(p: seq<byte>, q: seq<byte>)
    requires ReadRaw(p).Done?
    ensures ReadRaw(p + q) == Done(ReadRaw(p).value, ReadRaw(p).rest + q)
  {
    VarintMore(p, q);
    var n, rest := ReadVarint(p).value, ReadVarint(p).rest;
    Behind(rest, q, n);
    hide ReadVarint;
  }

  lemma {:induction false} SkipMore(wire: nat, p: seq<byte>, q: seq<byte>)
    requires Skip(wire, p).Done?
    ensures Skip(wire, p + q) == Done((), Skip(wire, p).rest + q)
    decreases |p|, 1
  {
    if wire == VARINT_TYPE {
      VarintMore(p, q);
    } else if wire == BYTES_TYPE {
      RawMore(p, q);
    } else if wire == START_GROUP_TYPE {
      GroupMore(p, q);
    } else {
      Behind(p, q, if wire == 1 then 8 else 4);
    }
  }

  lemma {:induction false} GroupMore(p: seq<byte>, q: seq<byte>)
    requires SkipGroup(p).Done?
    ensures SkipGroup(p + q) == Done((), SkipGroup(p).rest + q)
    decreases |p|, 0
  {
    VarintMore(p, q);
    var u, rest := ReadVarint(p).value, ReadVarint(p).rest;
    hide ReadVarint;
    if u % 8 != END_GROUP_TYPE {
      SkipMore(u % 8, rest, q);
      GroupMore(Skip(u % 8, rest).rest, q);
    }
  }

  lemma FieldMore(k: Kind, v: Value, p: seq<byte>, q: seq<byte>)
    requires DecodeField(k, v, p).Done?
    ensures DecodeField(k, v, p + q) == Done(DecodeField(k, v, p).value, DecodeField(k, v, p).rest + q)
  {
    hide Unmarshal;
    if k.Int32? || k.Int64? {
      VarintMore(p, q);
    } else {
      RawMore(p, q);
    }
  }

  // ----- bytes behind bytes -----

  /** Decoding one message behind another into the same structure is decoding both in turn:
      bytes that are put together merge, wherever they come from. */
  lemma {:induction false} Concatenated(schema: Schema, m: seq<Value>, a: seq<byte>, b: seq<byte>)
    requires |m| == |schema| && Unmarshal(schema, m, a).Ok?
    ensures Unmarshal(schema, m, a + b) == Unmarshal(schema, Unmarshal(schema, m, a).value, b)
    decreases |a|
  {
    if a == [] {
      assert a + b == b;
    } else {
      VarintMore(a, b);
      var u, rest := ReadVarint(a).value, ReadVarint(a).rest;
      hide ReadVarint, DecodeField, Skip, Find;
      match Find(schema, u / 8)
      case None =>
        SkipMore(u % 8, rest, b);
        Concatenated(schema, m, Skip(u % 8, rest).rest, b);
      case Some(i) =>
        FieldMore(schema[i].kind, m[i], rest, b);
        var r := DecodeField(schema[i].kind, m[i], rest);
        Concatenated(schema, m[i := r.value], r.rest, b);
    }
  }

  /** A number or a string that comes again replaces what was there. */
  lemma LaterWins(schema: Schema, m: seq<Value>, i: nat, v: Value, rest: seq<byte>)
    requires GoodSchema(schema) && i < |schema| == |m| && !schema[i].kind.Embedded?
    requires TypedField(schema[i], v) && v != Zero(schema[i].kind)
    requires |EncodeField(schema[i], v)| < 0x8000_0000_0000_0000
    ensures Unmarshal(schema, m, EncodeField(schema[i], v) + rest) == Unmarshal(schema, m[i := v], rest)
  {
    var d := schema[i];
    FindsTag(schema, i);
    FieldComes(d, v, rest);
    OldDoesNotMatter(d.kind, m[i], EncodeValue(d.kind, v) + rest);
    Known(schema, m, i, EncodeValue(d.kind, v), rest, v);
    hide Unmarshal, DecodeField, EncodeValue, GoodSchema, Typed, TagCode;
    assert EncodeField(d, v) == TagCode(d) + EncodeValue(d.kind, v);
  }

  lemma OldDoesNotMatter(k: Kind, v: Value, p: seq<byte>)
    requires !k.Embedded?
    ensures DecodeField(k, v, p) == DecodeField(k, Zero(k), p)
  {
    hide ReadVarint, ReadRaw;
  }

  /** One field that the schema knows. */
  lemma Known(schema: Schema, m: seq<Value>, i: nat, body: seq<byte>, rest: seq<byte>, v: Value)
    requires i < |schema| == |m| && 1 <= schema[i].tag < 0x2000_0000 && Find(schema, schema[i].tag) == Some(i)
    requires DecodeField(schema[i].kind, m[i], body + rest) == Done(v, rest)
    ensures Unmarshal(schema, m, TagCode(schema[i]) + body + rest) == Unmarshal(schema, m[i := v], rest)
  {
    var d := schema[i];
    VarintComes(8 * d.tag + WireType(d.kind), body + rest);
    Joined(TagCode(d), body, rest);
    hide DecodeField, ReadVarint, Encode, Find, Unmarshal;
    Round(schema, m, TagCode(d) + body + rest, i, body + rest, v, rest);
  }

  /** An embedded message that comes again is decoded into the one that is there. */
  lemma EmbeddedMerges(schema: Schema, m: seq<Value>, i: nat, before: seq<Value>, raw: seq<byte>, rest: seq<byte>)
    requires GoodSchema(schema) && i < |schema| == |m| && schema[i].kind.Embedded?
    requires |before| == |schema[i].kind.fields| && m[i] == Sub(Some(before))
    requires |raw| < 0x8000_0000_0000_0000 && Unmarshal(schema[i].kind.fields, before, raw).Ok?
    ensures Unmarshal(schema, m, TagCode(schema[i]) + (Encode(|raw|) + raw) + rest)
            == Unmarshal(schema, m[i := Sub(Some(Unmarshal(schema[i].kind.fields, before, raw).value))], rest)
  {
    var d := schema[i];
    FindsTag(schema, i);
    RawComes(raw, rest);
    var v := Sub(Some(Unmarshal(d.kind.fields, before, raw).value));
    assert DecodeField(d.kind, m[i], Prefixed(raw) + rest) == Done(v, rest);
    hide Unmarshal, DecodeField, GoodSchema, TagCode;
    Known(schema, m, i, Prefixed(raw), rest, v);
  }

  // ----- fields of other versions -----

  /** What may follow a key, by its wire type: a varint, eight bytes, counted bytes, four. */
  ghost predicate BodyOf(wire: nat, body: seq<byte>) {
    || (wire == 0 && exists x: nat :: x < 0x1_0000_0000_0000_0000 && body == Encode(x))
    || (wire == 1 && |body| == 8)
    || (wire == 2 && exists b: seq<byte> :: |b| < 0x8000_0000_0000_0000 && body == Encode(|b|) + b)
    || (wire == 5 && |body| == 4)
  }

  lemma BodySkipped(wire: nat, body: seq<byte>)
    requires BodyOf(wire, body)
    ensures Skip(wire, body) == Done((), [])
  {
    if wire == 0 {
      var x: nat :| x < 0x1_0000_0000_0000_0000 && body == Encode(x);
      VarintComes(x, []);
      assert body + [] == body;
    } else if wire == 2 {
      var b: seq<byte> :| |b| < 0x8000_0000_0000_0000 && body == Encode(|b|) + b;
      RawComes(b, []);
      assert Prefixed(b) + [] == body;
    }
  }

  lemma UnknownAlone(schema: Schema, m: seq<Value>, tag: nat, wire: nat, body: seq<byte>)
    requires |m| == |schema| && 0 < tag < 0x2000_0000 && Find(schema, tag).None? && BodyOf(wire, body)
    ensures Unmarshal(schema, m, Encode(8 * tag + wire) + body) == Ok(m)
  {
    BodySkipped(wire, body);
    assert wire < 8 && wire != END_GROUP_TYPE;
    VarintComes(8 * tag + wire, body);
    hide Encode, ReadVarint, Skip, Find, BodyOf;
    assert (8 * tag + wire) / 8 == tag && (8 * tag + wire) % 8 == wire;
    assert Unmarshal(schema, m, []) == Ok(m);
  }

  /** A field with a tag that the schema does not know changes nothing, in front of whatever
      follows: a reader of an older version reads what a newer one writes. */
  lemma UnknownIgnored(schema: Schema, m: seq<Value>, tag: nat, wire: nat, body: seq<byte>, rest: seq<byte>)
    requires |m| == |schema| && 0 < tag < 0x2000_0000 && BodyOf(wire, body)
    requires forall d :: d in schema ==> d.tag != tag
    ensures Unmarshal(schema, m, Encode(8 * tag + wire) + body + rest) == Unmarshal(schema, m, rest)
  {
    NotFound(schema, tag);
    UnknownAlone(schema, m, tag, wire, body);
    hide Encode, Unmarshal, BodyOf;
    Concatenated(schema, m, Encode(8 * tag + wire) + body, rest);
  }

  lemma {:induction false} NotFound(schema: Schema, tag: nat)
    requires forall d :: d in schema ==> d.tag != tag
    ensures Find(schema, tag).None?
  {
    if schema != [] {
      assert schema[0] in schema;
      NotFound(schema[1..], tag);
    }
  }
}
