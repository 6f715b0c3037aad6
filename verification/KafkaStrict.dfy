/** What the decoder of message sets accepts: nothing but the layout, with the right lengths and
    checksums, whoever wrote it. */
module KafkaStrict {
  import opened Wrappers
  import opened Base128
  import opened BigEndian
  import opened KafkaWire
  import opened KafkaMessage
  import opened KafkaPrefix

  lemma {:induction false} BigIs(b: seq<byte>)
    ensures Big(FromBig(b), |b|) == b
  {
    if b != [] {
      var a, x := b[..|b| - 1], b[|b| - 1];
      BigIs(a);
      assert FromBig(b) / 256 == FromBig(a) && FromBig(b) % 256 == x as int;
      assert a + [x] == b;
    }
  }

  lemma SignedIs(b: seq<byte>)
    requires b != []
    ensures SignedBig(FromSignedBig(b), |b|) == b
  {
    Top(b);
    BigIs(b);
    var p, u: int := Pow2(8 * |b|), FromBig(b);
    hide Pow2, Big, FromBig;
    if b[0] >= 128 {
      Residue(u - p, p);
    } else {
      Residue(u, p);
    }
  }

  lemma IntWas(p: seq<byte>, n: nat)
    requires n in {1, 2, 4, 8} && GetInt(p, n).Done?
    ensures p == SignedBig(GetInt(p, n).value, n) + GetInt(p, n).rest
  {
    SignedIs(p[..n]);
    hide SignedBig, FromSignedBig;
    assert p == p[..n] + p[n..];
  }

  lemma BytesWere(p: seq<byte>)
    requires GetBytes(p).Done?
    ensures p == OptBytes(GetBytes(p).value) + GetBytes(p).rest
  {
    IntWas(p, 4);
    var n, rest := GetInt(p, 4).value, GetInt(p, 4).rest;
    hide GetInt, SignedBig;
    if n > 0 {
      assert rest == rest[..n] + rest[n..];
    } else if n == 0 {
      assert SignedBig(0, 4) + [] == SignedBig(0, 4);
    }
  }

  /** The layout of a message's content, with the attribute byte that it came with. */
  function Content(a: int8, m: Msg): seq<byte> {
    SignedBig(0, 1) + (SignedBig(a, 1) + (OptBytes(m.key) + OptBytes(m.value)))
  }

  lemma PairWas(attribute: int, p: seq<byte>)
    requires GetPair(attribute, p).Done?
    ensures var r := GetPair(attribute, p);
            attribute % 4 == 0 && r.value.codec == 0
            && p == (OptBytes(r.value.key) + OptBytes(r.value.value)) + r.rest
  {
    BytesWere(p);
    var p1 := GetBytes(p).rest;
    BytesWere(p1);
    hide GetBytes, OptBytes;
    var r := GetPair(attribute, p);
    Joined(OptBytes(r.value.key), OptBytes(r.value.value), r.rest);
  }

  lemma ContentWas(p: seq<byte>) returns (a: int8)
    requires GetContent(p).Done?
    ensures var r := GetContent(p); a % 4 == 0 && r.value.codec == 0 && p == Content(a, r.value) + r.rest
  {
    Powers();
    IntWas(p, 1);
    var p1 := GetInt(p, 1).rest;
    IntWas(p1, 1);
    a := GetInt(p1, 1).value;
    var p2 := GetInt(p1, 1).rest;
    PairWas(a, p2);
    var r := GetPair(a, p2);
    hide GetInt, GetPair, OptBytes, SignedBig, Pow2;
    var pair := OptBytes(r.value.key) + OptBytes(r.value.value);
    Joined(SignedBig(a, 1), pair, r.rest);
    Joined(SignedBig(0, 1), SignedBig(a, 1) + pair, r.rest);
  }

  /** A field in front of a body: its value was checked. */
  lemma FieldWas<T>(crc: Checksum, isCrc: bool, p: seq<byte>, inner: Parse<T>, body: seq<byte>)
    requires |p| >= 4 && inner.Done? && p[4..] == body + inner.rest && GetField(crc, isCrc, p, inner).Done?
    ensures p == FieldBytes(crc, isCrc, body) + inner.rest
  {
    assert p[4..|p| - |inner.rest|] == body;
    BigIs(p[..4]);
    hide Big, FromBig, FieldValue;
    assert p == p[..4] + p[4..];
    Joined(p[..4], body, inner.rest);
  }

  /** The bytes of a block as they may arrive: the upper bits of the attribute byte are free. */
  function Laid(crc: Checksum, b: Block, a: int8): (r: seq<byte>)
    ensures r != []
  {
    SignedBig(b.offset, 8) + FieldBytes(crc, false, FieldBytes(crc, true, Content(a, b.msg)))
  }

  lemma MessageWas(crc: Checksum, p: seq<byte>) returns (a: int8)
    requires GetMessage(crc, p).Done?
    ensures var r := GetMessage(crc, p);
            a % 4 == 0 && r.value.codec == 0 && p == FieldBytes(crc, true, Content(a, r.value)) + r.rest
  {
    a := ContentWas(p[4..]);
    var r := GetContent(p[4..]);
    FieldWas(crc, true, p, r, Content(a, r.value));
    hide GetContent, FieldBytes, Content;
  }

  lemma SizedWas(crc: Checksum, p: seq<byte>) returns (a: int8)
    requires GetSized(crc, p).Done?
    ensures var r := GetSized(crc, p);
            && a % 4 == 0 && r.value.codec == 0
            && p == FieldBytes(crc, false, FieldBytes(crc, true, Content(a, r.value))) + r.rest
  {
    a := MessageWas(crc, p[4..]);
    var r := GetMessage(crc, p[4..]);
    hide GetMessage, FieldBytes, Content;
    FieldWas(crc, false, p, r, FieldBytes(crc, true, Content(a, r.value)));
  }

  /** A block is accepted only if it is laid out as blocks are: its length and its checksum are
      those of what they stand for, and every byte of it is accounted for. */
  lemma BlockWas(crc: Checksum, p: seq<byte>) returns (a: int8)
    requires GetBlock(crc, p).Done?
    ensures var r := GetBlock(crc, p); a % 4 == 0 && r.value.msg.codec == 0 && p == Laid(crc, r.value, a) + r.rest
  {
    IntWas(p, 8);
    var p1 := GetInt(p, 8).rest;
    a := SizedWas(crc, p1);
    var r := GetBlock(crc, p);
    hide GetInt, GetSized, FieldBytes, Content, SignedBig;
    var sized := FieldBytes(crc, false, FieldBytes(crc, true, Content(a, r.value.msg)));
    Joined(SignedBig(r.value.offset, 8), sized, r.rest);
  }

  function LaidAll(crc: Checksum, blocks: seq<Block>, attributes: seq<int8>): seq<byte>
    requires |attributes| == |blocks|
  {
    if blocks == [] then [] else Laid(crc, blocks[0], attributes[0]) + LaidAll(crc, blocks[1..], attributes[1..])
  }

  lemma LaidNext(crc: Checksum, b: Block, a: int8, blocks: seq<Block>, attributes: seq<int8>)
    requires |attributes| == |blocks|
    ensures LaidAll(crc, [b] + blocks, [a] + attributes) == Laid(crc, b, a) + LaidAll(crc, blocks, attributes)
  {
    hide Laid;
    assert ([b] + blocks)[1..] == blocks && ([a] + attributes)[1..] == attributes;
  }

  /** None of the messages is compressed. */
  predicate Codecless(blocks: seq<Block>, attributes: seq<int8>) {
    && |attributes| == |blocks|
    && forall i :: 0 <= i < |attributes| ==> attributes[i] % 4 == 0 && blocks[i].msg.codec == 0
  }

  lemma CodeclessNext(b: Block, a: int8, blocks: seq<Block>, attributes: seq<int8>)
    requires a % 4 == 0 && b.msg.codec == 0 && Codecless(blocks, attributes)
    ensures Codecless([b] + blocks, [a] + attributes)
  {
  }

  /** Whatever the bytes: the messages of a decoded set are those that stand at its front, one
      behind the other; nothing is left over unless the set failed or is partial. */
  lemma {:induction false} SetWas(crc: Checksum, p: seq<byte>) returns (attributes: seq<int8>, rest: seq<byte>)
    ensures var d := GetSet(crc, p);
            && |attributes| == |d.messages| && Codecless(d.messages, attributes)
            && p == LaidAll(crc, d.messages, attributes) + rest
            && (!d.partial && !d.failed <==> rest == [])
            && (d.partial ==> GetBlock(crc, rest) == Short) && (d.failed ==> GetBlock(crc, rest) == Bad)
    decreases |p|
  {
    if p != [] && GetBlock(crc, p).Done? {
      var a := BlockWas(crc, p);
      var r := GetBlock(crc, p);
      hide GetBlock, Laid, Codecless;
      var as', rest' := SetWas(crc, r.rest);
      attributes, rest := [a] + as', rest';
      var d := GetSet(crc, r.rest);
      CodeclessNext(r.value, a, d.messages, as');
      LaidNext(crc, r.value, a, d.messages, as');
      hide LaidAll;
      Joined(Laid(crc, r.value, a), LaidAll(crc, d.messages, as'), rest);
    } else {
      attributes, rest := [], p;
    }
  }
}
