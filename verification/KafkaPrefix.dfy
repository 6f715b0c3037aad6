/** Decoding a message set that may have been cut anywhere: exactly the messages that are
    wholly there come back, and the partial flag says whether the cut was inside one. */
module KafkaPrefix {
  import opened Wrappers
  import opened Base128
  import opened BigEndian
  import opened KafkaWire
  import opened KafkaMessage

  function OptBytes(o: Option<seq<byte>>): (b: seq<byte>)
    ensures |b| >= 4
  {
    match o
    case None => SignedBig(-1, 4)
    case Some(s) => SignedBig(|s|, 4) + s
  }

  function ContentBytes(m: Msg): seq<byte> {
    SignedBig(0, 1) + (SignedBig(m.codec % 4, 1) + (OptBytes(m.key) + OptBytes(m.value)))
  }

  function FieldBytes(crc: Checksum, isCrc: bool, body: seq<byte>): (b: seq<byte>)
    ensures |b| == 4 + |body| && b[4..] == body
  {
    Big(FieldValue(crc, isCrc, body), 4) + body
  }

  function BlockBytes(crc: Checksum, b: Block): (r: seq<byte>)
    ensures |r| > 0
  {
    SignedBig(b.offset, 8) + FieldBytes(crc, false, FieldBytes(crc, true, ContentBytes(b.msg)))
  }

  function SetBytes(crc: Checksum, blocks: seq<Block>): seq<byte> {
    if blocks == [] then [] else BlockBytes(crc, blocks[0]) + SetBytes(crc, blocks[1..])
  }

  // ----- these are the bytes that the encoder writes -----

  lemma {:induction false} RenderJoin(crc: Checksum, a: seq<Node>, b: seq<Node>)
    ensures RenderAll(crc, a + b) == RenderAll(crc, a) + RenderAll(crc, b)
  {
    if a == [] {
      assert a + b == b;
    } else {
      assert (a + b)[1..] == a[1..] + b;
      RenderJoin(crc, a[1..], b);
    }
  }

  lemma RenderOne(crc: Checksum, node: Node)
    ensures RenderAll(crc, [node]) == Render(crc, node)
  {
    hide Render;
    assert [node][1..] == [];
  }

  lemma MessageRenders(crc: Checksum, m: Msg)
    ensures Render(crc, MsgNode(m)) == FieldBytes(crc, true, ContentBytes(m))
  {
    var a, b, c, d := Int8(0), Int8(m.codec % 4), Bytes(m.key), Bytes(m.value);
    assert [a, b, c, d] == [a] + ([b] + ([c] + [d]));
    RenderJoin(crc, [a], [b] + ([c] + [d]));
    RenderJoin(crc, [b], [c] + [d]);
    RenderJoin(crc, [c], [d]);
    RenderOne(crc, a);
    RenderOne(crc, b);
    RenderOne(crc, c);
    RenderOne(crc, d);
    assert Render(crc, c) == OptBytes(m.key) && Render(crc, d) == OptBytes(m.value);
    hide FieldValue, Big;
  }

  lemma BlockRenders(crc: Checksum, b: Block)
    ensures RenderAll(crc, BlockNodes(b.offset, MsgNode(b.msg))) == BlockBytes(crc, b)
  {
    var m := MsgNode(b.msg);
    var x, y := Int64(b.offset), Length([m]);
    assert [x, y] == [x] + [y];
    RenderJoin(crc, [x], [y]);
    RenderOne(crc, x);
    RenderOne(crc, y);
    RenderOne(crc, m);
    MessageRenders(crc, b.msg);
    hide FieldValue, Big, MsgNode, ContentBytes;
  }

  lemma {:induction false} SetRenders(crc: Checksum, blocks: seq<Block>)
    ensures RenderAll(crc, SetNodes(blocks)) == SetBytes(crc, blocks)
  {
    if blocks != [] {
      RenderJoin(crc, BlockNodes(blocks[0].offset, MsgNode(blocks[0].msg)), SetNodes(blocks[1..]));
      BlockRenders(crc, blocks[0]);
      hide BlockBytes, BlockNodes;
      SetRenders(crc, blocks[1..]);
    }
  }

  // ----- items come back whole, and are short when cut -----

  /** A message that the producer may send: not compressed, key and value within the bounds
      of the sizing pass. */
  predicate Plain(m: Msg) {
    m.codec == 0 && !TooLong(Bytes(m.key)) && !TooLong(Bytes(m.value))
  }

  lemma CutJoin(a: seq<byte>, b: seq<byte>, k: nat)
    requires k <= |a| + |b|
    ensures (a + b)[..k] == if k < |a| then a[..k] else a + b[..k - |a|]
  {
  }

  lemma IntComes(v: int, n: nat, rest: seq<byte>)
    requires n in {1, 2, 4, 8} && Fits(v, n)
    ensures GetInt(SignedBig(v, n) + rest, n) == Done(v, rest)
  {
    SignedBack(v, n);
    var e := SignedBig(v, n);
    assert (e + rest)[..n] == e && (e + rest)[n..] == rest;
    hide FromSignedBig, SignedBig;
  }

  lemma SmallFits()
    ensures Fits(0, 1) && Fits(-1, 4)
    ensures forall v :: 0 <= v <= MAX_INT32 ==> Fits(v, 4)
    ensures forall v: int64 :: Fits(v, 8)
  {
    Powers();
  }

  lemma BytesCome(o: Option<seq<byte>>, rest: seq<byte>)
    requires !TooLong(Bytes(o))
    ensures GetBytes(OptBytes(o) + rest) == Done(o, rest)
  {
    SmallFits();
    hide GetInt, SignedBig, Fits;
    match o
    case None => IntComes(-1, 4, rest);
    case Some(s) =>
      var e := SignedBig(|s|, 4);
      IntComes(|s|, 4, s + rest);
      assert OptBytes(o) + rest == e + (s + rest);
      assert (s + rest)[..|s|] == s && (s + rest)[|s|..] == rest;
  }

  lemma BytesCut(o: Option<seq<byte>>, k: nat)
    requires !TooLong(Bytes(o)) && k < |OptBytes(o)|
    ensures GetBytes(OptBytes(o)[..k]) == Short
  {
    SmallFits();
    if k >= 4 {
      var s := o.value;
      var e := SignedBig(|s|, 4);
      CutJoin(e, s, k);
      IntComes(|s|, 4, s[..k - 4]);
    }
  }

  function PairBytes(m: Msg): seq<byte> {
    OptBytes(m.key) + OptBytes(m.value)
  }

  lemma PairComes(m: Msg, rest: seq<byte>)
    requires Plain(m)
    ensures GetPair(0, PairBytes(m) + rest) == Done(m, rest)
  {
    var key, value := OptBytes(m.key), OptBytes(m.value);
    hide GetBytes, OptBytes;
    BytesCome(m.key, value + rest);
    BytesCome(m.value, rest);
    Joined(key, value, rest);
  }

  lemma PairCut(m: Msg, k: nat)
    requires Plain(m) && k < |PairBytes(m)|
    ensures GetPair(0, PairBytes(m)[..k]) == Short
  {
    var key, value := OptBytes(m.key), OptBytes(m.value);
    hide GetBytes, OptBytes;
    CutJoin(key, value, k);
    if k < |key| {
      BytesCut(m.key, k);
    } else {
      BytesCome(m.key, value[..k - |key|]);
      BytesCut(m.value, k - |key|);
    }
  }

  /** The two bytes in front: the format and the attributes, both 0. */
  lemma ZerosCome(rest: seq<byte>)
    ensures GetContent(SignedBig(0, 1) + (SignedBig(0, 1) + rest)) == GetPair(0, rest)
  {
    SmallFits();
    hide GetInt, GetPair, SignedBig, Fits;
    IntComes(0, 1, SignedBig(0, 1) + rest);
    IntComes(0, 1, rest);
  }

  lemma ZerosCut(rest: seq<byte>, k: nat)
    requires k < 2
    ensures GetContent((SignedBig(0, 1) + (SignedBig(0, 1) + rest))[..k]) == Short
  {
    SmallFits();
    var zero := SignedBig(0, 1);
    CutJoin(zero, zero + rest, k);
    if k == 1 {
      hide GetPair;
      IntComes(0, 1, []);
      assert (zero + rest)[..0] == [];
    }
  }

  lemma ContentIs(m: Msg)
    requires Plain(m)
    ensures ContentBytes(m) == SignedBig(0, 1) + (SignedBig(0, 1) + PairBytes(m))
  {
  }

  lemma ContentComes(m: Msg, rest: seq<byte>)
    requires Plain(m)
    ensures GetContent(ContentBytes(m) + rest) == Done(m, rest)
  {
    ContentIs(m);
    hide GetContent, ContentBytes, GetPair, PairBytes, SignedBig;
    ZerosCome(PairBytes(m) + rest);
    PairComes(m, rest);
    var zero := SignedBig(0, 1);
    Joined(zero, zero + PairBytes(m), rest);
    Joined(zero, PairBytes(m), rest);
  }

  lemma ContentCut(m: Msg, k: nat)
    requires Plain(m) && k < |ContentBytes(m)|
    ensures GetContent(ContentBytes(m)[..k]) == Short
  {
    ContentIs(m);
    hide GetContent, ContentBytes, GetPair, PairBytes, SignedBig;
    var zero := SignedBig(0, 1);
    if k < 2 {
      ZerosCut(PairBytes(m), k);
    } else {
      CutJoin(zero, zero + PairBytes(m), k);
      CutJoin(zero, PairBytes(m), k - 1);
      ZerosCome(PairBytes(m)[..k - 2]);
      PairCut(m, k - 2);
    }
  }

  /** The check of a field succeeds on what its encoder wrote. */
  lemma FieldChecks<T>(crc: Checksum, isCrc: bool, body: seq<byte>, rest: seq<byte>, value: T)
    ensures GetField(crc, isCrc, FieldBytes(crc, isCrc, body) + rest, Done(value, rest)) == Done(value, rest)
  {
    var v := FieldValue(crc, isCrc, body);
    Powers();
    BigBack(v, 4);
    hide FieldValue, Big, FromBig;
    var p := FieldBytes(crc, isCrc, body) + rest;
    assert p[..4] == Big(v, 4);
    assert p[4..|p| - |rest|] == body;
  }

  lemma FieldSplits(crc: Checksum, isCrc: bool, body: seq<byte>, rest: seq<byte>)
    ensures (FieldBytes(crc, isCrc, body) + rest)[4..] == body + rest
  {
    hide FieldValue, Big;
  }

  lemma FieldCut(crc: Checksum, isCrc: bool, body: seq<byte>, k: nat)
    requires 4 <= k <= 4 + |body|
    ensures FieldBytes(crc, isCrc, body)[..k][4..] == body[..k - 4]
  {
    hide FieldValue, Big;
  }

  lemma MessageComes(crc: Checksum, m: Msg, rest: seq<byte>)
    requires Plain(m)
    ensures GetMessage(crc, FieldBytes(crc, true, ContentBytes(m)) + rest) == Done(m, rest)
  {
    var body := ContentBytes(m);
    hide GetContent, ContentBytes, GetField, FieldBytes;
    ContentComes(m, rest);
    FieldSplits(crc, true, body, rest);
    FieldChecks(crc, true, body, rest, m);
  }

  lemma MessageCut(crc: Checksum, m: Msg, k: nat)
    requires Plain(m) && k < |FieldBytes(crc, true, ContentBytes(m))|
    ensures GetMessage(crc, FieldBytes(crc, true, ContentBytes(m))[..k]) == Short
  {
    hide GetContent, ContentBytes, FieldBytes;
    if k >= 4 {
      FieldCut(crc, true, ContentBytes(m), k);
      ContentCut(m, k - 4);
    }
  }

  lemma SizedComes(crc: Checksum, m: Msg, rest: seq<byte>)
    requires Plain(m)
    ensures GetSized(crc, FieldBytes(crc, false, FieldBytes(crc, true, ContentBytes(m))) + rest) == Done(m, rest)
  {
    var body := FieldBytes(crc, true, ContentBytes(m));
    hide GetMessage, ContentBytes, GetField, FieldBytes;
    FieldSplits(crc, false, body, rest);
    MessageComes(crc, m, rest);
    FieldChecks(crc, false, body, rest, m);
  }

  lemma SizedCut(crc: Checksum, m: Msg, k: nat)
    requires Plain(m) && k < |FieldBytes(crc, false, FieldBytes(crc, true, ContentBytes(m)))|
    ensures GetSized(crc, FieldBytes(crc, false, FieldBytes(crc, true, ContentBytes(m)))[..k]) == Short
  {
    hide GetMessage, ContentBytes, FieldBytes;
    if k >= 4 {
      FieldCut(crc, false, FieldBytes(crc, true, ContentBytes(m)), k);
      MessageCut(crc, m, k - 4);
    }
  }

  lemma BlockComes(crc: Checksum, b: Block, rest: seq<byte>)
    requires Plain(b.msg)
    ensures GetBlock(crc, BlockBytes(crc, b) + rest) == Done(b, rest)
  {
    SmallFits();
    var offset, field := SignedBig(b.offset, 8), FieldBytes(crc, false, FieldBytes(crc, true, ContentBytes(b.msg)));
    hide GetSized, ContentBytes, FieldBytes, GetInt, SignedBig, Fits, Plain;
    Joined(offset, field, rest);
    IntComes(b.offset, 8, field + rest);
    SizedComes(crc, b.msg, rest);
  }

  lemma BlockCut(crc: Checksum, b: Block, k: nat)
    requires Plain(b.msg) && k < |BlockBytes(crc, b)|
    ensures GetBlock(crc, BlockBytes(crc, b)[..k]) == Short
  {
    SmallFits();
    var offset, field := SignedBig(b.offset, 8), FieldBytes(crc, false, FieldBytes(crc, true, ContentBytes(b.msg)));
    hide GetSized, ContentBytes, FieldBytes, SignedBig, Fits, Plain;
    CutJoin(offset, field, k);
    if k >= 8 {
      hide GetInt;
      IntComes(b.offset, 8, field[..k - 8]);
      SizedCut(crc, b.msg, k - 8);
    }
  }

  // ----- the whole set -----

  lemma NothingDecodes(crc: Checksum)
    ensures SetBytes(crc, []) == [] && GetSet(crc, []) == Decoded([], false, false)
  {
  }

  /** A cut inside the first block leaves nothing, and partial unless nothing is there at all. */
  lemma FirstCut(crc: Checksum, blocks: seq<Block>, k: nat)
    requires blocks != [] && Plain(blocks[0].msg) && k < |BlockBytes(crc, blocks[0])|
    ensures k <= |SetBytes(crc, blocks)| && GetSet(crc, SetBytes(crc, blocks)[..k]) == Decoded([], k != 0, false)
  {
    hide GetBlock, BlockBytes, Plain;
    CutJoin(BlockBytes(crc, blocks[0]), SetBytes(crc, blocks[1..]), k);
    if k > 0 { BlockCut(crc, blocks[0], k); }
  }

  /** A cut behind it leaves the first block, and what the cut leaves of the others. */
  lemma FirstComes(crc: Checksum, blocks: seq<Block>, k: nat)
    requires blocks != [] && Plain(blocks[0].msg) && |BlockBytes(crc, blocks[0])| <= k <= |SetBytes(crc, blocks)|
    ensures
      var d := GetSet(crc, SetBytes(crc, blocks[1..])[..k - |BlockBytes(crc, blocks[0])|]);
      GetSet(crc, SetBytes(crc, blocks)[..k]) == d.(messages := [blocks[0]] + d.messages)
  {
    hide GetBlock, Plain;
    var first, others := BlockBytes(crc, blocks[0]), SetBytes(crc, blocks[1..]);
    assert |first| > 0;
    hide BlockBytes;
    CutJoin(first, others, k);
    BlockComes(crc, blocks[0], others[..k - |first|]);
  }

  /** Decoding any prefix: the first n messages, those that are wholly inside it; the flag
      is set exactly if the cut is not at the end of one. Nil and empty stay apart, and with
      k at the end it is the identity. */
  lemma {:induction false} PrefixDecodes(crc: Checksum, blocks: seq<Block>, k: nat, n: nat)
    requires forall b :: b in blocks ==> Plain(b.msg)
    requires k <= |SetBytes(crc, blocks)| && n <= |blocks|
    requires |SetBytes(crc, blocks[..n])| <= k
    requires n < |blocks| ==> k < |SetBytes(crc, blocks[..n + 1])|
    ensures GetSet(crc, SetBytes(crc, blocks)[..k])
         == Decoded(blocks[..n], k != |SetBytes(crc, blocks[..n])|, false)
  {
    hide GetBlock, BlockBytes, Plain, GetSet;
    if blocks == [] {
      NothingDecodes(crc);
    } else {
      var first := BlockBytes(crc, blocks[0]);
      assert blocks[0] in blocks;
      if n == 0 {
        assert blocks[..1][1..] == [] && SetBytes(crc, blocks[..1]) == first;
        FirstCut(crc, blocks, k);
      } else {
        assert blocks[..n][1..] == blocks[1..][..n - 1];
        if n < |blocks| { assert blocks[..n + 1][1..] == blocks[1..][..n]; }
        FirstComes(crc, blocks, k);
        PrefixDecodes(crc, blocks[1..], k - |first|, n - 1);
      }
    }
  }

  /** There is always such an n. */
  lemma {:induction false} WhollyContained(crc: Checksum, blocks: seq<Block>, k: nat) returns (n: nat)
    requires k <= |SetBytes(crc, blocks)|
    ensures n <= |blocks| && |SetBytes(crc, blocks[..n])| <= k
    ensures n < |blocks| ==> k < |SetBytes(crc, blocks[..n + 1])|
  {
    hide BlockBytes;
    if blocks == [] {
      n := 0;
    } else {
      var first := BlockBytes(crc, blocks[0]);
      assert blocks[..1][1..] == [] && SetBytes(crc, blocks[..1]) == first;
      if k < |first| {
        n := 0;
      } else {
        var n' := WhollyContained(crc, blocks[1..], k - |first|);
        n := n' + 1;
        assert blocks[..n][1..] == blocks[1..][..n - 1];
        if n < |blocks| { assert blocks[..n + 1][1..] == blocks[1..][..n]; }
      }
    }
  }

  /** The whole set comes back as it was. */
  lemma SetRoundTrip(crc: Checksum, blocks: seq<Block>)
    requires forall b :: b in blocks ==> Plain(b.msg)
    ensures GetSet(crc, RenderAll(crc, SetNodes(blocks))) == Decoded(blocks, false, false)
  {
    SetRenders(crc, blocks);
    hide GetSet, SetBytes, Plain;
    var b := SetBytes(crc, blocks);
    assert b[..|b|] == b && blocks[..|blocks|] == blocks;
    PrefixDecodes(crc, blocks, |b|, |blocks|);
  }

  // ----- which bytes these are -----

  /** The low four bytes of v. */
  function Four(v: nat): seq<byte> {
    [v / 0x100_0000 % 256, v / 0x1_0000 % 256, v / 0x100 % 256, v % 256]
  }

  /** A length and the bytes, or minus one for nil. */
  function WireBytes(o: Option<seq<byte>>): seq<byte> {
    match o
    case None => [0xff, 0xff, 0xff, 0xff]
    case Some(s) => Four(|s|) + s
  }

  /** A message on the wire: its CRC, the version byte, the codec, the key and the value. */
  function WireMessage(crc: Checksum, m: Msg): seq<byte> {
    var content := [0, m.codec % 4] + WireBytes(m.key) + WireBytes(m.value);
    Four(crc(content)) + content
  }

  /** A block: eight bytes of offset, four of the message's length, and the message. */
  function WireBlock(crc: Checksum, b: Block): seq<byte> {
    var offset: nat := if b.offset < 0 then b.offset + 0x1_0000_0000_0000_0000 else b.offset;
    var message := WireMessage(crc, b.msg);
    Four(offset / 0x1_0000_0000) + Four(offset) + Four(|message|) + message
  }

  lemma SignedFour(v: int)
    requires -0x8000_0000 <= v < 0x8000_0000
    ensures SignedBig(v, 4) == Four(if v < 0 then v + 0x1_0000_0000 else v)
  {
    Powers();
    Residue(v, Pow2(32));
    FourBytes(if v < 0 then v + 0x1_0000_0000 else v);
    hide Pow2, Big;
  }

  lemma SignedEight(v: int64)
    ensures var u: nat := if v < 0 then v + 0x1_0000_0000_0000_0000 else v;
            SignedBig(v, 8) == Four(u / 0x1_0000_0000) + Four(u)
  {
    var u: nat := if v < 0 then v + 0x1_0000_0000_0000_0000 else v;
    Powers();
    Residue(v, Pow2(64));
    EightBytes(u);
    FourBytes(u / 0x1_0000_0000);
    FourBytes(u);
    hide Pow2, Big;
  }

  lemma MinusOne()
    ensures SignedBig(-1, 4) == [0xff, 0xff, 0xff, 0xff]
  {
    SignedFour(-1);
    FourOnes();
    hide SignedBig, Four;
  }

  lemma FourOnes()
    ensures Four(0xffff_ffff) == [0xff, 0xff, 0xff, 0xff]
  {
  }

  lemma OptBytesAre(o: Option<seq<byte>>)
    requires !TooLong(Bytes(o))
    ensures OptBytes(o) == WireBytes(o)
  {
    match o
    case None => MinusOne();
    case Some(s) =>
      SignedFour(|s|);
      hide SignedBig, Four;
  }

  lemma TwoAndTwo(a: byte, b: byte, x: seq<byte>, y: seq<byte>)
    ensures [a] + ([b] + (x + y)) == [a, b] + x + y
  {
  }

  lemma ContentBytesAre(m: Msg)
    requires !TooLong(Bytes(m.key)) && !TooLong(Bytes(m.value))
    ensures ContentBytes(m) == [0, m.codec % 4] + WireBytes(m.key) + WireBytes(m.value)
  {
    Powers();
    assert SignedBig(0, 1) == [0] && SignedBig(m.codec % 4, 1) == [m.codec % 4];
    OptBytesAre(m.key);
    OptBytesAre(m.value);
    hide SignedBig, Pow2, OptBytes, WireBytes;
    TwoAndTwo(0, m.codec % 4, WireBytes(m.key), WireBytes(m.value));
  }

  lemma MessageBytesAre(crc: Checksum, m: Msg)
    requires !TooLong(Bytes(m.key)) && !TooLong(Bytes(m.value))
    ensures FieldBytes(crc, true, ContentBytes(m)) == WireMessage(crc, m)
  {
    ContentBytesAre(m);
    FourBytes(crc(ContentBytes(m)));
    hide Big, ContentBytes, WireBytes;
  }

  lemma SizedBytesAre(crc: Checksum, body: seq<byte>)
    requires |body| < 0x1_0000_0000
    ensures FieldBytes(crc, false, body) == Four(|body|) + body
  {
    FourBytes(|body|);
    assert FieldValue(crc, false, body) == |body|;
    hide Big, Four, FieldValue;
  }

  /** The bytes of a block, of any message whose parts pass the sizing pass. */
  lemma BlockBytesAre(crc: Checksum, b: Block)
    requires !TooLong(Bytes(b.msg.key)) && !TooLong(Bytes(b.msg.value))
    requires |WireMessage(crc, b.msg)| < 0x1_0000_0000
    ensures BlockBytes(crc, b) == WireBlock(crc, b)
  {
    var message := WireMessage(crc, b.msg);
    MessageBytesAre(crc, b.msg);
    SignedEight(b.offset);
    SizedBytesAre(crc, message);
    hide FieldBytes, SignedBig, WireMessage, ContentBytes, Four;
    Joined(SignedBig(b.offset, 8), Four(|message|), message);
  }

  /** A number of one or two bytes, two's complement. */
  lemma SmallSigned(v: int)
    ensures -0x80 <= v < 0x80 ==> SignedBig(v, 1) == [if v < 0 then v + 0x100 else v]
    ensures -0x8000 <= v < 0x8000 ==>
              var u := if v < 0 then v + 0x1_0000 else v; SignedBig(v, 2) == [u / 0x100, u % 0x100]
  {
    Powers();
    if -0x80 <= v < 0x80 {
      Residue(v, Pow2(8));
      var u := v % Pow2(8);
      assert Big(u, 1) == Big(u / 256, 0) + [u % 256];
    }
    if -0x8000 <= v < 0x8000 {
      Residue(v, Pow2(16));
      var u := v % Pow2(16);
      assert Big(u, 2) == Big(u / 256, 1) + [u % 256] && Big(u / 256, 1) == Big(u / 256 / 256, 0) + [u / 256 % 256];
    }
  }

  lemma BigFour(v: nat)
    ensures Big(v, 4) == Four(v)
  {
    FourBytes(v);
  }

  /** The bytes of every kind of item: strings behind two bytes of length, byte slices and
      arrays behind four, and a length or checksum of four bytes in front of what it covers. */
  lemma NodeBytesAre(crc: Checksum, node: Node)
    requires !TooLong(node)
    ensures match node
            case Int8(v) => Render(crc, node) == [if v < 0 then v + 0x100 else v]
            case Int16(v) =>
              var u := if v < 0 then v + 0x1_0000 else v; Render(crc, node) == [u / 0x100, u % 0x100]
            case Int32(v) => Render(crc, node) == Four(if v < 0 then v + 0x1_0000_0000 else v)
            case Int64(v) =>
              var u: nat := if v < 0 then v + 0x1_0000_0000_0000_0000 else v;
              Render(crc, node) == Four(u / 0x1_0000_0000) + Four(u)
            case ArrayLength(n) => Render(crc, node) == Four(n)
            case Raw(b) => Render(crc, node) == b
            case Bytes(o) => Render(crc, node) == WireBytes(o)
            case Str(s) => Render(crc, node) == [|s| / 0x100, |s| % 0x100] + s
            case Length(fields) =>
              var b := RenderAll(crc, fields); |b| < 0x1_0000_0000 ==> Render(crc, node) == Four(|b|) + b
            case Crc(fields) =>
              var b := RenderAll(crc, fields); Render(crc, node) == Four(crc(b)) + b
            case Unordered(parts) => Render(crc, node) == RenderAll(crc, parts)
  {
    hide SignedBig, Big, Four;
    match node
    case Int8(v) => SmallSigned(v);
    case Int16(v) => SmallSigned(v);
    case Int32(v) => SignedFour(v);
    case Int64(v) => SignedEight(v);
    case ArrayLength(n) => SignedFour(n);
    case Raw(_) =>
    case Bytes(o) => OptBytesAre(o);
    case Str(s) => SmallSigned(|s|);
    case Length(fields) => BigFour(|RenderAll(crc, fields)|);
    case Crc(fields) => BigFour(crc(RenderAll(crc, fields)));
    case Unordered(_) =>
  }
}
