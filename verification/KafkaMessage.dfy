/** Kafka messages and message sets: how they are laid out, how they are decoded, and what a
    decoder makes of a set that the broker has cut short. Compressed messages are laid out but
    not decoded. */
module KafkaMessage {
  import opened Wrappers
  import opened Base128
  import opened BigEndian
  import opened KafkaWire

  datatype Msg = Msg(codec: int8, key: Option<seq<byte>>, value: Option<seq<byte>>)

  datatype Block = Block(offset: int64, msg: Msg)

  /** What Message.encode asks for, with the payload that the codec made of the value. */
  function MessageNode(codec: int8, key: Option<seq<byte>>, payload: Option<seq<byte>>): Node {
    Crc([Int8(0), Int8(codec % 4), Bytes(key), Bytes(payload)])
  }

  function BlockNodes(offset: int64, message: Node): seq<Node> {
    [Int64(offset), Length([message])]
  }

  function MsgNode(m: Msg): Node {
    MessageNode(m.codec, m.key, m.value)
  }

  function SetNodes(blocks: seq<Block>): seq<Node> {
    if blocks == [] then []
    else BlockNodes(blocks[0].offset, MsgNode(blocks[0].msg)) + SetNodes(blocks[1..])
  }

  // ----- decoding -----

  /** Short: the bytes end before the item does (ErrInsufficientData). */
  datatype Parse<+T> = Done(value: T, rest: seq<byte>) | Short | Bad

  /** What is left of p, once some of it is taken. */
  predicate Tail(rest: seq<byte>, p: seq<byte>) {
    |rest| < |p| && rest == p[|p| - |rest|..]
  }

  lemma TailTail(a: seq<byte>, b: seq<byte>, c: seq<byte>)
    requires Tail(a, b) && Tail(b, c)
    ensures Tail(a, c)
  {
    assert c[|c| - |b|..][|b| - |a|..] == c[|c| - |a|..];
  }

  lemma TailDrop(p: seq<byte>, n: nat)
    requires 0 < n <= |p|
    ensures Tail(p[n..], p)
  {
  }

  function GetInt(p: seq<byte>, n: nat): (r: Parse<int>)
    requires n in {1, 2, 4, 8}
    ensures r.Done? ==> n <= |p| && r.rest == p[n..] && Tail(r.rest, p)
    ensures r.Done? ==> Fits(r.value, n)
    ensures !r.Bad?
  {
    if |p| < n then Short
    else
      Top(p[..n]);
      Done(FromSignedBig(p[..n]), p[n..])
  }

  /** v is a signed number of n bytes. */
  predicate Fits(v: int, n: nat) {
    -(Pow2(8 * n) as int) <= 2 * v < Pow2(8 * n)
  }

  /** A nil slice and an empty one are told apart. */
  function GetBytes(p: seq<byte>): (r: Parse<Option<seq<byte>>>)
    ensures r.Done? ==> Tail(r.rest, p)
  {
    match GetInt(p, 4)
    case Short => Short
    case Bad => Bad
    case Done(n, rest) =>
      if n < -1 then Bad
      else if n == -1 then Done(None, rest)
      else if n == 0 then Done(Some([]), rest)
      else if n > |rest| then Short
      else Done(Some(rest[..n]), rest[n..])
  }

  /** Key and value; only then is the codec looked at. */
  function GetPair(attribute: int, p: seq<byte>): (r: Parse<Msg>)
    ensures r.Done? ==> Tail(r.rest, p)
  {
    match GetBytes(p)
    case Short => Short
    case Bad => Bad
    case Done(key, p1) =>
      match GetBytes(p1)
      case Short => Short
      case Bad => Bad
      case Done(value, p2) =>
        TailTail(p2, p1, p);
        if attribute % 4 != 0 then Bad else Done(Msg(0, key, value), p2)
  }

  /** What follows the CRC of a message. */
  function GetContent(p: seq<byte>): (r: Parse<Msg>)
    ensures r.Done? ==> Tail(r.rest, p)
  {
    match GetInt(p, 1)
    case Short => Short
    case Bad => Bad
    case Done(format, p1) =>
      if format != 0 then Bad
      else
        match GetInt(p1, 1)
        case Short => Short
        case Bad => Bad
        case Done(attribute, p2) =>
          var r := GetPair(attribute, p2);
          if r.Done? then TailTail(p2, p1, p); TailTail(r.rest, p2, p); r
          else r
  }

  /** A field pushed in front of an item and checked behind it. */
  function GetField<T>(crc: Checksum, isCrc: bool, p: seq<byte>, inner: Parse<T>): (r: Parse<T>)
    requires |p| >= 4 && (inner.Done? ==> |inner.rest| <= |p| - 4)
    ensures r.Done? ==> r == inner
  {
    if !inner.Done? then inner
    else if FieldValue(crc, isCrc, p[4..|p| - |inner.rest|]) != FromBig(p[..4]) then Bad
    else inner
  }

  function GetMessage(crc: Checksum, p: seq<byte>): (r: Parse<Msg>)
    ensures r.Done? ==> Tail(r.rest, p)
  {
    if |p| < 4 then Short
    else
      TailDrop(p, 4);
      var r := GetContent(p[4..]);
      if r.Done? then TailTail(r.rest, p[4..], p); GetField(crc, true, p, r)
      else r
  }

  /** A message under its length. */
  function GetSized(crc: Checksum, p: seq<byte>): (r: Parse<Msg>)
    ensures r.Done? ==> Tail(r.rest, p)
  {
    if |p| < 4 then Short
    else
      TailDrop(p, 4);
      var r := GetMessage(crc, p[4..]);
      if r.Done? then TailTail(r.rest, p[4..], p); GetField(crc, false, p, r)
      else r
  }

  function GetBlock(crc: Checksum, p: seq<byte>): (r: Parse<Block>)
    ensures r.Done? ==> Tail(r.rest, p)
  {
    match GetInt(p, 8)
    case Short => Short
    case Bad => Bad
    case Done(offset, p1) =>
      match GetSized(crc, p1)
      case Short => Short
      case Bad => Bad
      case Done(msg, rest) =>
        Powers();
        TailTail(rest, p1, p);
        Done(Block(offset, msg), rest)
  }

  /** What decode leaves in a set: its messages, the partial flag, and whether it failed. */
  datatype Decoded = Decoded(messages: seq<Block>, partial: bool, failed: bool)

  function GetSet(crc: Checksum, p: seq<byte>): Decoded
    decreases |p|
  {
    if p == [] then Decoded([], false, false)
    else
      match GetBlock(crc, p)
      case Short => Decoded([], true, false)
      case Bad => Decoded([], false, true)
      case Done(b, rest) => var d := GetSet(crc, rest); d.(messages := [b] + d.messages)
  }

  // ----- numbers come back -----

  lemma SignedBack(v: int, n: nat)
    requires n > 0 && Fits(v, n)
    ensures FromSignedBig(SignedBig(v, n)) == v
  {
    var p := Pow2(8 * n);
    Residue(v, p);
    BigBack(v % p, n);
    Top(Big(v % p, n));
  }

  lemma Residue(v: int, p: nat)
    requires p > 0 && -(p as int) <= 2 * v < p
    ensures v % p == if v < 0 then v + p else v
  {
    if v < 0 {
      assert v == p * (-1) + (v + p);
      assert v / p == -1;
    }
  }
}
