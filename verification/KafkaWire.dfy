/** Kafka's wire encoding: big-endian numbers, the calls that a request issues to an encoder,
    and the two encoders that answer them: one sums sizes, one fills a buffer and goes back to
    patch length and CRC fields. The CRC is an opaque function. */
module KafkaWire {
  import opened Wrappers
  import opened Base128
  import opened BigEndian

  type Checksum = seq<byte> -> uint32

  const MAX_INT16 := 0x7fff
  const MAX_INT32 := 0x7fff_ffff
  const MAX_REQUEST_SIZE := 100 * 1024 * 1024

  // ----- numbers -----

  /** A signed number in n bytes, two's complement. */
  function SignedBig(v: int, n: nat): (b: seq<byte>)
    ensures |b| == n
  {
    Big(v % Pow2(8 * n), n)
  }

  function FromSignedBig(b: seq<byte>): int {
    var v := FromBig(b);
    if b != [] && b[0] >= 128 then v - Pow2(8 * |b|) else v
  }

  // ----- what is encoded -----

  /** What an encode method asks of its encoder, as a tree: the fields under a length or a
      CRC, and the parts (entries of a map) that each pass visits in an order of its own. */
  datatype Node =
    | Int8(i8: int8)
    | Int16(i16: int16)
    | Int32(i32: int32)
    | Int64(i64: int64)
    | ArrayLength(n: nat)
    | Raw(bytes: seq<byte>)
    | Bytes(opt: Option<seq<byte>>)
    | Str(chars: seq<byte>)
    | Length(fields: seq<Node>)
    | Crc(fields: seq<Node>)
    | Unordered(parts: seq<Node>)

  /** The bytes meant. */
  function Render(crc: Checksum, node: Node): (b: seq<byte>)
    decreases node
  {
    match node
    case Int8(v) => SignedBig(v, 1)
    case Int16(v) => SignedBig(v, 2)
    case Int32(v) => SignedBig(v, 4)
    case Int64(v) => SignedBig(v, 8)
    case ArrayLength(n) => SignedBig(n, 4)
    case Raw(b) => b
    case Bytes(None) => SignedBig(-1, 4)
    case Bytes(Some(b)) => SignedBig(|b|, 4) + b
    case Str(s) => SignedBig(|s|, 2) + s
    case Length(fields) => var b := RenderAll(crc, fields); Big(FieldValue(crc, false, b), 4) + b
    case Crc(fields) => var b := RenderAll(crc, fields); Big(FieldValue(crc, true, b), 4) + b
    case Unordered(parts) => RenderAll(crc, parts)
  }

  function RenderAll(crc: Checksum, nodes: seq<Node>): (b: seq<byte>)
    decreases nodes
  {
    if nodes == [] then [] else Render(crc, nodes[0]) + RenderAll(crc, nodes[1..])
  }

  function Size(node: Node): nat
    decreases node
  {
    match node
    case Int8(_) => 1
    case Int16(_) => 2
    case Int32(_) => 4
    case Int64(_) => 8
    case ArrayLength(_) => 4
    case Raw(b) => |b|
    case Bytes(None) => 4
    case Bytes(Some(b)) => 4 + |b|
    case Str(s) => 2 + |s|
    case Length(fields) => 4 + SizeAll(fields)
    case Crc(fields) => 4 + SizeAll(fields)
    case Unordered(parts) => SizeAll(parts)
  }

  function SizeAll(nodes: seq<Node>): nat
    decreases nodes
  {
    if nodes == [] then 0 else Size(nodes[0]) + SizeAll(nodes[1..])
  }

  /** Something that the sizing pass refuses. */
  predicate TooLong(node: Node)
    decreases node
  {
    match node
    case ArrayLength(n) => n > MAX_INT32
    case Raw(b) => |b| > MAX_INT32
    case Bytes(Some(b)) => |b| > MAX_INT32
    case Str(s) => |s| > MAX_INT16
    case Length(fields) => AnyTooLong(fields)
    case Crc(fields) => AnyTooLong(fields)
    case Unordered(parts) => AnyTooLong(parts)
    case _ => false
  }

  predicate AnyTooLong(nodes: seq<Node>)
    decreases nodes
  {
    nodes != [] && (TooLong(nodes[0]) || AnyTooLong(nodes[1..]))
  }

  /** b is a, with the parts of every map in some other order. */
  ghost predicate Reordered(a: Node, b: Node)
    decreases b
  {
    match b
    case Length(fields) => a.Length? && EachReordered(a.fields, fields)
    case Crc(fields) => a.Crc? && EachReordered(a.fields, fields)
    case Unordered(parts) => a.Unordered? && Shuffled(a.parts, parts)
    case _ => a == b
  }

  ghost predicate EachReordered(a: seq<Node>, b: seq<Node>)
    decreases b
  {
    if b == [] then a == [] else a != [] && Reordered(a[0], b[0]) && EachReordered(a[1..], b[1..])
  }

  ghost predicate Shuffled(a: seq<Node>, b: seq<Node>)
    decreases b
  {
    if b == [] then a == []
    else exists k :: 0 <= k < |a| && Reordered(a[k], b[0]) && Shuffled(Without(a, k), b[1..])
  }

  function Without(a: seq<Node>, k: nat): seq<Node>
    requires k < |a|
  {
    a[..k] + a[k + 1..]
  }

  // ----- the calls -----

  datatype Call = Put(node: Node) | PushLength | PushCrc | Pop

  predicate Simple(node: Node) {
    !node.Length? && !node.Crc? && !node.Unordered?
  }

  /** The calls in the order in which they are made. */
  function Calls(node: Node): (calls: seq<Call>)
    ensures forall c :: c in calls && c.Put? ==> Simple(c.node)
    decreases node
  {
    match node
    case Length(fields) => [PushLength] + AllCalls(fields) + [Pop]
    case Crc(fields) => [PushCrc] + AllCalls(fields) + [Pop]
    case Unordered(parts) => AllCalls(parts)
    case _ => [Put(node)]
  }

  function AllCalls(nodes: seq<Node>): (calls: seq<Call>)
    ensures forall c :: c in calls && c.Put? ==> Simple(c.node)
    decreases nodes
  {
    if nodes == [] then [] else Calls(nodes[0]) + AllCalls(nodes[1..])
  }

  datatype Error = EncodingError | DecodingError | InsufficientData

  /** The sizing encoder: the sum of the sizes, or the first refusal. */
  function Prep(calls: seq<Call>, length: nat): Result<nat, Error> {
    if calls == [] then Ok(length)
    else
      match calls[0]
      case Put(node) => if TooLong(node) then Err(EncodingError) else Prep(calls[1..], length + Size(node))
      case Pop => Prep(calls[1..], length)
      case _ => Prep(calls[1..], length + 4)
  }

  datatype Pushed = Pushed(crc: bool, startOffset: nat)

  /** The writing encoder. None stands for a panic: a write or a slice out of bounds. */
  datatype Real = Real(raw: seq<byte>, off: nat, stack: seq<Pushed>)

  /** raw with b written over it from start on. */
  function Patch(raw: seq<byte>, start: nat, b: seq<byte>): seq<byte>
    requires start + |b| <= |raw|
  {
    raw[..start] + b + raw[start + |b|..]
  }

  /** PutUint16, PutUint32, PutUint64: all of b must fit. */
  function Store(r: Real, b: seq<byte>): Option<Real> {
    if r.off + |b| > |r.raw| then None
    else Some(Real(Patch(r.raw, r.off, b), r.off + |b|, r.stack))
  }

  /** copy: as much of b as fits, but off moves by all of it. */
  function Copy(r: Real, b: seq<byte>): Option<Real> {
    if r.off > |r.raw| then None
    else if r.off + |b| <= |r.raw| then Store(r, b)
    else Some(Real(r.raw[..r.off] + b[..|r.raw| - r.off], r.off + |b|, r.stack))
  }

  function Then(r: Option<Real>, b: seq<byte>): Option<Real> {
    if r.None? then None else Copy(r.value, b)
  }

  function PutNode(r: Real, node: Node): Option<Real>
    requires Simple(node)
  {
    match node
    case Int8(v) => Store(r, SignedBig(v, 1))
    case Int16(v) => Store(r, SignedBig(v, 2))
    case Int32(v) => Store(r, SignedBig(v, 4))
    case Int64(v) => Store(r, SignedBig(v, 8))
    case ArrayLength(n) => Store(r, SignedBig(n, 4))
    case Raw(b) => Copy(r, b)
    case Bytes(None) => Store(r, SignedBig(-1, 4))
    case Bytes(Some(b)) => Then(Store(r, SignedBig(|b|, 4)), b)
    case Str(s) => Then(Store(r, SignedBig(|s|, 2)), s)
  }

  /** The content of a field over the bytes of its body. */
  function FieldValue(crc: Checksum, isCrc: bool, body: seq<byte>): nat {
    if isCrc then crc(body) else |body| % 0x1_0000_0000
  }

  function Push(r: Real, crc: bool): Real {
    Real(r.raw, r.off + 4, r.stack + [Pushed(crc, r.off)])
  }

  /** The field pushed last is patched over the four bytes reserved for it. */
  function PopField(crc: Checksum, r: Real): Option<Real> {
    if r.stack == [] then None
    else
      var f := r.stack[|r.stack| - 1];
      var start := f.startOffset;
      if start + 4 > |r.raw| || (f.crc && !(start + 4 <= r.off <= |r.raw|)) then None
      else
        var v := if f.crc then FieldValue(crc, true, r.raw[start + 4..r.off]) else (r.off - start - 4) % 0x1_0000_0000;
        Some(Real(Patch(r.raw, start, Big(v, 4)), r.off, r.stack[..|r.stack| - 1]))
  }

  function Step(crc: Checksum, r: Real, call: Call): Option<Real>
    requires call.Put? ==> Simple(call.node)
  {
    match call
    case Put(node) => PutNode(r, node)
    case PushLength => Some(Push(r, false))
    case PushCrc => Some(Push(r, true))
    case Pop => PopField(crc, r)
  }

  function Run(crc: Checksum, r: Real, calls: seq<Call>): Option<Real>
    requires forall c :: c in calls && c.Put? ==> Simple(c.node)
    decreases |calls|
  {
    if calls == [] then Some(r)
    else
      assert calls[0] in calls;
      var s := Step(crc, r, calls[0]);
      if s.None? then None else Run(crc, s.value, calls[1..])
  }

  // ----- both passes -----

  lemma RenderSize(crc: Checksum, node: Node)
    ensures |Render(crc, node)| == Size(node)
    decreases node
  {
    match node
    case Length(fields) => RenderSizeAll(crc, fields);
    case Crc(fields) => RenderSizeAll(crc, fields);
    case Unordered(parts) => RenderSizeAll(crc, parts);
    case _ =>
  }

  lemma {:induction false} RenderSizeAll(crc: Checksum, nodes: seq<Node>)
    ensures |RenderAll(crc, nodes)| == SizeAll(nodes)
    decreases nodes
  {
    if nodes != [] {
      RenderSize(crc, nodes[0]);
      RenderSizeAll(crc, nodes[1..]);
    }
  }

  lemma {:induction false} PrepJoin(a: seq<Call>, b: seq<Call>, length: nat)
    ensures Prep(a + b, length) == var r := Prep(a, length); if r.Err? then r else Prep(b, r.value)
    decreases |a|
  {
    if a == [] {
      assert a + b == b;
    } else {
      assert (a + b)[1..] == a[1..] + b;
      PrepJoin(a[1..], b, match a[0] case Put(node) => length + Size(node) case Pop => length case _ => length + 4);
    }
  }

  /** The sizing pass adds up the size of what is meant, and refuses exactly what is too long. */
  lemma {:induction false} PrepSizes(node: Node, length: nat)
    ensures Prep(Calls(node), length) == if TooLong(node) then Err(EncodingError) else Ok(length + Size(node))
    decreases node
  {
    match node
    case Length(fields) => PrepField(fields, PushLength, length);
    case Crc(fields) => PrepField(fields, PushCrc, length);
    case Unordered(parts) => PrepSizesAll(parts, length);
    case _ => PrepOne(node, length);
  }

  lemma PrepOne(node: Node, length: nat)
    requires Simple(node)
    ensures Prep(Calls(node), length) == if TooLong(node) then Err(EncodingError) else Ok(length + Size(node))
  {
    hide TooLong, Size;
    assert Calls(node) == [Put(node)] && [Put(node)][1..] == [];
  }

  lemma {:induction false} PrepField(fields: seq<Node>, push: Call, length: nat)
    requires push.PushLength? || push.PushCrc?
    ensures Prep([push] + AllCalls(fields) + [Pop], length)
         == if AnyTooLong(fields) then Err(EncodingError) else Ok(length + 4 + SizeAll(fields))
    decreases fields, 1
  {
    PrepSizesAll(fields, length + 4);
    PrepJoin([push] + AllCalls(fields), [Pop], length);
    PrepJoin([push], AllCalls(fields), length);
  }

  lemma {:induction false} PrepSizesAll(nodes: seq<Node>, length: nat)
    ensures Prep(AllCalls(nodes), length)
         == if AnyTooLong(nodes) then Err(EncodingError) else Ok(length + SizeAll(nodes))
    decreases nodes, 0
  {
    if nodes != [] {
      PrepSizes(nodes[0], length);
      PrepJoin(Calls(nodes[0]), AllCalls(nodes[1..]), length);
      if !TooLong(nodes[0]) { PrepSizesAll(nodes[1..], length + Size(nodes[0])); }
    }
  }

  lemma {:induction false} RunJoin(crc: Checksum, r: Real, a: seq<Call>, b: seq<Call>)
    requires forall c :: c in a && c.Put? ==> Simple(c.node)
    requires forall c :: c in b && c.Put? ==> Simple(c.node)
    ensures Run(crc, r, a + b) == var s := Run(crc, r, a); if s.None? then None else Run(crc, s.value, b)
    decreases |a|
  {
    if a == [] {
      assert a + b == b;
    } else {
      assert (a + b)[1..] == a[1..] + b;
      var s := Step(crc, r, a[0]);
      if s.Some? { RunJoin(crc, s.value, a[1..], b); }
    }
  }

  /** r with b written over its next bytes. */
  function Filled(r: Real, b: seq<byte>): Real
    requires r.off + |b| <= |r.raw|
  {
    Real(Patch(r.raw, r.off, b), r.off + |b|, r.stack)
  }

  lemma FilledTwice(r: Real, a: seq<byte>, b: seq<byte>)
    requires r.off + |a| + |b| <= |r.raw|
    ensures Filled(Filled(r, a), b) == Filled(r, a + b)
  {
  }

  lemma PutFills(r: Real, a: seq<byte>, b: seq<byte>)
    requires r.off + |a| + |b| <= |r.raw|
    ensures Store(r, a) == Some(Filled(r, a)) && Then(Store(r, a), b) == Some(Filled(r, a + b))
  {
    FilledTwice(r, a, b);
  }

  /** A popped field is patched in front of the bytes written since it was pushed. */
  lemma FieldFills(crc: Checksum, r: Real, isCrc: bool, body: seq<byte>)
    requires r.off + 4 + |body| <= |r.raw|
    ensures PopField(crc, Filled(Push(r, isCrc), body))
         == Some(Filled(r, Big(FieldValue(crc, isCrc, body), 4) + body))
  {
    var v := Big(FieldValue(crc, isCrc, body), 4);
    Patched(r.raw, r.off, v, body);
    hide Big, PopField, Patch, FieldValue;
    Popped(crc, Patch(r.raw, r.off + 4, body), r.off, body, r.stack, isCrc);
  }

  lemma Popped(crc: Checksum, raw: seq<byte>, start: nat, body: seq<byte>, stack: seq<Pushed>, isCrc: bool)
    requires start + 4 + |body| <= |raw| && raw[start + 4..start + 4 + |body|] == body
    ensures PopField(crc, Real(raw, start + 4 + |body|, stack + [Pushed(isCrc, start)]))
         == Some(Real(Patch(raw, start, Big(FieldValue(crc, isCrc, body), 4)),
                      start + 4 + |body|, stack))
  {
    hide Big, Patch;
    var s := stack + [Pushed(isCrc, start)];
    assert s[|s| - 1] == Pushed(isCrc, start) && s[..|s| - 1] == stack;
  }

  lemma Patched(raw: seq<byte>, off: nat, v: seq<byte>, body: seq<byte>)
    requires |v| == 4 && off + 4 + |body| <= |raw|
    ensures
      var p := Patch(raw, off + 4, body);
      |p| == |raw| && p[off + 4..off + 4 + |body|] == body && Patch(p, off, v) == Patch(raw, off, v + body)
  {
    var p := Patch(raw, off + 4, body);
    assert p[..off] == raw[..off];
    assert p[off + 4..] == body + raw[off + 4 + |body|..];
  }

  /** The writing pass over one node, with room for it: no panic, the node's bytes at the old
      offset, the offset behind them, everything else and the stack as they were. */
  lemma {:induction false} RunFills(crc: Checksum, r: Real, node: Node)
    requires r.off + Size(node) <= |r.raw|
    ensures |Render(crc, node)| == Size(node)
    ensures Run(crc, r, Calls(node)) == Some(Filled(r, Render(crc, node)))
    decreases node
  {
    RenderSize(crc, node);
    match node
    case Length(fields) => FieldRuns(crc, r, fields, false);
    case Crc(fields) => FieldRuns(crc, r, fields, true);
    case Unordered(parts) => RunFillsAll(crc, r, parts);
    case Bytes(Some(b)) => PutFills(r, SignedBig(|b|, 4), b); OneCall(crc, r, node);
    case Str(s) => PutFills(r, SignedBig(|s|, 2), s); OneCall(crc, r, node);
    case _ => OneCall(crc, r, node);
  }

  lemma OneCall(crc: Checksum, r: Real, node: Node)
    requires Simple(node)
    ensures Run(crc, r, Calls(node)) == PutNode(r, node)
  {
    hide PutNode;
    assert [Put(node)][1..] == [];
  }

  lemma {:induction false} FieldRuns(crc: Checksum, r: Real, fields: seq<Node>, isCrc: bool)
    requires r.off + 4 + SizeAll(fields) <= |r.raw|
    ensures |RenderAll(crc, fields)| == SizeAll(fields)
    ensures
      var body := RenderAll(crc, fields);
      Run(crc, r, [if isCrc then PushCrc else PushLength] + AllCalls(fields) + [Pop])
      == Some(Filled(r, Big(FieldValue(crc, isCrc, body), 4) + body))
    decreases fields, 1
  {
    RenderSizeAll(crc, fields);
    var push := [if isCrc then PushCrc else PushLength];
    var pop := [Pop];
    RunJoin(crc, r, push + AllCalls(fields), pop);
    RunJoin(crc, r, push, AllCalls(fields));
    var r1 := Push(r, isCrc);
    assert push[1..] == [] && pop[1..] == [];
    assert Run(crc, r, push) == Some(r1);
    RunFillsAll(crc, r1, fields);
    FieldFills(crc, r, isCrc, RenderAll(crc, fields));
  }

  lemma {:induction false} RunFillsAll(crc: Checksum, r: Real, nodes: seq<Node>)
    requires r.off + SizeAll(nodes) <= |r.raw|
    ensures |RenderAll(crc, nodes)| == SizeAll(nodes)
    ensures Run(crc, r, AllCalls(nodes)) == Some(Filled(r, RenderAll(crc, nodes)))
    decreases nodes, 0
  {
    RenderSizeAll(crc, nodes);
    if nodes == [] {
      assert Patch(r.raw, r.off, []) == r.raw;
    } else {
      var a, b := Render(crc, nodes[0]), RenderAll(crc, nodes[1..]);
      RunJoin(crc, r, Calls(nodes[0]), AllCalls(nodes[1..]));
      RunFills(crc, r, nodes[0]);
      RunFillsAll(crc, Filled(r, a), nodes[1..]);
      FilledTwice(r, a, b);
    }
  }

  // ----- orders -----

  /** Neither the size nor the refusals depend on the order of visits. */
  lemma {:induction false} ReorderedSize(a: Node, b: Node)
    requires Reordered(a, b)
    ensures Size(a) == Size(b) && TooLong(a) == TooLong(b)
    decreases b
  {
    match b
    case Length(fields) => EachReorderedSize(a.fields, fields);
    case Crc(fields) => EachReorderedSize(a.fields, fields);
    case Unordered(parts) => ShuffledSize(a.parts, parts);
    case _ =>
  }

  lemma {:induction false} EachReorderedSize(a: seq<Node>, b: seq<Node>)
    requires EachReordered(a, b)
    ensures SizeAll(a) == SizeAll(b) && AnyTooLong(a) == AnyTooLong(b)
    decreases b
  {
    if b != [] {
      ReorderedSize(a[0], b[0]);
      EachReorderedSize(a[1..], b[1..]);
    }
  }

  lemma {:induction false} ShuffledSize(a: seq<Node>, b: seq<Node>)
    requires Shuffled(a, b)
    ensures SizeAll(a) == SizeAll(b) && AnyTooLong(a) == AnyTooLong(b)
    decreases b
  {
    if b != [] {
      var k :| 0 <= k < |a| && Reordered(a[k], b[0]) && Shuffled(Without(a, k), b[1..]);
      ReorderedSize(a[k], b[0]);
      ShuffledSize(Without(a, k), b[1..]);
      WithoutSize(a, k);
    }
  }

  lemma {:induction false} WithoutSize(a: seq<Node>, k: nat)
    requires k < |a|
    ensures SizeAll(a) == Size(a[k]) + SizeAll(Without(a, k))
    ensures AnyTooLong(a) == (TooLong(a[k]) || AnyTooLong(Without(a, k)))
  {
    if k == 0 {
      assert Without(a, 0) == a[1..];
    } else {
      WithoutSize(a[1..], k - 1);
      assert Without(a, k)[1..] == Without(a[1..], k - 1);
      assert Without(a, k)[0] == a[0];
    }
  }

  lemma {:induction false} SameOrder(a: Node)
    ensures Reordered(a, a)
    decreases a
  {
    match a
    case Length(fields) => SameOrderEach(fields);
    case Crc(fields) => SameOrderEach(fields);
    case Unordered(parts) => SameOrderAll(parts);
    case _ =>
  }

  lemma {:induction false} SameOrderEach(a: seq<Node>)
    ensures EachReordered(a, a)
    decreases a
  {
    if a != [] {
      SameOrder(a[0]);
      SameOrderEach(a[1..]);
    }
  }

  lemma {:induction false} SameOrderAll(a: seq<Node>)
    ensures Shuffled(a, a)
    decreases a
  {
    if a != [] {
      SameOrder(a[0]);
      SameOrderAll(a[1..]);
      assert Without(a, 0) == a[1..];
    }
  }

  function Fresh(length: nat): Real {
    Real(seq(length, _ => 0), 0, [])
  }

  /** Both passes of encode, each in an order of its own: what the first accepts, the second
      writes without leaving the buffer; it ends exactly at the end with an empty stack, and
      the buffer is the rendering in the second order. */
  lemma TwoPasses(crc: Checksum, first: Node, second: Node)
    requires Reordered(first, second)
    ensures Prep(Calls(first), 0) == if TooLong(second) then Err(EncodingError) else Ok(Size(second))
    ensures Run(crc, Fresh(Size(first)), Calls(second)) == Some(Real(Render(crc, second), Size(first), []))
  {
    PrepSizes(first, 0);
    ReorderedSize(first, second);
    var r := Fresh(Size(first));
    RunFills(crc, r, second);
    var b := Render(crc, second);
    assert Patch(r.raw, 0, b) == b;
  }
}
