/** encode on a message set as it runs: both passes over the message objects, and a buffer that
    may turn out too small. */
module KafkaPassRoutines {
  import opened Wrappers
  import opened Base128
  import opened KafkaWire
  import opened KafkaMessage
  import opened KafkaRoutines
  import opened KafkaPasses

  // ----- a buffer that is too small -----

  /** A run that gets through has moved over the size of what it wrote. */
  lemma {:induction false} OffMoves(crc: Checksum, r: Real, node: Node)
    ensures
      var s := Run(crc, r, Calls(node));
      s.Some? ==> s.value.off == r.off + Size(node) && |s.value.raw| == |r.raw| && s.value.stack == r.stack
    decreases node
  {
    match node
    case Length(fields) => OffMovesField(crc, r, fields, false);
    case Crc(fields) => OffMovesField(crc, r, fields, true);
    case Unordered(parts) => OffMovesAll(crc, r, parts);
    case _ => OneCall(crc, r, node);
  }

  lemma {:induction false} OffMovesAll(crc: Checksum, r: Real, nodes: seq<Node>)
    ensures
      var s := Run(crc, r, AllCalls(nodes));
      s.Some? ==> s.value.off == r.off + SizeAll(nodes) && |s.value.raw| == |r.raw| && s.value.stack == r.stack
    decreases nodes, 0
  {
    if nodes != [] {
      RunJoin(crc, r, Calls(nodes[0]), AllCalls(nodes[1..]));
      OffMoves(crc, r, nodes[0]);
      var s := Run(crc, r, Calls(nodes[0]));
      if s.Some? { OffMovesAll(crc, s.value, nodes[1..]); }
    }
  }

  lemma {:induction false} OffMovesField(crc: Checksum, r: Real, fields: seq<Node>, isCrc: bool)
    ensures
      var s := Run(crc, r, [if isCrc then PushCrc else PushLength] + AllCalls(fields) + [Pop]);
      s.Some? ==> s.value.off == r.off + 4 + SizeAll(fields) && |s.value.raw| == |r.raw| && s.value.stack == r.stack
    decreases fields, 1
  {
    FieldIs(crc, r, fields, isCrc);
    OffMovesAll(crc, Push(r, isCrc), fields);
  }

  /** The run over a field is the run over what is in it, between the push and the pop. */
  lemma FieldIs(crc: Checksum, r: Real, fields: seq<Node>, isCrc: bool)
    ensures
      var body := Run(crc, Push(r, isCrc), AllCalls(fields));
      Run(crc, r, [if isCrc then PushCrc else PushLength] + AllCalls(fields) + [Pop])
      == if body.None? then None else PopField(crc, body.value)
  {
    hide PopField, Push;
    var push, pop := [if isCrc then PushCrc else PushLength], [Pop];
    RunJoin(crc, r, push + AllCalls(fields), pop);
    RunJoin(crc, r, push, AllCalls(fields));
    assert push[1..] == [] && pop[1..] == [];
    assert Run(crc, r, push) == Some(Push(r, isCrc));
  }

  /** What does not fit is copied as far as it goes, but then the CRC is taken of more than the
      buffer holds. */
  lemma CrcOverflows(crc: Checksum, r: Real, fields: seq<Node>)
    requires r.off + 4 + SizeAll(fields) > |r.raw|
    ensures Run(crc, r, Calls(Crc(fields))) == None
  {
    FieldIs(crc, r, fields, true);
    OffMovesAll(crc, Push(r, true), fields);
  }

  lemma BlockOverflows(crc: Checksum, r: Real, offset: int64, fields: seq<Node>)
    requires r.off + 16 + SizeAll(fields) > |r.raw|
    ensures Run(crc, r, AllCalls(BlockNodes(offset, Crc(fields)))) == None
  {
    var message := [Crc(fields)];
    var first, second := Int64(offset), Length(message);
    assert BlockNodes(offset, Crc(fields)) == [first, second];
    TwoCalls(crc, r, first, second);
    OffMoves(crc, r, first);
    var s := Run(crc, r, Calls(first));
    if s.Some? {
      FieldIs(crc, s.value, message, false);
      CrcOverflows(crc, Push(s.value, false), fields);
      assert AllCalls(message) == Calls(Crc(fields)) by { assert message[1..] == []; }
    }
  }

  lemma TwoCalls(crc: Checksum, r: Real, a: Node, b: Node)
    ensures Run(crc, r, AllCalls([a, b]))
         == var s := Run(crc, r, Calls(a)); if s.None? then None else Run(crc, s.value, Calls(b))
  {
    hide Calls;
    assert [a, b][1..] == [b] && [b][1..] == [];
    assert AllCalls([b]) == Calls(b);
    RunJoin(crc, r, Calls(a), Calls(b));
  }

  lemma {:induction false} AllCallsJoin(a: seq<Node>, b: seq<Node>)
    ensures AllCalls(a + b) == AllCalls(a) + AllCalls(b)
  {
    hide Calls;
    if a == [] {
      assert a + b == b;
    } else {
      assert (a + b)[1..] == a[1..] + b;
      AllCallsJoin(a[1..], b);
    }
  }

  lemma LastOverflows(crc: Checksum, r: Real, nodes: seq<Node>, offset: int64, fields: seq<Node>)
    requires r.off + SizeAll(nodes + BlockNodes(offset, Crc(fields))) > |r.raw|
    ensures Run(crc, r, AllCalls(nodes + BlockNodes(offset, Crc(fields)))) == None
  {
    hide Run, BlockNodes;
    var block := BlockNodes(offset, Crc(fields));
    AllCallsJoin(nodes, block);
    SizeJoin(nodes, block);
    RunJoin(crc, r, AllCalls(nodes), AllCalls(block));
    OffMovesAll(crc, r, nodes);
    BlockSizeIs(offset, fields);
    var s := Run(crc, r, AllCalls(nodes));
    if s.Some? { BlockOverflows(crc, s.value, offset, fields); }
  }

  lemma BlockSizeIs(offset: int64, fields: seq<Node>)
    ensures SizeAll(BlockNodes(offset, Crc(fields))) == 16 + SizeAll(fields)
  {
    PairSize(Int64(offset), Length([Crc(fields)]));
    assert [Crc(fields)][1..] == [];
    assert SizeAll([Crc(fields)]) == 4 + SizeAll(fields);
  }

  lemma PassOverflows(crc: Checksum, r: Real, entries: seq<Entry>, outs: Compressor, caches: Caches, n: nat)
    requires n <= |entries| && r.off <= |r.raw| && !Pass(false, entries, outs, n, caches).refused
    requires r.off + SizeAll(Pass(false, entries, outs, n, caches).nodes) > |r.raw|
    ensures Run(crc, r, AllCalls(Pass(false, entries, outs, n, caches).nodes)) == None
  {
    hide AllCalls, Run, Size, WithCache, BlockNodes;
    var e, before := entries[n - 1], Pass(false, entries, outs, n - 1, caches);
    var payload := PayloadAt(false, entries, outs, caches, n - 1);
    LastOverflows(crc, r, before.nodes, e.offset,
                  [Int8(0), Int8(e.msg.codec % 4), Bytes(e.msg.key), Bytes(payload)]);
  }

  /** The writing pass over a set gets through if and only if the buffer is large enough. */
  lemma WritesIfItFits(crc: Checksum, entries: seq<Entry>, outs: Compressor, caches: Caches, length: nat)
    requires length >= 4 && !Pass(false, entries, outs, |entries|, caches).refused
    ensures
      var node := Length(Pass(false, entries, outs, |entries|, caches).nodes);
      Run(crc, Fresh(length), Calls(node)).Some? <==> Size(node) <= length
  {
    var nodes := Pass(false, entries, outs, |entries|, caches).nodes;
    hide Pass;
    if Size(Length(nodes)) <= length {
      RunFills(crc, Fresh(length), Length(nodes));
    } else {
      FieldIs(crc, Fresh(length), nodes, false);
      PassOverflows(crc, Push(Fresh(length), false), entries, outs, caches, |entries|);
    }
  }

  // ----- the passes on the message objects -----

  ghost function MessagesOf(entries: seq<Entry>): set<Message> {
    set e | e in entries :: e.msg
  }

  ghost function Cached(messages: set<Message>): Caches
    reads messages
  {
    map m | m in messages && m.compressedCache.Some? :: m.compressedCache.value
  }

  /** MessageBlock.encode, up to the calls to the encoder, after p. */
  method EncodeBlock(sizing: bool, e: Entry, compressed: seq<byte>, ghost messages: set<Message>, ghost p: Passed)
    returns (r: Result<seq<Node>, Error>)
    requires e.msg in messages && p.caches == Cached(messages) && !p.refused
    modifies e.msg
    ensures
      var v := Visit(sizing, e, compressed, p);
      && Cached(messages) == v.caches && r.Ok? == !v.refused
      && (r.Ok? ==> v.nodes == p.nodes + r.value)
  {
    hide BlockNodes, MessageNode;
    var m := e.msg.Encode(sizing, compressed);
    assert Cached(messages) == WithCache(p.caches, e.msg, e.msg.compressedCache);
    if m.Err? { return Err(EncodingError); }
    return Ok(BlockNodes(e.offset, m.value));
  }

  /** MessageSet.encode, up to the calls to the encoder. */
  method EncodeSet(sizing: bool, entries: seq<Entry>, outs: Compressor) returns (r: Result<seq<Node>, Error>)
    modifies MessagesOf(entries)
    ensures
      var p := Pass(sizing, entries, outs, |entries|, old(Cached(MessagesOf(entries))));
      && r == (if p.refused then Err(EncodingError) else Ok(p.nodes))
      && Cached(MessagesOf(entries)) == p.caches
  {
    hide Visit, Cached;
    ghost var messages := MessagesOf(entries);
    ghost var caches := Cached(messages);
    var nodes: seq<Node> := [];
    for i := 0 to |entries|
      invariant Pass(sizing, entries, outs, i, caches) == Passed(nodes, Cached(messages), false)
    {
      assert entries[i] in entries && entries[i].msg in messages;
      var block := EncodeBlock(sizing, entries[i], outs(i), messages, Passed(nodes, Cached(messages), false));
      if block.Err? {
        RefusedStays(sizing, entries, outs, caches, i + 1, |entries|);
        return Err(EncodingError);
      }
      nodes := nodes + block.value;
    }
    return Ok(nodes);
  }

  lemma {:induction false} AcceptedFits(entries: seq<Entry>, outs: Compressor, caches: Caches, n: nat)
    requires n <= |entries| && !Pass(true, entries, outs, n, caches).refused
    ensures !AnyTooLong(Pass(true, entries, outs, n, caches).nodes)
  {
    if n > 0 {
      var e, before := entries[n - 1], Pass(true, entries, outs, n - 1, caches);
      AcceptedFits(entries, outs, caches, n - 1);
      hide MessageNode, BlockNodes, AnyTooLong, TooLong, WithCache;
      var payload := PayloadAt(true, entries, outs, caches, n - 1);
      BlockSize(e.offset, e.msg.codec, e.msg.key, payload);
      SizeJoin(before.nodes, BlockNodes(e.offset, MessageNode(e.msg.codec, e.msg.key, payload)));
    }
  }

  lemma SizingFits(entries: seq<Entry>, outs: Compressor, caches: Caches)
    requires !Sizing(entries, outs, caches).refused
    ensures !TooLong(Length(Sizing(entries, outs, caches).nodes))
  {
    AcceptedFits(entries, outs, caches, |entries|);
  }

  function Zeros(n: nat): seq<byte> {
    seq(n, _ => 0)
  }

  /** encode on a message set under its length. It writes what the writing pass asks for, followed
      by zeros when that is less than the sizing pass has found, and it demands that it is not
      more, as the program runs off its buffer otherwise. When the set is refused or too large,
      the caches stay as the sizing pass left them: so a message comes to hold one before the
      next call. */
  method EncodeMessageSet(crc: Checksum, entries: seq<Entry>, outs: Compressor, again: Compressor)
    returns (r: Result<seq<byte>, Error>)
    requires
      var caches := Cached(MessagesOf(entries));
      var first, second := Sizing(entries, outs, caches), Writing(entries, outs, again, caches);
      first.refused || Size(Length(first.nodes)) > MAX_REQUEST_SIZE
      || (!second.refused && Size(Length(second.nodes)) <= Size(Length(first.nodes)))
    modifies MessagesOf(entries)
    ensures
      var caches := old(Cached(MessagesOf(entries)));
      var first, second := Sizing(entries, outs, caches), Writing(entries, outs, again, caches);
      var length := Size(Length(first.nodes));
      if first.refused || length > MAX_REQUEST_SIZE
      then r == Err(EncodingError) && Cached(MessagesOf(entries)) == first.caches
      else
        var written := Render(crc, Length(second.nodes));
        && |written| <= length && r == Ok(written + Zeros(length - |written|))
        && Cached(MessagesOf(entries)) == second.caches
  {
    hide TooLong, Size, Render, Pass, Cached, MessagesOf;
    ghost var caches := Cached(MessagesOf(entries));
    var first := EncodeSet(true, entries, outs);
    if first.Err? { return Err(EncodingError); }
    var node := Length(first.value);
    SizingFits(entries, outs, caches);
    PrepSizes(node, 0);
    var prepEnc := new PrepEncoder();
    var ok := prepEnc.TakeAll(Calls(node));
    if !ok || prepEnc.length > MAX_REQUEST_SIZE { return Err(EncodingError); }
    var realEnc := new RealEncoder(prepEnc.length);
    var second := EncodeSet(false, entries, again);
    if second.Err? { return Err(EncodingError); }
    FreshFills(crc, Length(second.value), Size(node));
    realEnc.TakeAll(crc, Calls(Length(second.value)));
    return Ok(realEnc.raw[..]);
  }

  lemma FreshFills(crc: Checksum, node: Node, length: nat)
    requires Size(node) <= length
    ensures |Render(crc, node)| == Size(node)
    ensures Run(crc, Fresh(length), Calls(node))
         == Some(Real(Render(crc, node) + Zeros(length - Size(node)), Size(node), []))
  {
    RunFills(crc, Fresh(length), node);
    assert Patch(Fresh(length).raw, 0, Render(crc, node)) == Render(crc, node) + Zeros(length - Size(node));
  }

  /** What is written, then, when the passes agree: the rendering, which fills the buffer. */
  lemma AgreeFills(crc: Checksum, entries: seq<Entry>, outs: Compressor, again: Compressor, caches: Caches)
    requires Agree(entries, outs, again, caches) && !Sizing(entries, outs, caches).refused
    ensures
      var node := Length(Sizing(entries, outs, caches).nodes);
      && !TooLong(node)
      && Run(crc, Fresh(Size(node)), Calls(Length(Writing(entries, outs, again, caches).nodes)))
         == Some(Real(Render(crc, node), Size(node), []))
  {
    hide Pass;
    var node := Length(Sizing(entries, outs, caches).nodes);
    SizingFits(entries, outs, caches);
    SameOrder(node);
    TwoPasses(crc, node, node);
  }
}
