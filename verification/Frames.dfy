/** HTTP/2 frames that carry header blocks (sections 4.1, 4.3, 6.2 and 6.10 of RFC 7540): what
    the framer writes, what it reads back, and how a block is split over frames. */
module Frames {
  import opened Wrappers
  import opened Base128
  import opened BigEndian

  const HEADERS_TYPE: byte := 1
  const CONTINUATION_TYPE: byte := 9

  const END_STREAM_FLAG := 1
  const END_HEADERS_FLAG := 4
  const PADDED_FLAG := 8
  const PRIORITY_FLAG := 0x20

  const MAX_FRAME_SIZE := 0xff_ffff
  /** The size that the header-block splitter keeps to. */
  const MAX_FRAGMENT := 16384

  datatype Error =
    BadStreamId | BadDependency | TooLarge | ConnectionProtocol | StreamProtocol(streamId: nat) | EOF | UnexpectedEOF

  datatype Priority = Priority(streamDep: uint32, exclusive: bool, weight: byte)

  const NO_PRIORITY := Priority(0, false, 0)

  datatype FrameHeader = FrameHeader(length: nat, frameType: byte, flags: byte, streamId: nat)

  datatype Frame =
    | Headers(fh: FrameHeader, priority: Priority, fragment: seq<byte>)
    | Continuation(fh: FrameHeader, fragment: seq<byte>)
    | Other(fh: FrameHeader, payload: seq<byte>)

  predicate ValidStreamId(id: uint32) {
    0 < id < 0x8000_0000
  }

  predicate Has(flags: byte, flag: nat)
    requires flag > 0
  {
    flags / flag % 2 == 1
  }

  function If(c: bool, flag: nat): nat {
    if c then flag else 0
  }

  // ----- writing -----

  /** startWrite and endWrite around a payload. */
  function FrameBytes(frameType: byte, flags: byte, streamId: uint32, payload: seq<byte>): Result<seq<byte>, Error> {
    if |payload| > MAX_FRAME_SIZE then Err(TooLarge)
    else Ok(Big(|payload|, 3) + [frameType, flags] + Big(streamId, 4) + payload)
  }

  datatype HeadersParam = HeadersParam(
    streamId: uint32, fragment: seq<byte>, endStream: bool, endHeaders: bool, padLength: byte, priority: Priority)

  function HeadersFlags(p: HeadersParam): byte {
    If(p.padLength != 0, PADDED_FLAG) + If(p.endStream, END_STREAM_FLAG) + If(p.endHeaders, END_HEADERS_FLAG)
    + If(p.priority != NO_PRIORITY, PRIORITY_FLAG)
  }

  /** The dependency with its top bit set if it is exclusive. */
  function Dependency(p: Priority): uint32 {
    if p.exclusive && p.streamDep < 0x8000_0000 then p.streamDep + 0x8000_0000 else p.streamDep
  }

  function PriorityBytes(p: Priority): seq<byte> {
    Big(Dependency(p), 4) + [p.weight]
  }

  function Zeros(n: nat): (b: seq<byte>)
    ensures |b| == n
  {
    if n == 0 then [] else [0] + Zeros(n - 1)
  }

  function HeadersPayload(p: HeadersParam): seq<byte> {
    (if p.padLength != 0 then [p.padLength] else [])
    + ((if p.priority != NO_PRIORITY then PriorityBytes(p.priority) else [])
       + (p.fragment + Zeros(p.padLength)))
  }

  /** `illegal` is AllowIllegalWrites, which lets stream ids through that the protocol forbids. */
  function WriteHeaders(illegal: bool, p: HeadersParam): Result<seq<byte>, Error> {
    if !illegal && !ValidStreamId(p.streamId) then Err(BadStreamId)
    else if !illegal && p.priority != NO_PRIORITY && !ValidStreamId(p.priority.streamDep) then Err(BadDependency)
    else FrameBytes(HEADERS_TYPE, HeadersFlags(p), p.streamId, HeadersPayload(p))
  }

  function WriteContinuation(illegal: bool, streamId: uint32, endHeaders: bool, fragment: seq<byte>)
    : Result<seq<byte>, Error>
  {
    if !illegal && !ValidStreamId(streamId) then Err(BadStreamId)
    else FrameBytes(CONTINUATION_TYPE, If(endHeaders, END_HEADERS_FLAG), streamId, fragment)
  }

  // ----- reading -----

  datatype Parse<+T> = Done(value: T, rest: seq<byte>) | Bad(error: Error)

  function ReadByte(p: seq<byte>): Parse<byte> {
    if p == [] then Bad(UnexpectedEOF) else Done(p[0], p[1..])
  }

  function ReadPriority(p: seq<byte>): Parse<Priority> {
    if |p| < 5 then Bad(UnexpectedEOF)
    else
      var v := FromBig(p[..4]);
      Done(Priority(v % 0x8000_0000, v != v % 0x8000_0000, p[4]), p[5..])
  }

  function ParseHeaders(fh: FrameHeader, p0: seq<byte>): Result<Frame, Error> {
    if fh.streamId == 0 then Err(ConnectionProtocol)
    else
      match if Has(fh.flags, PADDED_FLAG) then ReadByte(p0) else Done(0, p0)
      case Bad(e) => Err(e)
      case Done(padLength, p1) =>
        match if Has(fh.flags, PRIORITY_FLAG) then ReadPriority(p1) else Done(NO_PRIORITY, p1)
        case Bad(e) => Err(e)
        case Done(priority, p2) =>
          if |p2| <= padLength then Err(StreamProtocol(fh.streamId))
          else Ok(Headers(fh, priority, p2[..|p2| - padLength]))
  }

  function ParsePayload(fh: FrameHeader, payload: seq<byte>): Result<Frame, Error> {
    if fh.frameType == HEADERS_TYPE then ParseHeaders(fh, payload)
    else if fh.frameType == CONTINUATION_TYPE then Ok(Continuation(fh, payload))
    else Ok(Other(fh, payload))
  }

  function ReadHeader(p: seq<byte>): FrameHeader
    requires |p| >= 9
  {
    FrameHeader(FromBig(p[..3]), p[3], p[4], FromBig(p[5..9]) % 0x8000_0000)
  }

  /** One frame off the front of what arrived. */
  function ReadFrame(maxReadSize: nat, p: seq<byte>): (r: Parse<Frame>)
    ensures r.Done? ==> |r.rest| < |p|
  {
    if |p| < 9 then Bad(if p == [] then EOF else UnexpectedEOF)
    else
      var fh := ReadHeader(p);
      if fh.length > maxReadSize then Bad(TooLarge)
      else if fh.length > |p| - 9 then Bad(if |p| == 9 then EOF else UnexpectedEOF)
      else
        match ParsePayload(fh, p[9..9 + fh.length])
        case Err(e) => Bad(e)
        case Ok(f) => Done(f, p[9 + fh.length..])
  }

  function ReadFrames(maxReadSize: nat, p: seq<byte>): Result<seq<Frame>, Error>
    decreases |p|
  {
    if p == [] then Ok([])
    else
      match ReadFrame(maxReadSize, p)
      case Bad(e) => Err(e)
      case Done(f, rest) =>
        var r := ReadFrames(maxReadSize, rest);
        if r.Err? then r else Ok([f] + r.value)
  }

  // ----- one frame comes back -----

  lemma WordsBack(v: uint32)
    ensures FromBig(Big(v, 4)) == v && (v <= MAX_FRAME_SIZE ==> FromBig(Big(v, 3)) == v)
  {
    Powers();
    assert Pow2(24) == 0x100_0000 by { Pow2Adds(8, 16); }
    hide Pow2, Big, FromBig;
    BigBack(v, 4);
    if v <= MAX_FRAME_SIZE { BigBack(v, 3); }
  }

  lemma Slices(a: seq<byte>, b: seq<byte>, c: seq<byte>, d: seq<byte>, e: seq<byte>)
    requires |a| == 3 && |b| == 2 && |c| == 4
    ensures
      var p := a + b + c + d + e;
      && p[..3] == a && p[3] == b[0] && p[4] == b[1] && p[5..9] == c
      && p[9..9 + |d|] == d && p[9 + |d|..] == e
  {
    var h := a + b + c;
    assert h[..3] == a && h[3] == b[0] && h[4] == b[1] && h[5..9] == c;
    assert a + b + c + d + e == h + (d + e);
  }

  lemma HeaderComes(length: nat, frameType: byte, flags: byte, streamId: uint32, payload: seq<byte>, rest: seq<byte>)
    requires ValidStreamId(streamId) && length <= MAX_FRAME_SIZE
    ensures ReadHeader(Big(length, 3) + [frameType, flags] + Big(streamId, 4) + payload + rest)
         == FrameHeader(length, frameType, flags, streamId)
  {
    hide Big, FromBig;
    WordsBack(length);
    WordsBack(streamId);
    Slices(Big(length, 3), [frameType, flags], Big(streamId, 4), payload, rest);
  }

  lemma FrameComes(maxReadSize: nat, frameType: byte, flags: byte, streamId: uint32, payload: seq<byte>,
                   rest: seq<byte>)
    requires ValidStreamId(streamId) && |payload| <= maxReadSize && |payload| <= MAX_FRAME_SIZE
    ensures
      var fh := FrameHeader(|payload|, frameType, flags, streamId);
      ReadFrame(maxReadSize, FrameBytes(frameType, flags, streamId, payload).value + rest)
      == match ParsePayload(fh, payload) case Err(e) => Bad(e) case Ok(f) => Done(f, rest)
  {
    hide Big, ParsePayload, ReadHeader;
    HeaderComes(|payload|, frameType, flags, streamId, payload, rest);
    Slices(Big(|payload|, 3), [frameType, flags], Big(streamId, 4), payload, rest);
  }

  lemma FlagsRead(p: HeadersParam)
    ensures Has(HeadersFlags(p), PADDED_FLAG) == (p.padLength != 0)
    ensures Has(HeadersFlags(p), PRIORITY_FLAG) == (p.priority != NO_PRIORITY)
    ensures Has(HeadersFlags(p), END_STREAM_FLAG) == p.endStream
    ensures Has(HeadersFlags(p), END_HEADERS_FLAG) == p.endHeaders
  {
  }

  lemma Front(a: seq<byte>, b: byte, c: seq<byte>)
    ensures
      var p := a + [b] + c;
      p[..|a|] == a && p[|a|] == b && p[|a| + 1..] == c
  {
  }

  lemma HighBit(p: Priority)
    requires ValidStreamId(p.streamDep)
    ensures
      var v := Dependency(p);
      v % 0x8000_0000 == p.streamDep && (v != p.streamDep) == p.exclusive
  {
  }

  lemma PriorityComes(p: Priority, rest: seq<byte>)
    requires ValidStreamId(p.streamDep)
    ensures ReadPriority(PriorityBytes(p) + rest) == Done(p, rest)
  {
    hide Big, FromBig, Dependency;
    HighBit(p);
    WordsBack(Dependency(p));
    Front(Big(Dependency(p), 4), p.weight, rest);
  }

  /** What follows the optional parts of a HEADERS payload. */
  lemma HeadersParse(fh: FrameHeader, p: HeadersParam)
    requires fh.streamId != 0 && fh.flags == HeadersFlags(p)
    requires p.priority != NO_PRIORITY ==> ValidStreamId(p.priority.streamDep)
    ensures ParseHeaders(fh, HeadersPayload(p))
         == if p.fragment == [] then Err(StreamProtocol(fh.streamId)) else Ok(Headers(fh, p.priority, p.fragment))
  {
    FlagsRead(p);
    var tail := p.fragment + Zeros(p.padLength);
    var middle := (if p.priority != NO_PRIORITY then PriorityBytes(p.priority) else []) + tail;
    if p.priority != NO_PRIORITY {
      PriorityComes(p.priority, tail);
    } else {
      assert [] + tail == tail;
    }
    hide Has, HeadersFlags, PriorityBytes, ReadPriority;
    assert tail[..|tail| - p.padLength] == p.fragment;
    if p.padLength != 0 {
      assert ([p.padLength] + middle)[1..] == middle;
    } else {
      assert [] + middle == middle;
    }
  }

  /** Any HEADERS frame, padded or not, with or without priority: the fragment and all its
      parameters come back, and an empty fragment is a stream error for the reader. */
  lemma HeadersComeBack(maxReadSize: nat, p: HeadersParam, rest: seq<byte>)
    requires WriteHeaders(false, p).Ok? && |HeadersPayload(p)| <= maxReadSize
    ensures
      var fh := FrameHeader(|HeadersPayload(p)|, HEADERS_TYPE, HeadersFlags(p), p.streamId);
      ReadFrame(maxReadSize, WriteHeaders(false, p).value + rest)
      == if p.fragment == [] then Bad(StreamProtocol(p.streamId)) else Done(Headers(fh, p.priority, p.fragment), rest)
  {
    var fh := FrameHeader(|HeadersPayload(p)|, HEADERS_TYPE, HeadersFlags(p), p.streamId);
    HeadersParse(fh, p);
    hide ParseHeaders, HeadersPayload, HeadersFlags, ReadFrame;
    FrameComes(maxReadSize, HEADERS_TYPE, HeadersFlags(p), p.streamId, HeadersPayload(p), rest);
  }

  // ----- which bytes these are -----

  function Three(v: nat): seq<byte> {
    [v / 0x1_0000 % 256, v / 0x100 % 256, v % 256]
  }

  function Four(v: nat): seq<byte> {
    [v / 0x100_0000 % 256, v / 0x1_0000 % 256, v / 0x100 % 256, v % 256]
  }

  /** HEADERS on the wire (sections 4.1 and 6.2 of RFC 7540): three bytes of length, type 1,
      flags 1 (end of the stream), 4 (end of the headers), 8 (padded) and 20 (priority), and the
      stream; then the pad length, the dependency with its exclusive bit, the weight, the
      fragment and the padding. */
  lemma HeadersBytes(p: HeadersParam)
    requires WriteHeaders(false, p).Ok?
    ensures
      var dependency: nat := p.priority.streamDep + if p.priority.exclusive then 0x8000_0000 else 0;
      var prio := if p.priority == Priority(0, false, 0) then [] else Four(dependency) + [p.priority.weight];
      var payload := (if p.padLength == 0 then [] else [p.padLength]) + (prio + (p.fragment + Zeros(p.padLength)));
      var flags := (if p.endStream then 1 else 0) + (if p.endHeaders then 4 else 0)
                   + (if p.padLength != 0 then 8 else 0) + (if prio != [] then 0x20 else 0);
      WriteHeaders(false, p).value == Three(|payload|) + [1, flags] + Four(p.streamId) + payload
  {
    ThreeBytes(|HeadersPayload(p)|);
    FourBytes(p.streamId);
    FourBytes(Dependency(p.priority));
    hide Big, Zeros;
  }

  /** CONTINUATION on the wire (section 6.10): type 9, flag 4 on the last one. */
  lemma ContinuationBytes(streamId: uint32, endHeaders: bool, fragment: seq<byte>)
    requires WriteContinuation(false, streamId, endHeaders, fragment).Ok?
    ensures WriteContinuation(false, streamId, endHeaders, fragment).value
            == Three(|fragment|) + [9, if endHeaders then 4 else 0] + Four(streamId) + fragment
  {
    ThreeBytes(|fragment|);
    FourBytes(streamId);
    hide Big;
  }

  /** The nine bytes of a frame header, read: the reserved bit of the stream is ignored. */
  lemma HeaderRead(p: seq<byte>)
    requires |p| >= 9
    ensures ReadHeader(p) == FrameHeader(
              p[0] as int * 0x1_0000 + p[1] as int * 0x100 + p[2] as int, p[3], p[4],
              (p[5] as int % 0x80) * 0x100_0000 + p[6] as int * 0x1_0000 + p[7] as int * 0x100 + p[8] as int)
  {
    FromThree(p[..3]);
    FromFour(p[5..9]);
    hide FromBig;
    var low := p[6] as int * 0x1_0000 + p[7] as int * 0x100 + p[8] as int;
    ModUnique(p[5] as int * 0x100_0000 + low, 0x8000_0000, p[5] as int / 0x80, (p[5] as int % 0x80) * 0x100_0000 + low);
  }

  lemma FromThree(b: seq<byte>)
    requires |b| == 3
    ensures FromBig(b) == b[0] as int * 0x1_0000 + b[1] as int * 0x100 + b[2] as int
  {
    var c, d := b[..2], b[..2][..1];
    assert FromBig(b) == 256 * FromBig(c) + b[2] && FromBig(c) == 256 * FromBig(d) + b[1];
    assert FromBig(d) == 256 * FromBig(d[..0]) + b[0] && d[..0] == [];
  }

  lemma FromFour(b: seq<byte>)
    requires |b| == 4
    ensures FromBig(b) == b[0] as int * 0x100_0000 + b[1] as int * 0x1_0000 + b[2] as int * 0x100 + b[3] as int
  {
    FromThree(b[..3]);
    assert FromBig(b) == 256 * FromBig(b[..3]) + b[3];
  }

  lemma PriorityRead(p: seq<byte>)
    requires |p| >= 5
    ensures var v := FromBig(p[..4]);
            v < 0x1_0000_0000
            && ReadPriority(p) == Done(Priority(v % 0x8000_0000, v >= 0x8000_0000, p[4]), p[5..])
  {
    Top(p[..4]);
    Powers();
    hide FromBig, Pow2;
  }

  /** A HEADERS payload of any origin: refused on stream 0, when it ends before its optional
      parts do, and when no byte is left in front of the padding. */
  lemma HeadersRead(fh: FrameHeader, p: seq<byte>)
    ensures
      var padded, prioritized := fh.flags / 8 % 2 == 1, fh.flags / 0x20 % 2 == 1;
      var skip := (if padded then 1 else 0) + (if prioritized then 5 else 0);
      var r := ParseHeaders(fh, p);
      if fh.streamId == 0 then r == Err(ConnectionProtocol)
      else if |p| < skip then r == Err(UnexpectedEOF)
      else
        var pad: nat := if padded then p[0] else 0;
        if |p| - skip <= pad then r == Err(StreamProtocol(fh.streamId))
        else
          && r.Ok? && r.value.Headers? && r.value.fh == fh && r.value.fragment == p[skip..|p| - pad]
          && if !prioritized then r.value.priority == Priority(0, false, 0)
             else
               var v := FromBig(p[skip - 5..skip - 1]);
               && r.value.priority.streamDep == v % 0x8000_0000 && r.value.priority.exclusive == (v >= 0x8000_0000)
               && r.value.priority.weight == p[skip - 1]
  {
    var q := if fh.flags / 8 % 2 == 1 && p != [] then p[1..] else p;
    if |q| >= 5 { PriorityRead(q); }
    if |q| < 5 { assert ReadPriority(q) == Bad(UnexpectedEOF); }
    hide FromBig, ReadPriority;
    if fh.flags / 8 % 2 == 1 && |p| >= 6 {
      assert p[1..][..4] == p[1..5] && p[1..][4] == p[5] && p[1..][5..] == p[6..];
    }
  }

  // ----- header blocks -----

  predicate EndsHeaders(f: Frame) {
    Has(f.fh.flags, END_HEADERS_FLAG)
  }

  predicate EndsStream(f: Frame) {
    Has(f.fh.flags, END_STREAM_FLAG)
  }

  function Fragment(block: seq<byte>): seq<byte> {
    if |block| > MAX_FRAGMENT then block[..MAX_FRAGMENT] else block
  }

  /** The splitting loop of writeResHeaders, from some point on: HEADERS for the first piece,
      CONTINUATION for the others. */
  function BlockBytes(streamId: uint32, endStream: bool, block: seq<byte>, first: bool): seq<byte>
    decreases |block|
  {
    if block == [] then []
    else
      var frag := Fragment(block);
      var rest := block[|frag|..];
      PieceBytes(streamId, endStream, frag, rest == [], first) + BlockBytes(streamId, endStream, rest, false)
  }

  function PieceBytes(streamId: uint32, endStream: bool, frag: seq<byte>, last: bool, first: bool): seq<byte>
    requires |frag| <= MAX_FRAGMENT
  {
    if first then WriteHeaders(true, HeadersParam(streamId, frag, endStream, last, 0, NO_PRIORITY)).value
    else WriteContinuation(true, streamId, last, frag).value
  }

  /** f is the frame that one piece travels in. */
  predicate Carries(f: Frame, streamId: uint32, endStream: bool, frag: seq<byte>, last: bool, first: bool) {
    && !f.Other? && f.fragment == frag && f.fh.streamId == streamId && EndsHeaders(f) == last
    && (if first then f.Headers? && f.priority == NO_PRIORITY && EndsStream(f) == endStream else f.Continuation?)
  }

  lemma PieceComes(maxReadSize: nat, streamId: uint32, endStream: bool, frag: seq<byte>, last: bool, first: bool,
                   rest: seq<byte>)
    requires ValidStreamId(streamId) && 0 < |frag| <= MAX_FRAGMENT <= maxReadSize
    ensures
      var r := ReadFrame(maxReadSize, PieceBytes(streamId, endStream, frag, last, first) + rest);
      r.Done? && Carries(r.value, streamId, endStream, frag, last, first) && r.rest == rest
  {
    hide ReadFrame;
    if first {
      var p := HeadersParam(streamId, frag, endStream, last, 0, NO_PRIORITY);
      assert Zeros(0) == [];
      assert HeadersPayload(p) == frag;
      FlagsRead(p);
      HeadersComeBack(maxReadSize, p, rest);
    } else {
      FrameComes(maxReadSize, CONTINUATION_TYPE, If(last, END_HEADERS_FLAG), streamId, frag, rest);
    }
  }

  function Fragments(frames: seq<Frame>): seq<seq<byte>>
    requires forall f :: f in frames ==> !f.Other?
  {
    if frames == [] then [] else [frames[0].fragment] + Fragments(frames[1..])
  }

  /** The frames of a block, in order: pieces of at most 16384 bytes that make up the block,
      HEADERS first and CONTINUATION after, END_HEADERS on the last and on no other. */
  ghost predicate Splits(frames: seq<Frame>, streamId: uint32, endStream: bool, block: seq<byte>, first: bool) {
    && |frames| == (|block| + MAX_FRAGMENT - 1) / MAX_FRAGMENT
    && (forall f :: f in frames ==> !f.Other?)
    && Concat(Fragments(frames)) == block
    && (forall i :: 0 <= i < |frames| ==>
          && 0 < |frames[i].fragment| <= MAX_FRAGMENT
          && Carries(frames[i], streamId, endStream, frames[i].fragment, i == |frames| - 1, first && i == 0))
  }

  lemma SplitsNext(f: Frame, frames: seq<Frame>, streamId: uint32, endStream: bool, block: seq<byte>, first: bool)
    requires block != []
    requires Splits(frames, streamId, endStream, block[|Fragment(block)|..], false)
    requires Carries(f, streamId, endStream, Fragment(block), block[|Fragment(block)|..] == [], first)
    ensures Splits([f] + frames, streamId, endStream, block, first)
  {
    hide Carries;
    var all := [f] + frames;
    assert all[1..] == frames;
    CarriesFragment(f, streamId, endStream, Fragment(block), block[|Fragment(block)|..] == [], first);
    assert Fragments(all)[1..] == Fragments(frames);
    forall i | 0 <= i < |all|
      ensures 0 < |all[i].fragment| <= MAX_FRAGMENT
      ensures Carries(all[i], streamId, endStream, all[i].fragment, i == |all| - 1, first && i == 0)
    {
      if i > 0 { assert all[i] == frames[i - 1]; }
    }
  }

  lemma CarriesFragment(f: Frame, streamId: uint32, endStream: bool, frag: seq<byte>, last: bool, first: bool)
    requires Carries(f, streamId, endStream, frag, last, first)
    ensures !f.Other? && f.fragment == frag
  {
  }

  /** A header block written, read and parsed arrives as frames that make it up again. */
  lemma {:induction false} BlockArrives(maxReadSize: nat, streamId: uint32, endStream: bool, block: seq<byte>,
                                        first: bool)
    requires ValidStreamId(streamId) && MAX_FRAGMENT <= maxReadSize
    ensures
      var r := ReadFrames(maxReadSize, BlockBytes(streamId, endStream, block, first));
      r.Ok? && Splits(r.value, streamId, endStream, block, first)
    decreases |block|
  {
    hide ReadFrame, PieceBytes, Carries;
    if block != [] {
      var frag := Fragment(block);
      var rest := block[|frag|..];
      var later := BlockBytes(streamId, endStream, rest, false);
      PieceComes(maxReadSize, streamId, endStream, frag, rest == [], first, later);
      BlockArrives(maxReadSize, streamId, endStream, rest, false);
      var p := PieceBytes(streamId, endStream, frag, rest == [], first) + later;
      var f := ReadFrame(maxReadSize, p).value;
      var frames := ReadFrames(maxReadSize, later).value;
      SplitsNext(f, frames, streamId, endStream, block, first);
    }
  }
}
