/** The framer as it runs, the splitting loop over it, and a header list from the HPACK encoder
    through frames to the HPACK decoder. */
module FramesRoutines {
  import opened Wrappers
  import opened Base128
  import opened BigEndian
  import opened Frames
  import Hpack
  import HpackLockStep
  import HpackFragments

  class Framer {
    var wbuf: seq<byte>
    /** What was handed to the writer. */
    var written: seq<byte>
    /** What the reader has still to give. */
    var input: seq<byte>
    const maxReadSize: nat
    const allowIllegalWrites: bool

    constructor (input: seq<byte>, maxReadSize: nat, allowIllegalWrites: bool)
      ensures written == [] && this.input == input && this.maxReadSize == maxReadSize
      ensures this.allowIllegalWrites == allowIllegalWrites
    {
      wbuf, written, this.input, this.maxReadSize := [], [], input, maxReadSize;
      this.allowIllegalWrites := allowIllegalWrites;
    }

    /** Three bytes of length are left to be filled in. */
    method StartWrite(frameType: byte, flags: byte, streamId: uint32)
      modifies this`wbuf
      ensures wbuf == [0, 0, 0] + [frameType, flags] + Big(streamId, 4)
    {
      wbuf := [0, 0, 0, frameType, flags] + Big(streamId, 4);
    }

    method EndWrite() returns (r: Option<Error>)
      requires |wbuf| >= 9
      modifies this`wbuf, this`written
      ensures |old(wbuf)| - 9 > MAX_FRAME_SIZE ==> r == Some(TooLarge) && written == old(written)
      ensures |old(wbuf)| - 9 <= MAX_FRAME_SIZE ==>
                r == None && written == old(written) + (Big(|old(wbuf)| - 9, 3) + old(wbuf)[3..])
    {
      var length := |wbuf| - 9;
      if length >= 0x100_0000 { return Some(TooLarge); }
      ThreeBytes(length);
      wbuf := [length / 0x1_0000 % 256, length / 0x100 % 256, length % 256] + wbuf[3..];
      written := written + wbuf;
      return None;
    }

    /** startWrite, the payload, endWrite: one Write of one frame. */
    ghost predicate Wrote(frame: Result<seq<byte>, Error>, before: seq<byte>, r: Option<Error>)
      reads this`written
    {
      if frame.Err? then r == Some(frame.error) && written == before
      else r == None && written == before + frame.value
    }

    method PutPriority(p: Priority)
      modifies this`wbuf
      ensures wbuf == old(wbuf) + PriorityBytes(p)
    {
      hide Big;
      var v: nat := p.streamDep;
      if p.exclusive && v < 0x8000_0000 { v := v + 0x8000_0000; }
      wbuf := wbuf + Big(v, 4);
      wbuf := wbuf + [p.weight];
    }

    method WriteHeadersFrame(p: HeadersParam) returns (r: Option<Error>)
      modifies this`wbuf, this`written
      ensures Wrote(WriteHeaders(allowIllegalWrites, p), old(written), r)
    {
      hide Big, PriorityBytes, Zeros;
      if !ValidStreamId(p.streamId) && !allowIllegalWrites { return Some(BadStreamId); }
      var flags: nat := 0;
      if p.padLength != 0 { flags := flags + PADDED_FLAG; }
      if p.endStream { flags := flags + END_STREAM_FLAG; }
      if p.endHeaders { flags := flags + END_HEADERS_FLAG; }
      if p.priority != NO_PRIORITY { flags := flags + PRIORITY_FLAG; }
      assert flags == HeadersFlags(p);
      hide HeadersFlags;
      StartWrite(HEADERS_TYPE, flags, p.streamId);
      ghost var head := wbuf;
      ghost var pad := if p.padLength != 0 then [p.padLength] else [];
      if p.padLength != 0 { wbuf := wbuf + [p.padLength]; }
      assert wbuf == head + pad;
      ghost var prio: seq<byte> := [];
      if p.priority != NO_PRIORITY {
        if !ValidStreamId(p.priority.streamDep) && !allowIllegalWrites { return Some(BadDependency); }
        prio := PriorityBytes(p.priority);
        PutPriority(p.priority);
      }
      assert wbuf == head + pad + prio;
      wbuf := wbuf + p.fragment;
      wbuf := wbuf + Zeros(p.padLength);
      Gathered(head, pad, prio, p.fragment, Zeros(p.padLength));
      assert HeadersPayload(p) == pad + (prio + (p.fragment + Zeros(p.padLength)));
      FrameEnds(HEADERS_TYPE, flags, p.streamId, HeadersPayload(p));
      hide HeadersPayload;
      r := EndWrite();
    }

    method WriteContinuationFrame(streamId: uint32, endHeaders: bool, fragment: seq<byte>) returns (r: Option<Error>)
      modifies this`wbuf, this`written
      ensures Wrote(WriteContinuation(allowIllegalWrites, streamId, endHeaders, fragment), old(written), r)
    {
      hide Big;
      if !ValidStreamId(streamId) && !allowIllegalWrites { return Some(BadStreamId); }
      var flags: nat := 0;
      if endHeaders { flags := END_HEADERS_FLAG; }
      StartWrite(CONTINUATION_TYPE, flags, streamId);
      wbuf := wbuf + fragment;
      FrameEnds(CONTINUATION_TYPE, flags, streamId, fragment);
      r := EndWrite();
    }

    /** The loop of writeResHeaders. An empty block is a panic there. */
    method WriteHeaderBlock(streamId: uint32, endStream: bool, block: seq<byte>) returns (r: Option<Error>)
      requires block != []
      modifies this`wbuf, this`written
      ensures if ValidStreamId(streamId) || allowIllegalWrites then
                r == None && written == old(written) + BlockBytes(streamId, endStream, block, true)
              else r == Some(BadStreamId) && written == old(written)
    {
      var headerBlock, first := block, true;
      ghost var start, legal := written, ValidStreamId(streamId) || allowIllegalWrites;
      while headerBlock != []
        invariant !legal ==> first && written == start && headerBlock != []
        invariant legal ==>
                    written + BlockBytes(streamId, endStream, headerBlock, first)
                    == start + BlockBytes(streamId, endStream, block, true)
        decreases |headerBlock|
      {
        ghost var before, block0, first0 := written, headerBlock, first;
        var frag := headerBlock;
        if |frag| > MAX_FRAGMENT { frag := frag[..MAX_FRAGMENT]; }
        headerBlock := headerBlock[|frag|..];
        var endHeaders := headerBlock == [];
        assert Zeros(0) == [];
        if first {
          first := false;
          r := WriteHeadersFrame(HeadersParam(streamId, frag, endStream, endHeaders, 0, NO_PRIORITY));
        } else {
          r := WriteContinuationFrame(streamId, endHeaders, frag);
        }
        if r.Some? { return; }
        ghost var later := BlockBytes(streamId, endStream, headerBlock, false);
        PieceWritten(allowIllegalWrites, streamId, endStream, frag, endHeaders, first0);
        Joined(before, PieceBytes(streamId, endStream, frag, endHeaders, first0), later);
      }
      return None;
    }

    method ReadNext() returns (r: Result<Frame, Error>)
      modifies this`input
      ensures
        var p := ReadFrame(maxReadSize, old(input));
        if p.Done? then r == Ok(p.value) && input == p.rest else r == Err(p.error)
    {
      hide ParsePayload, ReadHeader;
      if |input| < 9 { return Err(if input == [] then EOF else UnexpectedEOF); }
      var fh := ReadHeader(input);
      if fh.length > maxReadSize { return Err(TooLarge); }
      if fh.length > |input| - 9 { return Err(if |input| == 9 then EOF else UnexpectedEOF); }
      var payload := input[9..9 + fh.length];
      input := input[9 + fh.length..];
      r := ParsePayload(fh, payload);
    }
  }

  lemma Gathered(a: seq<byte>, b: seq<byte>, c: seq<byte>, d: seq<byte>, e: seq<byte>)
    ensures a + b + c + d + e == a + (b + (c + (d + e)))
  {
    Joined(a + b + c, d, e);
    Joined(a + b, c, d + e);
    Joined(a, b, c + (d + e));
  }

  lemma FrameEnds(frameType: byte, flags: byte, streamId: uint32, payload: seq<byte>)
    ensures
      var w := [0, 0, 0] + [frameType, flags] + Big(streamId, 4) + payload;
      |w| == 9 + |payload|
      && Big(|payload|, 3) + w[3..] == Big(|payload|, 3) + [frameType, flags] + Big(streamId, 4) + payload
  {
    hide Big;
    var w := [0, 0, 0] + [frameType, flags] + Big(streamId, 4) + payload;
    assert w[3..] == [frameType, flags] + Big(streamId, 4) + payload;
  }

  /** With a valid stream id, or when illegal writes are allowed, no piece is refused. */
  lemma PieceWritten(illegal: bool, streamId: uint32, endStream: bool, frag: seq<byte>, last: bool, first: bool)
    requires |frag| <= MAX_FRAGMENT && (illegal || ValidStreamId(streamId))
    ensures (if first then WriteHeaders(illegal, HeadersParam(streamId, frag, endStream, last, 0, NO_PRIORITY))
             else WriteContinuation(illegal, streamId, last, frag))
            == Ok(PieceBytes(streamId, endStream, frag, last, first))
  {
    assert Zeros(0) == [];
  }

  // ----- end to end -----

  /** A header list, encoded, split over frames, written, read and parsed: the fragments fed
      to the HPACK decoder one by one give back exactly the list, with nothing left over. */
  lemma HeaderListArrives(t: Hpack.Tables, e: Hpack.Encoder, d: Hpack.Decoder, ops: seq<HpackLockStep.Op>,
                          maxReadSize: nat, streamId: uint32, endStream: bool)
    requires Hpack.GoodTables(t) && HpackLockStep.Follows(e, d)
    requires forall op :: op in ops ==> HpackLockStep.Allowed(op, d)
    requires ValidStreamId(streamId) && MAX_FRAGMENT <= maxReadSize
    ensures
      var block := HpackLockStep.Calls(t, e, ops).0;
      var r := ReadFrames(maxReadSize, BlockBytes(streamId, endStream, block, true));
      && r.Ok? && Splits(r.value, streamId, endStream, block, true)
      && (var w := HpackFragments.WriteAll(t, d, Fragments(r.value));
          w.error == None && w.emitted == HpackLockStep.Fields(ops) && w.decoder.saved == [])
  {
    hide Hpack.GoodTables, HpackLockStep.Follows, HpackLockStep.Calls, HpackLockStep.Allowed, HpackFragments.WriteAll,
         ReadFrames, BlockBytes, Carries;
    HpackLockStep.CodesSize(t);
    var block := HpackLockStep.Calls(t, e, ops).0;
    BlockArrives(maxReadSize, streamId, endStream, block, true);
    var frames := ReadFrames(maxReadSize, BlockBytes(streamId, endStream, block, true)).value;
    HpackFragments.PiecesOfWhatWasWritten(t, e, d, ops, Fragments(frames));
  }
}
