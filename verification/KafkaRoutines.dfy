/** Kafka's encoders as they run: a counter, a buffer with a stack of fields to patch, the two
    passes of encode, and the decoder. */
module KafkaRoutines {
  import opened Wrappers
  import opened Base128
  import opened BigEndian
  import opened KafkaWire
  import opened KafkaMessage

  /** prepEncoder */
  class PrepEncoder {
    var length: nat

    constructor ()
      ensures length == 0
    {
      length := 0;
    }

    method PutArrayLength(n: nat) returns (ok: bool)
      modifies this
      ensures ok == (n <= MAX_INT32) && (ok ==> length == old(length) + 4)
    {
      if n > MAX_INT32 { return false; }
      length := length + 4;
      ok := true;
    }

    method PutBytes(b: Option<seq<byte>>) returns (ok: bool)
      modifies this
      ensures ok == !TooLong(Bytes(b)) && (ok ==> length == old(length) + Size(Bytes(b)))
    {
      length := length + 4;
      if b.None? { return true; }
      if |b.value| > MAX_INT32 { return false; }
      length := length + |b.value|;
      ok := true;
    }

    method PutRawBytes(b: seq<byte>) returns (ok: bool)
      modifies this
      ensures ok == (|b| <= MAX_INT32) && (ok ==> length == old(length) + |b|)
    {
      if |b| > MAX_INT32 { return false; }
      length := length + |b|;
      ok := true;
    }

    method PutString(s: seq<byte>) returns (ok: bool)
      modifies this
      ensures ok == (|s| <= MAX_INT16) && (ok ==> length == old(length) + 2 + |s|)
    {
      length := length + 2;
      if |s| > MAX_INT16 { return false; }
      length := length + |s|;
      ok := true;
    }

    /** One call: a number or a field only moves the counter, the others may refuse. */
    method Take(call: Call) returns (ok: bool)
      requires call.Put? ==> Simple(call.node)
      modifies this
      ensures ok == !(call.Put? && TooLong(call.node))
      ensures ok ==> length == old(length) + match call case Put(node) => Size(node) case Pop => 0 case _ => 4
    {
      ok := true;
      match call {
        case Pop =>
        case PushLength => length := length + 4;
        case PushCrc => length := length + 4;
        case Put(node) =>
          match node {
            case Int8(_) => length := length + 1;
            case Int16(_) => length := length + 2;
            case Int32(_) => length := length + 4;
            case Int64(_) => length := length + 8;
            case ArrayLength(n) => ok := PutArrayLength(n);
            case Raw(b) => ok := PutRawBytes(b);
            case Bytes(b) => ok := PutBytes(b);
            case Str(s) => ok := PutString(s);
          }
      }
    }

    method TakeAll(calls: seq<Call>) returns (ok: bool)
      requires forall c :: c in calls && c.Put? ==> Simple(c.node)
      modifies this
      ensures Prep(calls, old(length)) == if ok then Ok(length) else Err(EncodingError)
    {
      ghost var goal := Prep(calls, length);
      assert calls[0..] == calls;
      for i := 0 to |calls|
        invariant goal == Prep(calls[i..], length)
      {
        assert calls[i] in calls && calls[i..][1..] == calls[i + 1..];
        ok := Take(calls[i]);
        if !ok { return false; }
      }
      ok := true;
    }
  }

  /** realEncoder. The requirements of its methods are the bounds that Go checks. */
  class RealEncoder {
    const raw: array<byte>
    var off: nat
    var stack: seq<Pushed>

    ghost function State(): Real
      reads this, raw
    {
      Real(raw[..], off, stack)
    }

    constructor (length: nat)
      ensures State() == Fresh(length) && fresh(raw)
    {
      raw := new byte[length](_ => 0);
      off, stack := 0, [];
      new;
      assert raw[..] == Fresh(length).raw;
    }

    method StoreAt(start: nat, b: seq<byte>)
      requires start + |b| <= raw.Length
      modifies raw
      ensures raw[..] == old(raw[..start]) + b + old(raw[start + |b|..])
    {
      for i := 0 to |b|
        invariant raw[..] == old(raw[..start]) + b[..i] + old(raw[start + i..])
      {
        ghost var was := raw[..];
        raw[start + i] := b[i];
        assert raw[..] == was[start + i := b[i]];
        assert b[..i + 1] == b[..i] + [b[i]];
      }
      assert b[..|b|] == b;
    }

    method PutNumber(b: seq<byte>)
      requires Store(State(), b).Some?
      modifies this, raw
      ensures Some(State()) == Store(old(State()), b)
    {
      StoreAt(off, b);
      off := off + |b|;
    }

    method PutRawBytes(b: seq<byte>)
      requires Copy(State(), b).Some?
      modifies this, raw
      ensures Some(State()) == Copy(old(State()), b)
    {
      var n := if off + |b| <= raw.Length then |b| else raw.Length - off;
      ghost var was := raw[..];
      StoreAt(off, b[..n]);
      assert raw[..] == was[..off] + b[..n] + was[off + n..];
      if n == |b| {
        assert b[..n] == b;
      } else {
        assert raw[..] == was[..off] + b[..n];
      }
      off := off + |b|;
    }

    method PutBytes(b: Option<seq<byte>>)
      requires PutNode(State(), Bytes(b)).Some?
      modifies this, raw
      ensures Some(State()) == PutNode(old(State()), Bytes(b))
    {
      if b.None? {
        PutNumber(SignedBig(-1, 4));
      } else {
        PutNumber(SignedBig(|b.value|, 4));
        PutRawBytes(b.value);
      }
    }

    method PutString(s: seq<byte>)
      requires PutNode(State(), Str(s)).Some?
      modifies this, raw
      ensures Some(State()) == PutNode(old(State()), Str(s))
    {
      PutNumber(SignedBig(|s|, 2));
      PutRawBytes(s);
    }

    method PushField(crc: bool)
      modifies this
      ensures State() == Push(old(State()), crc)
    {
      var startOffset := off;
      off := off + 4;
      stack := stack + [Pushed(crc, startOffset)];
    }

    method PopPatch(crc: Checksum)
      requires PopField(crc, State()).Some?
      modifies this, raw
      ensures Some(State()) == PopField(crc, old(State()))
    {
      var f := stack[|stack| - 1];
      stack := stack[..|stack| - 1];
      var v: nat := if f.crc then crc(raw[f.startOffset + 4..off]) else (off - f.startOffset - 4) % 0x1_0000_0000;
      assert f.crc ==> raw[f.startOffset + 4..off] == raw[..][f.startOffset + 4..off];
      StoreAt(f.startOffset, Big(v, 4));
    }

    method Take(crc: Checksum, call: Call)
      requires call.Put? ==> Simple(call.node)
      requires Step(crc, State(), call).Some?
      modifies this, raw
      ensures Some(State()) == Step(crc, old(State()), call)
    {
      hide Store, Copy, Then, Push, PopField, SignedBig;
      match call {
        case Pop => PopPatch(crc);
        case PushLength => PushField(false);
        case PushCrc => PushField(true);
        case Put(node) =>
          match node {
            case Int8(v) => PutNumber(SignedBig(v, 1));
            case Int16(v) => PutNumber(SignedBig(v, 2));
            case Int32(v) => PutNumber(SignedBig(v, 4));
            case Int64(v) => PutNumber(SignedBig(v, 8));
            case ArrayLength(n) => PutNumber(SignedBig(n, 4));
            case Raw(b) => PutRawBytes(b);
            case Bytes(b) => PutBytes(b);
            case Str(s) => PutString(s);
          }
      }
    }

    method TakeAll(crc: Checksum, calls: seq<Call>)
      requires forall c :: c in calls && c.Put? ==> Simple(c.node)
      requires Run(crc, State(), calls).Some?
      modifies this, raw
      ensures Some(State()) == Run(crc, old(State()), calls)
    {
      hide Step;
      ghost var goal := Run(crc, State(), calls);
      assert calls[0..] == calls;
      for i := 0 to |calls|
        invariant goal == Run(crc, State(), calls[i..])
      {
        assert calls[i] in calls && calls[i..][1..] == calls[i + 1..];
        Take(crc, calls[i]);
      }
    }
  }

  /** encode: the calls of both passes come from the same request, in any orders of its maps. */
  method Encode(crc: Checksum, first: Node, second: Node) returns (r: Result<seq<byte>, Error>)
    requires Reordered(first, second)
    ensures r == if TooLong(second) || Size(second) > MAX_REQUEST_SIZE then Err(EncodingError)
                 else Ok(Render(crc, second))
  {
    ReorderedSize(first, second);
    TwoPasses(crc, first, second);
    var prepEnc := new PrepEncoder();
    var ok := prepEnc.TakeAll(Calls(first));
    if !ok { return Err(EncodingError); }
    if prepEnc.length > MAX_REQUEST_SIZE { return Err(EncodingError); }
    var realEnc := new RealEncoder(prepEnc.length);
    realEnc.TakeAll(crc, Calls(second));
    return Ok(realEnc.raw[..]);
  }

  // ----- the decoder -----

  datatype Got<+T> = Value(value: T) | Insufficient | Invalid

  class RealDecoder {
    const raw: seq<byte>
    var off: nat
    var stack: seq<Pushed>

    ghost predicate Valid()
      reads this
    {
      off <= |raw|
    }

    function Rest(): seq<byte>
      requires Valid()
      reads this
    {
      raw[off..]
    }

    constructor (raw: seq<byte>)
      ensures Valid() && this.raw == raw && off == 0 && stack == []
    {
      this.raw, off, stack := raw, 0, [];
    }

    /** The outcome of a getter, against the parse of what was left: it moves behind what it
        took, and to the end when there was too little. */
    ghost predicate Answers<T>(r: Parse<T>, got: Got<T>)
      reads this
    {
      && Valid()
      && match r
         case Done(v, rest) => got == Value(v) && Rest() == rest
         case Short => got == Insufficient && off == |raw|
         case Bad => got == Invalid
    }

    method GetNumber(n: nat) returns (got: Got<int>)
      requires Valid() && n in {1, 2, 4, 8}
      modifies this
      ensures Answers(GetInt(old(Rest()), n), got) && stack == old(stack)
    {
      if |raw| - off < n {
        off := |raw|;
        return Insufficient;
      }
      var tmp := FromSignedBig(raw[off..off + n]);
      assert raw[off..off + n] == raw[off..][..n];
      off := off + n;
      return Value(tmp);
    }

    method GetByteSlice() returns (got: Got<Option<seq<byte>>>)
      requires Valid()
      modifies this
      ensures Answers(GetBytes(old(Rest())), got) && stack == old(stack)
    {
      hide GetInt;
      var tmp := GetNumber(4);
      if tmp.Insufficient? { return Insufficient; }
      var n := tmp.value;
      if n < -1 { return Invalid; }
      if n == -1 { return Value(None); }
      if n == 0 { return Value(Some([])); }
      if n > |raw| - off {
        off := |raw|;
        return Insufficient;
      }
      var s := raw[off..off + n];
      assert s == raw[off..][..n];
      off := off + n;
      return Value(Some(s));
    }

    method PushField(isCrc: bool) returns (ok: bool)
      requires Valid()
      modifies this
      ensures Valid() && ok == (|old(Rest())| >= 4)
      ensures ok ==> off == old(off) + 4 && stack == old(stack) + [Pushed(isCrc, old(off))]
      ensures !ok ==> off == |raw|
    {
      var startOffset := off;
      if |raw| - off < 4 {
        off := |raw|;
        return false;
      }
      stack := stack + [Pushed(isCrc, startOffset)];
      off := off + 4;
      ok := true;
    }

    method PopCheck(crc: Checksum) returns (ok: bool)
      requires Valid() && stack != [] && stack[|stack| - 1].startOffset + 4 <= off
      modifies this
      ensures Valid() && off == old(off) && stack == old(stack)[..|old(stack)| - 1]
      ensures var f := old(stack)[|old(stack)| - 1];
              ok == (FieldValue(crc, f.crc, raw[f.startOffset + 4..off])
                     == FromBig(raw[f.startOffset..f.startOffset + 4]))
    {
      var f := stack[|stack| - 1];
      stack := stack[..|stack| - 1];
      ok := FieldValue(crc, f.crc, raw[f.startOffset + 4..off]) == FromBig(raw[f.startOffset..f.startOffset + 4]);
    }

    /** The last part of Message.decode: key, value, and only then the codec. */
    method DecodePair(attribute: int) returns (got: Got<Msg>)
      requires Valid()
      modifies this
      ensures Answers(GetPair(attribute, old(Rest())), got) && stack == old(stack)
    {
      hide GetBytes;
      var key := GetByteSlice();
      if key.Insufficient? { return Insufficient; }
      if key.Invalid? { return Invalid; }
      var value := GetByteSlice();
      if value.Insufficient? { return Insufficient; }
      if value.Invalid? { return Invalid; }
      if attribute % 4 != 0 { return Invalid; }
      return Value(Msg(0, key.value, value.value));
    }

    method DecodeContent() returns (got: Got<Msg>)
      requires Valid()
      modifies this
      ensures Answers(GetContent(old(Rest())), got) && stack == old(stack)
    {
      hide GetInt, GetPair;
      var format := GetNumber(1);
      if format.Insufficient? { return Insufficient; }
      if format.value != 0 { return Invalid; }
      var attribute := GetNumber(1);
      if attribute.Insufficient? { return Insufficient; }
      got := DecodePair(attribute.value);
    }

    /** Message.decode, for messages that are not compressed. */
    method DecodeMessage(crc: Checksum) returns (got: Got<Msg>)
      requires Valid()
      modifies this
      ensures Answers(GetMessage(crc, old(Rest())), got) && (got.Value? ==> stack == old(stack))
    {
      hide GetContent, FieldValue, FromBig;
      ghost var start, p := off, Rest();
      var ok := PushField(true);
      if !ok { return Insufficient; }
      assert Rest() == p[4..];
      got := DecodeContent();
      if !got.Value? { return; }
      Covered(raw, start, off);
      ok := PopCheck(crc);
      if !ok { return Invalid; }
    }

    /** MessageBlock.decode */
    method DecodeBlock(crc: Checksum) returns (got: Got<Block>)
      requires Valid()
      modifies this
      ensures Answers(GetBlock(crc, old(Rest())), got) && (got.Value? ==> stack == old(stack))
    {
      hide GetInt, GetMessage, FieldValue, FromBig;
      var offset := GetNumber(8);
      if offset.Insufficient? { return Insufficient; }
      ghost var start, p := off, Rest();
      var ok := PushField(false);
      if !ok { return Insufficient; }
      assert Rest() == p[4..];
      var msg := DecodeMessage(crc);
      if msg.Insufficient? { return Insufficient; }
      if msg.Invalid? { return Invalid; }
      Covered(raw, start, off);
      ok := PopCheck(crc);
      if !ok { return Invalid; }
      Powers();
      return Value(Block(offset.value, msg.value));
    }
  }

  /** The bytes between two offsets, seen from what was left at the first. */
  lemma Covered(raw: seq<byte>, start: nat, off: nat)
    requires start + 4 <= off <= |raw|
    ensures var p := raw[start..];
            p[4..|p| - |raw[off..]|] == raw[start + 4..off] && p[..4] == raw[start..start + 4]
  {
  }

  /** The flag is only ever set: decoding into a used set does not clear it. */
  class MessageSet {
    var partialTrailingMessage: bool
    var messages: seq<Block>

    constructor ()
      ensures !partialTrailingMessage && messages == []
    {
      partialTrailingMessage, messages := false, [];
    }

    method Decode(crc: Checksum, pd: RealDecoder) returns (ok: bool)
      requires pd.Valid()
      modifies this, pd
      ensures
        var d := GetSet(crc, old(pd.Rest()));
        && ok == !d.failed && messages == d.messages
        && partialTrailingMessage == (old(partialTrailingMessage) || d.partial)
      ensures pd.Valid() && (ok ==> pd.off == |pd.raw|)
    {
      hide GetBlock;
      ghost var goal := GetSet(crc, pd.Rest());
      messages := [];
      while |pd.raw| - pd.off > 0
        invariant pd.Valid() && partialTrailingMessage == old(partialTrailingMessage)
        invariant goal == (var d := GetSet(crc, pd.Rest()); d.(messages := messages + d.messages))
        decreases |pd.Rest()|
      {
        ghost var p := pd.Rest();
        var msb := pd.DecodeBlock(crc);
        if msb.Insufficient? {
          partialTrailingMessage := true;
          return true;
        }
        if msb.Invalid? { return false; }
        ghost var later := GetSet(crc, pd.Rest()).messages;
        assert messages + ([msb.value] + later) == (messages + [msb.value]) + later;
        messages := messages + [msb.value];
      }
      ok := true;
    }
  }

  /** decode: the set must use the buffer up, which a partial message at the end also does. */
  method DecodeAll(crc: Checksum, buf: seq<byte>, set0: MessageSet) returns (ok: bool)
    modifies set0
    ensures
      var d := GetSet(crc, buf);
      && ok == !d.failed && set0.messages == d.messages
      && set0.partialTrailingMessage == (old(set0.partialTrailingMessage) || d.partial)
  {
    var helper := new RealDecoder(buf);
    assert helper.Rest() == buf;
    ok := set0.Decode(crc, helper);
    if !ok { return false; }
    if helper.off != |buf| { return false; }
  }
}
