/** Protocol buffers as they run: a buffer that grows by appending, an embedded message written
    first and then shifted to fit its length, and a decoder that changes buffers to descend. */
module ProtoRoutines {
  import opened Wrappers
  import opened Base128
  import opened Proto

  method SizeOfVarintLoop(x0: nat) returns (n: nat)
    ensures n == |Encode(x0)|
  {
    var x := x0;
    n := 1;
    while x / 128 != 0
      invariant n - 1 + |Encode(x)| == |Encode(x0)|
    {
      x := x / 128;
      n := n + 1;
    }
  }

  /** Slices of a slice. */
  lemma Slices(s: seq<byte>, len: nat, at: nat, n: nat)
    requires at + n <= len <= |s|
    ensures s[..len][..at] == s[..at] && s[..len][at..at + n] == s[at..at + n]
  {
  }

  lemma SlicesBefore(a: seq<byte>, b: seq<byte>, at: nat)
    requires at <= |a|
    ensures (a + b)[..at] == a[..at] && (a + b)[at..|a|] == a[at..]
  {
  }

  /** Where the parts are after a move of n bytes to the right. */
  lemma Moved(s: seq<byte>, from: nat, to: nat, n: nat)
    requires from <= to && to + n <= |s|
    ensures
      var r := s[..to] + s[from..from + n] + s[to + n..];
      r[..from] == s[..from] && r[to..to + n] == s[from..from + n]
  {
  }

  /** A slice that append grows: in place while the array has room behind it, else by moving
      the contents to a larger array. */
  class Buffer {
    var buf: array<byte>
    var len: nat

    ghost predicate Valid()
      reads this
    {
      len <= buf.Length
    }

    ghost function Contents(): (s: seq<byte>)
      requires Valid()
      reads this, buf
    {
      buf[..len]
    }

    constructor ()
      ensures Valid() && Contents() == [] && fresh(buf)
    {
      buf := new byte[0];
      len := 0;
    }

    /** append(buf, b...) */
    method Append(b: seq<byte>)
      requires Valid()
      modifies this, buf
      ensures Valid() && Contents() == old(Contents()) + b
      ensures old(len) + |b| <= old(buf.Length) ==>
                buf == old(buf) && buf[len..] == old(buf[len + |b|..])
      ensures buf == old(buf) || fresh(buf)
    {
      if len + |b| > buf.Length {
        var bigger := new byte[2 * (len + |b|)](_ => 0);
        forall i | 0 <= i < len { bigger[i] := buf[i]; }
        assert bigger[..len] == buf[..len];
        buf := bigger;
      }
      ghost var was := buf[..len];
      forall i | 0 <= i < |b| { buf[len + i] := b[i]; }
      assert buf[..len + |b|] == was + b;
      len := len + |b|;
    }

    /** copy(buf[to:], buf[from:from+n]), which copes with overlap. */
    method Move(to: nat, from: nat, n: nat)
      requires to + n <= buf.Length && from + n <= buf.Length
      modifies buf
      ensures buf[..] == old(buf[..to]) + old(buf[from..from + n]) + old(buf[to + n..])
    {
      forall i | 0 <= i < n { buf[to + i] := buf[from + i]; }
      assert buf[to..to + n] == old(buf[from..from + n]);
    }

    method EncodeVarint(x0: nat)
      requires Valid()
      modifies this, buf
      ensures Valid() && Contents() == old(Contents()) + Encode(x0)
      ensures old(len) + |Encode(x0)| <= old(buf.Length) ==>
                buf == old(buf) && buf[len..] == old(buf[len + |Encode(x0)|..])
      ensures buf == old(buf) || fresh(buf)
    {
      ghost var start, arr, cap, all, n := Contents(), buf, buf.Length, buf[..], |Encode(x0)|;
      ghost var len0 := len;
      var x := x0;
      while x >= 128
        invariant Valid() && (buf == arr || fresh(buf))
        invariant Contents() + Encode(x) == start + Encode(x0)
        invariant len0 + n <= cap ==> buf == arr && buf[len..] == all[len..] && len0 <= len
      {
        ghost var before, tail := Contents(), Encode(x / 128);
        Append([x % 128 + 128]);
        assert Contents() + tail == before + ([x % 128 + 128] + tail);
        x := x / 128;
      }
      Append([x]);
    }

    /** Enough bytes behind the message, and the message moved right over them. */
    method MoveRight(iMsg: nat, x: nat)
      requires Valid() && iMsg <= len
      modifies this, buf
      ensures Valid() && (buf == old(buf) || fresh(buf)) && len == old(len) + x
      ensures buf[..iMsg] == old(buf[..iMsg]) && buf[iMsg + x..len] == old(buf[iMsg..len])
    {
      ghost var all := buf[..len];
      var lMsg := len - iMsg;
      Append(Nulls(x));
      Slices(buf[..], len, iMsg, lMsg);
      Slices(all + Nulls(x), len, iMsg, lMsg);
      SlicesBefore(all, Nulls(x), iMsg);
      ghost var grown := buf[..];
      Move(iMsg + x, iMsg, lMsg);
      Moved(grown, iMsg, iMsg + x, lMsg);
    }

    method MoveLeft(iMsg: nat, x: nat)
      requires Valid() && x <= iMsg <= len
      modifies this, buf
      ensures Valid() && buf == old(buf) && len == old(len) - x
      ensures buf[..iMsg - x] == old(buf[..iMsg - x]) && buf[iMsg - x..len] == old(buf[iMsg..len])
    {
      var lMsg := len - iMsg;
      Move(iMsg - x, iMsg, lMsg);
      len := len - x;
    }

    /** The message moves so that lLen bytes instead of four stand before it. */
    method FitLength(iLen: nat, lLen: nat)
      requires Valid() && iLen + 4 <= len && 0 < lLen
      modifies this, buf
      ensures Valid() && (buf == old(buf) || fresh(buf)) && len == old(len) + lLen - 4
      ensures buf[..iLen] == old(buf[..iLen]) && buf[iLen + lLen..len] == old(buf[iLen + 4..len])
    {
      var iMsg := iLen + 4;
      ghost var all := buf[..];
      if lLen > 4 {
        MoveRight(iMsg, lLen - 4);
        Slices(all, iMsg, 0, iLen);
        Slices(buf[..], iMsg, 0, iLen);
      } else if lLen < 4 {
        MoveLeft(iMsg, 4 - lLen);
        Slices(all, iLen + lLen, 0, iLen);
        Slices(buf[..], iLen + lLen, 0, iLen);
      }
    }

    /** The length is written over what was reserved: the appends stay in place, because the
        array still holds the message behind, and they never reach into it. */
    method PutLength(iLen: nat, lLen: nat, lMsg: nat)
      requires Valid() && lLen == |Encode(lMsg)| && iLen + lLen + lMsg <= len
      modifies this, buf
      ensures Valid() && buf == old(buf)
      ensures Contents() == old(buf[..iLen]) + Prefixed(old(buf[iLen + lLen..iLen + lLen + lMsg]))
    {
      hide Encode;
      ghost var prefix, body, behind := buf[..iLen], buf[iLen + lLen..iLen + lLen + lMsg], buf[iLen + lLen..];
      len := iLen;
      EncodeVarint(lMsg);
      assert buf[len..] == behind;
      ghost var front := buf[..len];
      len := len + lMsg;
      assert buf[..len] == front + behind[..lMsg];
      assert behind[..lMsg] == body;
      Joined(prefix, Encode(lMsg), body);
    }

    /** The end of enc_len_thing: the message stands behind four reserved bytes and moves to
        leave exactly the room that its length takes. */
    method ShiftLength(iLen: nat)
      requires Valid() && iLen + 4 <= len
      modifies this, buf
      ensures Valid() && (buf == old(buf) || fresh(buf))
      ensures Contents() == old(buf[..iLen]) + Prefixed(old(buf[iLen + 4..len]))
    {
      hide Encode;
      var lMsg := len - (iLen + 4);
      var lLen := SizeOfVarintLoop(lMsg);
      FitLength(iLen, lLen);
      PutLength(iLen, lLen, lMsg);
    }

    /** enc_struct: the fields in tag order. */
    method EncStruct(schema: Schema, m: seq<Value>)
      requires Valid() && TypedAll(schema, m)
      modifies this, buf
      ensures Valid() && (buf == old(buf) || fresh(buf))
      ensures Contents() == old(Contents()) + Marshal(schema, m)
      decreases schema
    {
      TypedLength(schema, m);
      ghost var start, arr := Contents(), buf;
      assert schema[0..] == schema && m[0..] == m;
      assert start + Marshal(schema, m) == Contents() + Marshal(schema[0..], m[0..]);
      for i := 0 to |schema|
        invariant Valid() && (buf == arr || fresh(buf))
        invariant TypedAll(schema[i..], m[i..])
        invariant Contents() + Marshal(schema[i..], m[i..]) == start + Marshal(schema, m)
      {
        hide Encode;
        MarshalStep(schema, m, i);
        ghost var before, rest := Contents(), Marshal(schema[i + 1..], m[i + 1..]);
        EncField(schema[i], m[i]);
        Joined(before, EncodeField(schema[i], m[i]), rest);
      }
      assert Marshal([], []) == [];
    }

    /** The encoders of single fields, zero values skipped. */
    method EncField(d: FieldDef, v: Value)
      requires Valid() && TypedField(d, v)
      modifies this, buf
      ensures Valid() && (buf == old(buf) || fresh(buf))
      ensures Contents() == old(Contents()) + EncodeField(d, v)
      decreases d
    {
      hide Encode;
      ghost var start := Contents();
      if v == Zero(d.kind) {
        assert start + [] == start;
        return;
      }
      EncodeVarint(8 * d.tag + WireType(d.kind));
      Joined(start, TagCode(d), EncodeValue(d.kind, v));
      match v {
        case Num(n) => EncodeVarint(Extended(n));
        case Chars(s) =>
          ghost var tagged := Contents();
          EncodeVarint(|s|);
          Append(s);
          Joined(tagged, Encode(|s|), s);
        case Sub(sub) =>
          EncLenStruct(d.kind, sub.value);
      }
    }

    /** enc_len_struct: an embedded message behind its length. */
    method EncLenStruct(k: Kind, m: seq<Value>)
      requires Valid() && k.Embedded? && TypedAll(k.fields, m)
      modifies this, buf
      ensures Valid() && (buf == old(buf) || fresh(buf))
      ensures Contents() == old(Contents()) + Prefixed(Marshal(k.fields, m))
      decreases k
    {
      hide Encode, Marshal;
      var iLen := len;
      ghost var start, body := Contents(), Marshal(k.fields, m);
      Append([0, 0, 0, 0]);
      EncStruct(k.fields, m);
      assert buf[..iLen] == start && buf[iLen + 4..len] == body by {
        assert buf[..len] == start + [0, 0, 0, 0] + body;
        assert buf[..iLen] == buf[..len][..iLen] && buf[iLen + 4..len] == buf[..len][iLen + 4..];
      }
      ShiftLength(iLen);
    }
  }

  // ----- the decoder -----

  class Decoder {
    var buf: seq<byte>
    var index: nat

    ghost predicate Valid()
      reads this
    {
      index <= |buf|
    }

    function Rest(): seq<byte>
      requires Valid()
      reads this
    {
      buf[index..]
    }

    constructor (b: seq<byte>)
      ensures Valid() && Rest() == b
    {
      buf, index := b, 0;
    }

    /** Ten bytes at most; what is shifted out of 64 bits is lost. */
    method DecodeVarint() returns (r: Result<nat, Error>)
      requires Valid()
      modifies this
      ensures Valid() && buf == old(buf)
      ensures
        var p := ReadVarint(old(Rest()));
        if p.Done? then r == Ok(p.value) && Rest() == p.rest else r == Err(p.error)
    {
      ghost var q := Rest();
      var i, x: nat, shift: nat := index, 0, 0;
      ghost var k := 0;
      GroupsNone(q);
      hide Pow2, Scan, Groups, Part;
      while shift < 64
        invariant k <= 10 && k <= |q| && shift == 7 * k && i == index + k
        invariant index == old(index) && buf == old(buf)
        invariant forall j :: 0 <= j < k ==> q[j] >= 128
        invariant k > 0 && Scan(q).Some? ==> Scan(q).value.1 > k
        invariant x == Groups(q, k) % 0x1_0000_0000_0000_0000
      {
        if i >= |buf| {
          ScanNone(q);
          return Err(UnexpectedEOF);
        }
        ScanAt(q, k);
        ModAdd(Groups(q, k), Part(shift, buf[i]), 0x1_0000_0000_0000_0000);
        var b := buf[i];
        i := i + 1;
        x := (x + Part(shift, b)) % 0x1_0000_0000_0000_0000;
        if b < 128 {
          index := i;
          return Ok(x);
        }
        shift, k := shift + 7, k + 1;
      }
      return Err(VarintOverflow);
    }

    method DecodeRawBytes() returns (r: Result<seq<byte>, Error>)
      requires Valid()
      modifies this
      ensures Valid() && buf == old(buf)
      ensures
        var p := ReadRaw(old(Rest()));
        if p.Done? then r == Ok(p.value) && Rest() == p.rest else r == Err(p.error)
    {
      hide ReadVarint;
      var n := DecodeVarint();
      if n.Err? { return Err(n.error); }
      if n.value >= 0x8000_0000_0000_0000 { return Err(BadLength); }
      var end := index + n.value;
      if end > |buf| { return Err(UnexpectedEOF); }
      var raw := buf[index..end];
      assert raw == Rest()[..n.value];
      index := end;
      return Ok(raw);
    }

    /** skip, for the wire types that stand for themselves and for groups. */
    method SkipField(wire: nat) returns (r: Result<(), Error>)
      requires Valid()
      modifies this
      ensures Valid() && buf == old(buf)
      ensures
        var p := Skip(wire, old(Rest()));
        if p.Done? then r == Ok(()) && Rest() == p.rest else r == Err(p.error)
      decreases |buf| - index
    {
      hide ReadVarint, ReadRaw;
      if wire == VARINT_TYPE {
        var n := DecodeVarint();
        return if n.Err? then Err(n.error) else Ok(());
      } else if wire == 1 || wire == 5 {
        var n := if wire == 1 then 8 else 4;
        if index + n > |buf| { return Err(UnexpectedEOF); }
        index := index + n;
        return Ok(());
      } else if wire == BYTES_TYPE {
        var b := DecodeRawBytes();
        return if b.Err? then Err(b.error) else Ok(());
      } else if wire == START_GROUP_TYPE {
        ghost var goal := SkipGroup(Rest());
        while true
          invariant Valid() && buf == old(buf) && old(index) <= index
          invariant SkipGroup(Rest()) == goal
          decreases |buf| - index
        {
          var u := DecodeVarint();
          if u.Err? { return Err(u.error); }
          if u.value % 8 == END_GROUP_TYPE { return Ok(()); }
          var s := SkipField(u.value % 8);
          if s.Err? { return s; }
        }
      }
      return Err(BadWireType);
    }

    /** The decoders of single fields. */
    method DecField(k: Kind, v: Value) returns (r: Result<Value, Error>)
      requires Valid()
      modifies this
      ensures Valid() && buf == old(buf)
      ensures
        var p := DecodeField(k, v, old(Rest()));
        if p.Done? then r == Ok(p.value) && Rest() == p.rest else r == Err(p.error)
      decreases |buf| - index, 0
    {
      hide ReadVarint, ReadRaw, Unmarshal;
      match k {
        case Int32 =>
          var u := DecodeVarint();
          return if u.Err? then Err(u.error) else Ok(Num(Signed(u.value, 0x1_0000_0000)));
        case Int64 =>
          var u := DecodeVarint();
          return if u.Err? then Err(u.error) else Ok(Num(Signed(u.value, 0x1_0000_0000_0000_0000)));
        case Text =>
          var s := DecodeRawBytes();
          return if s.Err? then Err(s.error) else Ok(Chars(s.value));
        case Embedded(fields) =>
          var raw := DecodeRawBytes();
          if raw.Err? { return Err(raw.error); }
          var m := if v.Sub? && v.m.Some? && |v.m.value| == |fields| then v.m.value else Zeros(fields);
          var obuf, oi := buf, index;
          buf, index := raw.value, 0;
          assert Rest() == raw.value;
          var sub := UnmarshalType(fields, m);
          buf, index := obuf, oi;
          return if sub.Err? then Err(sub.error) else Ok(Sub(Some(sub.value)));
      }
    }

    /** unmarshalType: any number of fields, in any order, unknown ones skipped. */
    method UnmarshalType(schema: Schema, m0: seq<Value>) returns (r: Result<seq<Value>, Error>)
      requires Valid() && |m0| == |schema|
      modifies this
      ensures Valid() && buf == old(buf) && r == Unmarshal(schema, m0, old(Rest()))
      decreases |buf| - index, 1
    {
      hide ReadVarint, DecodeField, Skip, Find;
      var m := m0;
      ghost var goal := Unmarshal(schema, m, Rest());
      while index < |buf|
        invariant Valid() && buf == old(buf) && old(index) <= index && |m| == |schema|
        invariant Unmarshal(schema, m, Rest()) == goal
        decreases |buf| - index
      {
        ghost var before := |Rest()|;
        var u := DecodeVarint();
        if u.Err? { return Err(u.error); }
        assert |Rest()| < before;
        var wire, tag := u.value % 8, u.value / 8;
        if wire == END_GROUP_TYPE { return Err(EndGroup); }
        if tag == 0 { return Err(IllegalTag); }
        var at := Find(schema, tag);
        if at.None? {
          var s := SkipField(wire);
          if s.Err? { return Err(s.error); }
          continue;
        }
        var d := schema[at.value];
        if wire != START_GROUP_TYPE && wire != WireType(d.kind) { return Err(BadWireType); }
        var v := DecField(d.kind, m[at.value]);
        if v.Err? { return Err(v.error); }
        m := m[at.value := v.value];
      }
      assert Rest() == [];
      return Ok(m);
    }
  }

  /** Marshal and Unmarshal of a whole message, each with a buffer of its own. */
  method MarshalMessage(schema: Schema, m: seq<Value>) returns (b: seq<byte>)
    requires TypedAll(schema, m)
    ensures b == Marshal(schema, m)
  {
    var p := new Buffer();
    p.EncStruct(schema, m);
    b := p.buf[..p.len];
  }

  method UnmarshalMessage(schema: Schema, b: seq<byte>) returns (r: Result<seq<Value>, Error>)
    ensures r == Unmarshal(schema, Zeros(schema), b)
  {
    var p := new Decoder(b);
    r := p.UnmarshalType(schema, Zeros(schema));
  }

  function Nulls(n: nat): (b: seq<byte>)
    ensures |b| == n
  {
    if n == 0 then [] else [0] + Nulls(n - 1)
  }
}
