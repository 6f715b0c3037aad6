/** The Snappy encoder and decoder as they run: loops over indices into byte arrays. */
module SnappyRoutines {
  import opened Wrappers
  import opened Base128
  import opened Snappy
  import opened SnappyRoundTrip

  const MAX_OFFSET := 0x8000
  const MAX_TABLE_SIZE := 0x4000

  // ----- encoding -----

  /** Copy b into dst at position d. */
  method Put(dst: array<byte>, d: nat, b: seq<byte>)
    requires d + |b| <= dst.Length
    modifies dst
    ensures dst[..] == old(dst[..d]) + b + old(dst[d + |b|..])
  {
    forall i | 0 <= i < |b| { dst[d + i] := b[i]; }
    assert dst[..d] == old(dst[..d]) && dst[d..d + |b|] == b && dst[d + |b|..] == old(dst[d + |b|..]);
  }

  /** The same, seen from the front of dst. */
  method PutNext(dst: array<byte>, d: nat, b: seq<byte>)
    requires d + |b| <= dst.Length
    modifies dst
    ensures dst[..d + |b|] == old(dst[..d]) + b
  {
    Put(dst, d, b);
  }

  method EmitLiteral(dst: array<byte>, d: nat, lit: seq<byte>) returns (i: nat)
    requires 0 < |lit| <= 0x1_0000_0000 && d + |LiteralChunk(lit)| <= dst.Length
    modifies dst
    ensures i == |LiteralChunk(lit)|
    ensures dst[..d + i] == old(dst[..d]) + LiteralChunk(lit)
  {
    var tag := LiteralTag(|lit| - 1);
    Put(dst, d, tag);
    i := |tag|;
    ghost var mid := dst[..];
    assert mid[..d + i] == old(dst[..d]) + tag;
    Put(dst, d + i, lit);
    i := i + |lit|;
    assert dst[..d + i] == mid[..d + |tag|] + lit;
    assert old(dst[..d]) + tag + lit == old(dst[..d]) + (tag + lit);
  }

  method EmitCopy(dst: array<byte>, d: nat, offset: nat, length: nat) returns (i: nat)
    requires offset < 0x8000 && d + |CopyChunks(offset, length)| <= dst.Length
    modifies dst
    ensures i == |CopyChunks(offset, length)|
    ensures dst[..d + i] == old(dst[..d]) + CopyChunks(offset, length)
  {
    i := 0;
    var left: nat := length;
    ghost var goal := CopyChunks(offset, length);
    ghost var done: seq<byte> := [];
    while left > 0
      invariant left <= length && i == |done|
      invariant goal == done + CopyChunks(offset, left)
      invariant d + i <= dst.Length && dst[..d + i] == old(dst[..d]) + done
    {
      var (c, x) := CopyOnce(offset, left);
      Joined(done, c, CopyChunks(offset, left - x));
      hide CopyOnce, CopyChunks;
      PutNext(dst, d + i, c);
      Joined(old(dst[..d]), done, c);
      done := done + c;
      i, left := i + |c|, left - x;
    }
  }

  function Hash(h: nat): int {
    h * 0x1e35a7bd % 0x1_0000_0000
  }

  /** The table slot of four bytes: the top bits of a 32-bit product. */
  function Slot(b0: byte, b1: byte, b2: byte, b3: byte, shift: nat): int {
    Hash(Word(b0, b1, b2, b3)) / Pow2(shift)
  }

  lemma SlotInRange(b0: byte, b1: byte, b2: byte, b3: byte, shift: nat, tableSize: nat)
    requires tableSize * Pow2(shift) == 0x1_0000_0000
    ensures 0 <= Slot(b0, b1, b2, b3, shift) < tableSize
  {
    QuotientBelow(Hash(Word(b0, b1, b2, b3)), Pow2(shift), tableSize);
  }

  lemma QuotientBelow(x: nat, p: nat, t: nat)
    requires p > 0 && x < t * p
    ensures 0 <= x / p < t
  {
    var q := x / p;
    assert x == q * p + x % p;
    TimesMonotone(t, q, p);
  }

  lemma TimesMonotone(a: int, b: int, p: nat)
    ensures a <= b ==> a * p <= b * p
  {
  }

  /** The hash table's size and the shift that goes with it. */
  method TableSize(n: nat) returns (shift: nat, tableSize: nat)
    ensures tableSize * Pow2(shift) == 0x1_0000_0000 && 0x100 <= tableSize <= MAX_TABLE_SIZE
  {
    shift, tableSize := 24, 0x100;
    Powers();
    while tableSize < MAX_TABLE_SIZE && tableSize < n
      invariant 18 <= shift <= 24 && tableSize == Pow2(32 - shift)
      decreases shift
    {
      assert shift != 18;
      assert Pow2(32 - (shift - 1)) == 2 * Pow2(32 - shift);
      shift, tableSize := shift - 1, tableSize * 2;
    }
    hide Pow2;
    Pow2Adds(32 - shift, shift);
    Pow2Monotone(8, 32 - shift);
    Pow2Monotone(32 - shift, 14);
  }

  /** What the encoder has written so far stands for src[..upto], within the size bound;
      a literal may have cost one byte that the match after it will save. */
  ghost predicate Encoded(out: seq<byte>, src: seq<byte>, upto: nat, owed: nat)
    requires upto <= |src|
  {
    var h := Encode(|src|);
    && |h| <= |out| <= |h| + upto + upto / 60 + owed
    && out[..|h|] == h
    && DecodesTo(out[|h|..], src[..upto])
  }

  lemma EncodedLiteral(out: seq<byte>, src: seq<byte>, lit: nat, s: nat)
    requires lit < s <= |src| <= 0x1_0000_0000 && Encoded(out, src, lit, 0)
    ensures Encoded(out + LiteralChunk(src[lit..s]), src, s, 1)
  {
    hide DecodesTo, LiteralChunk, Encode, Chunks, LiteralTag;
    var h, c := |Encode(|src|)|, LiteralChunk(src[lit..s]);
    LiteralSize(src[lit..s]);
    AddLiteral(out[h..], src, lit, s);
    assert (out + c)[h..] == out[h..] + c;
    assert (out + c)[..h] == out[..h];
  }

  lemma EncodedCopy(out: seq<byte>, src: seq<byte>, s0: nat, s: nat, offset: nat)
    requires s0 + 4 <= s <= |src| && 0 < offset <= s0 && offset < 0x8000 && Encoded(out, src, s0, 1)
    requires forall k :: s0 <= k < s ==> src[k] == src[k - offset]
    ensures Encoded(out + CopyChunks(offset, s - s0), src, s, 0)
  {
    hide DecodesTo, CopyChunks, Encode, Chunks;
    var h, c := |Encode(|src|)|, CopyChunks(offset, s - s0);
    CopySize(offset, s - s0);
    AddCopy(out[h..], src, s0, s, offset);
    assert (out + c)[h..] == out[h..] + c;
    assert (out + c)[..h] == out[..h];
  }

  /** The bound leaves room for every chunk that is written. */
  lemma EncodedFits(out: seq<byte>, src: seq<byte>, upto: nat, owed: nat)
    requires upto <= |src| <= 0x1_0000_0000 && owed <= 1 && Encoded(out, src, upto, owed)
    ensures |out| <= MaxEncodedLen(|src|)
    ensures |out| <= |src| + |src| / 60 + 6
  {
    HeaderReads(|src|, []);
  }

  /** Extend a match: the first position past src[s..] that differs from what lies
      `offset` bytes before it. */
  method Extend(src: seq<byte>, s0: nat, t0: nat) returns (s: nat)
    requires t0 < s0 && s0 + 4 <= |src|
    requires src[s0] == src[t0] && src[s0 + 1] == src[t0 + 1]
    requires src[s0 + 2] == src[t0 + 2] && src[s0 + 3] == src[t0 + 3]
    ensures s0 + 4 <= s <= |src|
    ensures forall k :: s0 <= k < s ==> src[k] == src[k - (s0 - t0)]
    ensures s < |src| ==> src[s] != src[s - (s0 - t0)]
  {
    var t;
    s, t := s0 + 4, t0 + 4;
    while s < |src| && src[s] == src[t]
      invariant s0 + 4 <= s <= |src| && s - t == s0 - t0
      invariant forall k :: s0 <= k < s ==> src[k] == src[k - (s0 - t0)]
    {
      s, t := s + 1, t + 1;
    }
  }

  lemma OweOne(out: seq<byte>, src: seq<byte>, upto: nat)
    requires upto <= |src| && Encoded(out, src, upto, 0)
    ensures Encoded(out, src, upto, 1)
  {
  }

  /** Emit the pending literal bytes src[lit..s], if there are any. */
  method Flush(dst: array<byte>, d: nat, src: seq<byte>, lit: nat, s: nat) returns (d': nat)
    requires |src| <= 0x1_0000_0000 && lit <= s <= |src| && MaxEncodedLen(|src|) <= dst.Length
    requires d <= dst.Length && Encoded(dst[..d], src, lit, 0)
    modifies dst
    ensures d' <= dst.Length && Encoded(dst[..d'], src, s, 1)
    ensures dst[..d'] == old(dst[..d]) + if lit < s then LiteralChunk(src[lit..s]) else []
  {
    hide Encoded, LiteralChunk, MaxEncodedLen;
    d' := d;
    if lit == s {
      OweOne(dst[..d], src, lit);
    } else {
      EncodedLiteral(dst[..d], src, lit, s);
      EncodedFits(dst[..d] + LiteralChunk(src[lit..s]), src, s, 1);
      var i := EmitLiteral(dst, d, src[lit..s]);
      d' := d + i;
    }
  }

  /** Emit a match: src[s0..s] repeats the bytes `offset` before it. */
  method EmitMatch(dst: array<byte>, d: nat, ghost src: seq<byte>, s0: nat, s: nat, offset: nat) returns (d': nat)
    requires |src| <= 0x1_0000_0000 && s0 + 4 <= s <= |src| && MaxEncodedLen(|src|) <= dst.Length
    requires d <= dst.Length && Encoded(dst[..d], src, s0, 1)
    requires 0 < offset <= s0 && offset < 0x8000
    requires forall k :: s0 <= k < s ==> src[k] == src[k - offset]
    modifies dst
    ensures d' <= dst.Length && Encoded(dst[..d'], src, s, 0)
    ensures dst[..d'] == old(dst[..d]) + CopyChunks(offset, s - s0)
  {
    hide Encoded, CopyChunks;
    EncodedCopy(dst[..d], src, s0, s, offset);
    EncodedFits(dst[..d] + CopyChunks(offset, s - s0), src, s, 0);
    var i := EmitCopy(dst, d, offset, s - s0);
    d' := d + i;
  }

  lemma HeaderEncoded(src: seq<byte>)
    ensures Encoded(Encode(|src|), src, 0, 0)
  {
    var h := Encode(|src|);
    assert h[|h|..] == [] && src[..0] == [] && h[..|h|] == h;
    NothingDecodes();
  }

  /** The four bytes at s and those at t are the same, and t is near enough for a copy. */
  predicate Repeats(src: seq<byte>, t: int, s: nat)
    requires s + 3 < |src|
  {
    0 <= t < s < t + MAX_OFFSET && src[t..t + 4] == src[s..s + 4]
  }

  /** Look src[s..s+4] up in the table and record it there. The table's entry is taken if and
      only if it is a match; otherwise the answer is -1. */
  method Probe(table: array<int>, src: seq<byte>, s: nat, shift: nat, ghost tableSize: nat) returns (t: int)
    requires s + 3 < |src| && tableSize * Pow2(shift) == 0x1_0000_0000 && tableSize <= table.Length
    requires forall i :: 0 <= i < table.Length ==> 0 <= table[i] <= s
    modifies table
    ensures forall i :: 0 <= i < table.Length ==> 0 <= table[i] <= s + 1
    ensures var p := Slot(src[s], src[s + 1], src[s + 2], src[s + 3], shift);
            && 0 <= p < table.Length && table[..] == old(table[..])[p := s + 1]
            && t == if Repeats(src, old(table[p]) - 1, s) then old(table[p]) - 1 else -1
  {
    hide Slot, Pow2;
    var b0, b1, b2, b3 := src[s], src[s + 1], src[s + 2], src[s + 3];
    SlotInRange(b0, b1, b2, b3, shift, tableSize);
    var p := Slot(b0, b1, b2, b3, shift);
    t := table[p] - 1;
    table[p] := s + 1;
    if t < 0 || s - t >= MAX_OFFSET || b0 != src[t] || b1 != src[t + 1] || b2 != src[t + 2] || b3 != src[t + 3] {
      assert !Repeats(src, t, s) by {
        if Repeats(src, t, s) { RepeatsIs(src, t, s); }
      }
      t := -1;
    } else {
      assert src[t..t + 4] == [b0, b1, b2, b3] == src[s..s + 4];
    }
  }

  /** One byte over and over. */
  predicate Uniform(src: seq<byte>) {
    forall i :: 0 <= i < |src| ==> src[i] == src[0]
  }

  /** How far the scan is with such an input: the first byte is a literal and all the others
      are one match. */
  predicate UniformScan(src: seq<byte>, table: seq<int>, shift: nat, out0: seq<byte>, s: nat, lit: nat, out: seq<byte>)
    requires 4 < |src|
  {
    var p := Slot(src[0], src[0], src[0], src[0], shift);
    if s == 0 then lit == 0 && out == out0 && forall i :: 0 <= i < |table| ==> table[i] == 0
    else if s == 1 then lit == 0 && out == out0 && 0 <= p < |table| && table[p] == 1
    else s == lit == |src| && out == out0 + LiteralChunk(src[..1]) + CopyChunks(1, |src| - 1)
  }

  lemma UniformStart(src: seq<byte>, table: seq<int>, shift: nat, out: seq<byte>)
    requires 4 < |src| && forall i :: 0 <= i < |table| ==> table[i] == 0
    ensures UniformScan(src, table, shift, out, 0, 0, out)
  {
  }

  /** What the table says at position s of such an input. */
  lemma UniformProbe(src: seq<byte>, table: seq<int>, shift: nat, out0: seq<byte>, s: nat, lit: nat, out: seq<byte>)
    requires 4 < |src| && Uniform(src) && UniformScan(src, table, shift, out0, s, lit, out) && s + 3 < |src|
    requires var p := Slot(src[s], src[s + 1], src[s + 2], src[s + 3], shift); 0 <= p < |table|
    ensures s <= 1
    ensures var p := Slot(src[s], src[s + 1], src[s + 2], src[s + 3], shift);
            && (Repeats(src, table[p] - 1, s) <==> s == 1)
            && (s == 1 ==> table[p] - 1 == 0 == lit && out == out0)
            && (s == 0 ==> UniformScan(src, table[p := s + 1], shift, out0, 1, lit, out))
  {
    hide Slot;
    assert src[s] == src[s + 1] == src[s + 2] == src[s + 3] == src[0];
    if s == 1 { assert src[0..4] == src[1..5]; }
  }

  lemma UniformEnds(src: seq<byte>, table: seq<int>, shift: nat, out0: seq<byte>, s: nat, out: seq<byte>)
    requires 4 < |src| && Uniform(src) && 1 <= s <= |src| && (s < |src| ==> src[s] != src[s - 1])
    requires s > 1 && out == out0 + LiteralChunk(src[..1]) + CopyChunks(1, s - 1)
    ensures UniformScan(src, table, shift, out0, s, s, out)
  {
  }

  lemma UniformDone(src: seq<byte>, table: seq<int>, shift: nat, out0: seq<byte>, s: nat, lit: nat, out: seq<byte>)
    requires 4 < |src| <= s + 3 && UniformScan(src, table, shift, out0, s, lit, out)
    ensures lit == |src| && out == out0 + LiteralChunk(src[..1]) + CopyChunks(1, |src| - 1)
  {
  }

  lemma RepeatsIs(src: seq<byte>, t: nat, s: nat)
    requires s + 3 < |src| && Repeats(src, t, s)
    ensures t < s < t + MAX_OFFSET && src[s] == src[t] && src[s + 1] == src[t + 1]
    ensures src[s + 2] == src[t + 2] && src[s + 3] == src[t + 3]
  {
    var a, b := src[t..t + 4], src[s..s + 4];
    assert a[0] == b[0] && a[1] == b[1] && a[2] == b[2] && a[3] == b[3];
  }

  /** The scan over src: find matches through the hash table, emit what lies between them. */
  method EncodeBody(dst: array<byte>, d0: nat, src: seq<byte>) returns (d: nat, lit: nat)
    requires 4 < |src| <= 0x1_0000_0000 && MaxEncodedLen(|src|) <= dst.Length
    requires d0 <= dst.Length && Encoded(dst[..d0], src, 0, 0)
    modifies dst
    ensures d <= dst.Length && lit <= |src| && Encoded(dst[..d], src, lit, 0)
    ensures Uniform(src) ==>
              lit == |src| && dst[..d] == old(dst[..d0]) + LiteralChunk(src[..1]) + CopyChunks(1, |src| - 1)
  {
    hide Encoded, MaxEncodedLen, Pow2, Slot, Uniform, LiteralChunk, CopyChunks, Repeats, UniformScan;
    var shift, tableSize := TableSize(|src|);
    var table := new int[MAX_TABLE_SIZE](_ => 0);
    var s: nat := 0;
    d, lit := d0, 0;
    ghost var out0 := dst[..d0];
    UniformStart(src, table[..], shift, out0);
    while s + 3 < |src|
      invariant lit <= s <= |src| && d <= dst.Length
      invariant forall i :: 0 <= i < table.Length ==> 0 <= table[i] <= s
      invariant Encoded(dst[..d], src, lit, 0)
      invariant Uniform(src) ==> UniformScan(src, table[..], shift, out0, s, lit, dst[..d])
      decreases |src| - s
    {
      ghost var before, out := table[..], dst[..d];
      var t := Probe(table, src, s, shift, tableSize);
      if Uniform(src) { UniformProbe(src, before, shift, out0, s, lit, out); }
      if t < 0 {
        s := s + 1;
      } else {
        RepeatsIs(src, t, s);
        d := Flush(dst, d, src, lit, s);
        var s' := Extend(src, s, t);
        d := EmitMatch(dst, d, src, s, s', s - t);
        if Uniform(src) { UniformEnds(src, table[..], shift, out0, s', dst[..d]); }
        s, lit := s', s';
      }
    }
    if Uniform(src) { UniformDone(src, table[..], shift, out0, s, lit, dst[..d]); }
  }

  lemma {:induction false} RunSize(length: nat)
    ensures |CopyChunks(1, length)| <= 3 * ((length + 63) / 64)
    decreases length
  {
    if length > 0 {
      var (c, x) := CopyOnce(1, length);
      RunSize(length - x);
    }
  }

  /** A byte repeated n times takes three bytes for every 64 of them, and at most seven more. */
  lemma UniformSize(src: seq<byte>)
    requires 4 < |src| <= 0x1_0000_0000
    ensures |Encode(|src|) + LiteralChunk(src[..1]) + CopyChunks(1, |src| - 1)| <= 7 + 3 * ((|src| + 62) / 64)
  {
    Powers();
    EncodeLength(|src|, 5);
    RunSize(|src| - 1);
    assert |LiteralChunk(src[..1])| == 2;
  }

  /** Encode src, into the caller's buffer when it is large enough. The result decodes to
      src from any buffer, and is at most n + n/60 + 6 bytes long. */
  method EncodeBlock(buffer: array<byte>, src: seq<byte>) returns (dst: array<byte>, d: nat)
    requires |src| <= 0x1_0000_0000
    modifies buffer
    ensures dst == buffer || fresh(dst)
    ensures MaxEncodedLen(|src|) <= buffer.Length ==> dst == buffer
    ensures d <= dst.Length && d <= |src| + |src| / 60 + 6
    ensures forall b: seq<byte> :: Decode(b, dst[..d]) == Ok(src)
    ensures 4 < |src| && Uniform(src) ==> d <= 7 + 3 * ((|src| + 62) / 64)
  {
    hide Decode, Encode, Encoded, Uniform, LiteralChunk, CopyChunks;
    dst := buffer;
    if dst.Length < MaxEncodedLen(|src|) {
      dst := new byte[MaxEncodedLen(|src|)](_ => 0);
    }
    var header := Encode(|src|);
    HeaderEncoded(src);
    EncodedFits(header, src, 0, 0);
    Put(dst, 0, header);
    d := |header|;
    assert dst[..d] == header;
    var lit: nat := 0;
    if |src| > 4 {
      d, lit := EncodeBody(dst, d, src);
    }
    d := Flush(dst, d, src, lit, |src|);
    if 4 < |src| && Uniform(src) {
      assert dst[..d] == header + LiteralChunk(src[..1]) + CopyChunks(1, |src| - 1);
      UniformSize(src);
    }
    EncodedFits(dst[..d], src, |src|, 1);
    EncodedDecodes(dst[..d], src);
  }

  lemma EncodedDecodes(out: seq<byte>, src: seq<byte>)
    requires |src| <= 0x1_0000_0000 && Encoded(out, src, |src|, 1)
    ensures forall b: seq<byte> :: Decode(b, out) == Ok(src)
  {
    hide Decode, DecodesTo, Encode;
    var h := Encode(|src|);
    assert src[..|src|] == src && out == h + out[|h|..];
    forall b: seq<byte>
      ensures Decode(b, out) == Ok(src)
    {
      BlockDecodes(b, src, out[|h|..]);
    }
  }

  // ----- decoding -----

  /** The header, as binary.Uvarint reads it. */
  method ReadUvarint(b: seq<byte>) returns (x: nat, n: int)
    ensures (x, n) == Uvarint(b)
  {
    x := 0;
    var s, i := 0, 0;
    assert Pow2(0) == 1 && b[0..] == b;
    while i < |b|
      invariant 0 <= i <= |b| && s == 7 * i && x == Groups(b, i)
      invariant forall k :: 0 <= k < i ==> b[k] >= 128
    {
      ScanSplit(b, i);
      GroupsNext(b, i);
      if b[i] < 0x80 {
        if i > 9 || (i == 9 && b[i] > 1) {
          return 0, -(i + 1);
        }
        x := x + Pow2(s) * b[i] as int;
        return x, i + 1;
      }
      x := x + Pow2(s) * (b[i] as int % 128);
      s, i := s + 7, i + 1;
    }
    ScanNone(b);
    return 0, 0;
  }

  /** dst[d..d+n] takes the n bytes found `offset` before, one after the other. */
  method CopyWithin(dst: array<byte>, d0: nat, offset: nat, n: nat)
    requires offset <= d0 && d0 + n <= dst.Length
    modifies dst
    ensures dst[..] == Overlap(old(dst[..]), d0, offset, n)
  {
    var d, end := d0, d0 + n;
    while d < end
      invariant d0 <= d <= end
      invariant Overlap(dst[..], d, offset, end - d) == Overlap(old(dst[..]), d0, offset, n)
    {
      ghost var before := dst[..];
      dst[d] := dst[d - offset];
      assert dst[..] == before[d := before[d - offset]];
      d := d + 1;
    }
  }

  datatype Progress = Moved(s: nat, d: nat) | Failed(error: Error)

  /** A literal's length: the position after its tag, or None when src ends too early. */
  method ReadLiteralLength(src: seq<byte>, s0: nat) returns (ok: bool, s: nat, x: nat)
    requires s0 < |src|
    ensures s >= s0
    ensures LiteralLength(src[s0..]) == if ok then Some((s - s0, x)) else None
    ensures ok ==> s0 < s <= |src|
  {
    hide Word;
    s := s0;
    x := src[s] / 4;
    ok := true;
    if x < 60 {
      s := s + 1;
    } else {
      s := s + x - 58;
      if s > |src| {
        ok := false;
      } else if x == 60 {
        x := src[s - 1];
      } else if x == 61 {
        x := Word(src[s - 2], src[s - 1], 0, 0);
      } else if x == 62 {
        x := Word(src[s - 3], src[s - 2], src[s - 1], 0);
      } else {
        x := Word(src[s - 4], src[s - 3], src[s - 2], src[s - 1]);
      }
    }
  }

  method ReadCopyTag(src: seq<byte>, s0: nat) returns (r: Result<(nat, nat, nat), Error>)
    requires s0 < |src| && src[s0] % 4 != 0
    ensures r == CopyTag(src[s0..])
  {
    hide Word;
    var s := s0;
    var m: nat := src[s] / 4;
    if src[s] % 4 == 1 {
      s := s + 2;
      if s > |src| { return Err(Corrupt); }
      return Ok((2, Word(src[s - 1], src[s - 2] / 32, 0, 0), 4 + m % 8));
    } else if src[s] % 4 == 2 {
      s := s + 3;
      if s > |src| { return Err(Corrupt); }
      return Ok((3, Word(src[s - 2], src[s - 1], 0, 0), 1 + m));
    }
    return Err(UnsupportedCopy4);
  }

  /** One turn of the decoder's loop. */
  method DecodeChunk(src: seq<byte>, s0: nat, dst: array<byte>, d: nat) returns (p: Progress)
    requires s0 < |src| && d <= dst.Length
    modifies dst
    ensures var e := Chunk(src[s0..], old(dst[..]), d);
            match p
            case Moved(s, d') => s0 < s <= |src| && e == Ok((s - s0, dst[..], d'))
            case Failed(err) => e == Err(err)
  {
    hide LiteralLength, CopyTag, Overlap;
    if src[s0] % 4 == 0 {
      var ok, s, x := ReadLiteralLength(src, s0);
      if !ok { return Failed(Corrupt); }
      var length := x + 1;
      if length > dst.Length - d || length > |src| - s { return Failed(Corrupt); }
      assert src[s..s + length] == src[s0..][s - s0..s - s0 + length];
      Put(dst, d, src[s..s + length]);
      return Moved(s + length, d + length);
    }
    var r := ReadCopyTag(src, s0);
    if r.Err? { return Failed(r.error); }
    var (t, offset, length) := r.value;
    var end := d + length;
    if offset > d || end > dst.Length { return Failed(Corrupt); }
    CopyWithin(dst, d, offset, length);
    return Moved(s0 + t, end);
  }

  /** The loop over the chunks of src, from s on. */
  method DecodeChunks(src: seq<byte>, s0: nat, dst: array<byte>) returns (r: Result<nat, Error>)
    requires s0 <= |src|
    modifies dst
    ensures
      var e := Chunks(src[s0..], old(dst[..]), 0);
      match r
      case Err(err) => e == Err(err)
      case Ok(d) => d <= dst.Length && e == Chunks([], dst[..], d)
  {
    hide Chunk, Chunks;
    var s: nat, d: nat := s0, 0;
    ghost var goal := Chunks(src[s..], dst[..], 0);
    while s < |src|
      invariant s <= |src| && d <= dst.Length
      invariant Chunks(src[s..], dst[..], d) == goal
      decreases |src| - s
    {
      ChunksNext(src, s, dst[..], d);
      var p := DecodeChunk(src, s, dst, d);
      match p {
        case Failed(e) => return Err(e);
        case Moved(s', d') => s, d := s', d';
      }
    }
    assert src[s..] == [];
    return Ok(d);
  }

  lemma ChunksNext(src: seq<byte>, s: nat, dst: seq<byte>, d: nat)
    requires s < |src| && d <= |dst|
    ensures Chunks(src[s..], dst, d)
         == match Chunk(src[s..], dst, d)
            case Err(e) => Err(e)
            case Ok((n, dst', d')) => Chunks(src[s + n..], dst', d')
  {
    hide Chunk;
    var c := Chunk(src[s..], dst, d);
    if c.Ok? { assert src[s..][c.value.0..] == src[s + c.value.0..]; }
  }

  /** Decode src, into the caller's buffer when it is large enough. */
  method DecodeBlock(buffer: array<byte>, src: seq<byte>) returns (r: Result<seq<byte>, Error>)
    modifies buffer
    ensures r == Decode(old(buffer[..]), src)
  {
    var v, n := ReadUvarint(src);
    UvarintRead(src);
    if n == 0 { return Err(Corrupt); }
    if n < 0 { return Err(HeaderOverflow); }
    var dLen := ToInt(v);
    var dst := buffer;
    if dst.Length < dLen {
      dst := new byte[dLen](_ => 0);
      assert dst[..] == Zeros(dLen);
    }
    hide Chunk;
    var d := DecodeChunks(src, n, dst);
    if d.Err? { return Err(d.error); }
    if d.value != dLen { return Err(Corrupt); }
    return Ok(dst[..d.value]);
  }
}
