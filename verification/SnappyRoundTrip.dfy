/** Decoding what was encoded gives the source back, and the encoding is never much longer. */
module SnappyRoundTrip {
  import opened Wrappers
  import opened Base128
  import opened Snappy

  /** dst with its first |text| bytes replaced by text. */
  function Filled(dst: seq<byte>, text: seq<byte>): (r: seq<byte>)
    requires |text| <= |dst|
    ensures |r| == |dst|
  {
    text + dst[|text|..]
  }

  /** Whatever buffer it starts from, b decodes to text. */
  ghost predicate DecodesTo(b: seq<byte>, text: seq<byte>) {
    forall dst: seq<byte> :: |text| <= |dst| ==> Chunks(b, dst, 0) == Ok((Filled(dst, text), |text|))
  }

  // ----- one chunk at a time -----

  /** A chunk only looks at its own bytes. */
  lemma TagPrefix(b: seq<byte>, c: seq<byte>)
    requires b != []
    ensures LiteralLength(b).Some? ==> LiteralLength(b + c) == LiteralLength(b)
    ensures b[0] % 4 != 0 && CopyTag(b).Ok? ==> CopyTag(b + c) == CopyTag(b)
  {
    assert forall i :: 0 <= i < |b| ==> (b + c)[i] == b[i];
  }

  lemma ChunkPrefix(b: seq<byte>, c: seq<byte>, dst: seq<byte>, d: nat)
    requires b != [] && d <= |dst| && Chunk(b, dst, d).Ok?
    ensures Chunk(b + c, dst, d) == Chunk(b, dst, d)
  {
    hide LiteralLength, CopyTag, Copy;
    TagPrefix(b, c);
    if b[0] % 4 == 0 {
      var (t, x) := LiteralLength(b).value;
      assert (b + c)[t..t + x + 1] == b[t..t + x + 1];
    }
  }

  lemma {:induction false} ChunksJoin(b: seq<byte>, c: seq<byte>, dst: seq<byte>, d: nat)
    requires d <= |dst| && Chunks(b, dst, d).Ok?
    ensures var (dst', d') := Chunks(b, dst, d).value; Chunks(b + c, dst, d) == Chunks(c, dst', d')
    decreases |b|
  {
    if b == [] {
      assert b + c == c;
    } else {
      ChunkPrefix(b, c, dst, d);
      var (n, dst', d') := Chunk(b, dst, d).value;
      assert (b + c)[n..] == b[n..] + c;
      ChunksJoin(b[n..], c, dst', d');
    }
  }

  /** A block that is one chunk. */
  lemma OneChunk(c: seq<byte>, dst: seq<byte>, d: nat, dst': seq<byte>, d': nat)
    requires c != [] && d <= |dst| && Chunk(c, dst, d) == Ok((|c|, dst', d'))
    ensures Chunks(c, dst, d) == Ok((dst', d'))
  {
    hide Chunk;
    assert c[|c|..] == [];
  }

  lemma WordDigits(n: nat)
    requires n < 0x1_0000_0000
    ensures n == Word(n % 0x100, n / 0x100 % 0x100, n / 0x1_0000 % 0x100, n / 0x100_0000)
    ensures n < 0x100_0000 ==> n == Word(n % 0x100, n / 0x100 % 0x100, n / 0x1_0000, 0)
    ensures n < 0x1_0000 ==> n == Word(n % 0x100, n / 0x100, 0, 0)
  {
    assert n / 0x1_0000 == n / 0x100 / 0x100 && n / 0x100_0000 == n / 0x1_0000 / 0x100;
  }

  /** The decoder reads back the length that the tag bytes spell. */
  lemma TagReads(n: nat, rest: seq<byte>)
    requires n < 0x1_0000_0000
    ensures var tag := LiteralTag(n); tag[0] % 4 == 0 && LiteralLength(tag + rest) == Some((|tag|, n))
  {
    hide Word;
    WordDigits(n);
    var tag := LiteralTag(n);
    assert forall i :: 0 <= i < |tag| ==> (tag + rest)[i] == tag[i];
  }

  lemma LiteralDecodes(lit: seq<byte>, dst: seq<byte>, d: nat)
    requires 0 < |lit| <= 0x1_0000_0000 && d + |lit| <= |dst|
    ensures Chunks(LiteralChunk(lit), dst, d) == Ok((dst[..d] + lit + dst[d + |lit|..], d + |lit|))
  {
    hide LiteralTag, Chunks, LiteralLength;
    var tag := LiteralTag(|lit| - 1);
    var b := tag + lit;
    TagReads(|lit| - 1, lit);
    assert b[0] == tag[0];
    assert b[|tag|..|b|] == lit;
    OneChunk(b, dst, d, dst[..d] + lit + dst[d + |lit|..], d + |lit|);
  }

  /** The tag byte of a short copy holds three numbers. */
  lemma ShortTag(h: nat, l: nat)
    requires h < 8 && l < 8
    ensures
      var tag := h * 32 + l * 4 + 1;
      tag < 256 && tag % 4 == 1 && tag / 32 == h && tag / 4 % 8 == l
  {
    var tag := h * 32 + l * 4 + 1;
    assert tag / 4 == h * 8 + l;
  }

  lemma CopyOnceTag(offset: nat, length: nat)
    requires 0 < offset < 0x8000 && length > 0
    ensures
      var (c, x) := CopyOnce(offset, length);
      c != [] && c[0] % 4 != 0 && CopyTag(c) == Ok((|c|, offset, x))
  {
    var (c, x) := CopyOnce(offset, length);
    if 4 <= length < 12 && offset < 0x800 {
      ShortTag(offset / 0x100, length - 4);
    } else {
      assert c[0] == (x - 1) * 4 + 2 && c[0] % 4 == 2 && c[0] / 4 == x - 1;
    }
  }

  lemma CopyOnceDecodes(offset: nat, length: nat, dst: seq<byte>, d: nat)
    requires 0 < offset < 0x8000 && length > 0 && offset <= d && d + length <= |dst|
    ensures var (c, x) := CopyOnce(offset, length);
            c != [] && Chunk(c, dst, d) == Ok((|c|, Overlap(dst, d, offset, x), d + x))
  {
    hide CopyOnce, CopyTag, Overlap;
    CopyOnceTag(offset, length);
  }

  lemma {:induction false} OverlapSplits(dst: seq<byte>, d: nat, offset: nat, m: nat, n: nat)
    requires offset <= d && d + m + n <= |dst|
    ensures Overlap(dst, d, offset, m + n) == Overlap(Overlap(dst, d, offset, m), d + m, offset, n)
    decreases m
  {
    if m > 0 { OverlapSplits(dst[d := dst[d - offset]], d + 1, offset, m - 1, n); }
  }

  lemma {:induction false} CopyDecodes(offset: nat, length: nat, dst: seq<byte>, d: nat)
    requires 0 < offset < 0x8000 && offset <= d && d + length <= |dst|
    ensures Chunks(CopyChunks(offset, length), dst, d) == Ok((Overlap(dst, d, offset, length), d + length))
    decreases length
  {
    hide Chunk, CopyOnce;
    if length > 0 {
      var (c, x) := CopyOnce(offset, length);
      var rest := CopyChunks(offset, length - x);
      assert CopyChunks(offset, length) == c + rest;
      CopyOnceDecodes(offset, length, dst, d);
      var dst' := Overlap(dst, d, offset, x);
      OneChunk(c, dst, d, dst', d + x);
      hide CopyChunks, Overlap, Chunks;
      ChunksJoin(c, rest, dst, d);
      CopyDecodes(offset, length - x, dst', d + x);
      OverlapSplits(dst, d, offset, x, length - x);
    }
  }

  /** The byte-by-byte copy extends a text that repeats itself `offset` bytes apart. */
  lemma {:induction false} OverlapRepeats(dst: seq<byte>, text: seq<byte>, d: nat, offset: nat, n: nat)
    requires 0 < offset <= d && d + n <= |text| <= |dst|
    requires forall k :: d <= k < d + n ==> text[k] == text[k - offset]
    ensures Overlap(Filled(dst, text[..d]), d, offset, n) == Filled(dst, text[..d + n])
    decreases n
  {
    if n > 0 {
      assert text[..d + 1] == text[..d] + [text[d]];
      assert Filled(dst, text[..d])[d := text[d]] == Filled(dst, text[..d + 1]);
      OverlapRepeats(dst, text, d + 1, offset, n - 1);
    }
  }

  // ----- growing the encoding -----

  lemma NothingDecodes()
    ensures DecodesTo([], [])
  {
    forall dst: seq<byte>
      ensures Chunks([], dst, 0) == Ok((Filled(dst, []), 0))
    {
      assert Filled(dst, []) == dst;
    }
  }

  lemma AddLiteral(b: seq<byte>, text: seq<byte>, from: nat, to: nat)
    requires from < to <= |text| && to - from <= 0x1_0000_0000 && DecodesTo(b, text[..from])
    ensures DecodesTo(b + LiteralChunk(text[from..to]), text[..to])
  {
    hide Chunk, Chunks, LiteralTag, LiteralChunk;
    var lit := text[from..to];
    var c := LiteralChunk(lit);
    forall dst: seq<byte> | to <= |dst|
      ensures Chunks(b + c, dst, 0) == Ok((Filled(dst, text[..to]), to))
    {
      var mid := Filled(dst, text[..from]);
      assert Chunks(b, dst, 0) == Ok((mid, from));
      ChunksJoin(b, c, dst, 0);
      LiteralDecodes(lit, mid, from);
      assert text[..from] + lit == text[..to];
      assert mid[..from] + lit + mid[to..] == Filled(dst, text[..to]);
    }
  }

  lemma AddCopy(b: seq<byte>, text: seq<byte>, from: nat, to: nat, offset: nat)
    requires 0 < offset <= from <= to <= |text| && offset < 0x8000 && DecodesTo(b, text[..from])
    requires forall k :: from <= k < to ==> text[k] == text[k - offset]
    ensures DecodesTo(b + CopyChunks(offset, to - from), text[..to])
  {
    hide Chunk, Chunks, CopyChunks, Overlap;
    var c := CopyChunks(offset, to - from);
    forall dst: seq<byte> | to <= |dst|
      ensures Chunks(b + c, dst, 0) == Ok((Filled(dst, text[..to]), to))
    {
      var mid := Filled(dst, text[..from]);
      assert Chunks(b, dst, 0) == Ok((mid, from));
      ChunksJoin(b, c, dst, 0);
      CopyDecodes(offset, to - from, mid, from);
      var t := text[..to];
      assert t[..from] == text[..from] && t[..to] == t;
      OverlapRepeats(dst, t, from, offset, to - from);
    }
  }

  // ----- the header -----

  lemma HeaderReads(n: nat, rest: seq<byte>)
    requires n <= 0x1_0000_0000
    ensures |Encode(n)| <= 5
    ensures Uvarint(Encode(n) + rest) == (n, |Encode(n)|)
    ensures DecodedLen(Encode(n) + rest) == Ok((n, |Encode(n)|))
  {
    Powers();
    hide Encode, Scan, Pow2;
    EncodeLength(n, 5);
    ScanEncode(n, rest);
  }

  /** A block made of the length of the text and chunks for the text decodes to the text,
      whatever buffer the caller passes. */
  lemma BlockDecodes(buffer: seq<byte>, text: seq<byte>, b: seq<byte>)
    requires |text| <= 0x1_0000_0000 && DecodesTo(b, text)
    ensures Decode(buffer, Encode(|text|) + b) == Ok(text)
  {
    var h := Encode(|text|);
    HeaderReads(|text|, b);
    assert (h + b)[|h|..] == b;
    var dst := if |buffer| < |text| then Zeros(|text|) else buffer;
    assert Chunks(b, dst, 0) == Ok((Filled(dst, text), |text|));
    assert Filled(dst, text)[..|text|] == text;
  }

  // ----- size -----

  lemma LiteralSize(lit: seq<byte>)
    requires 0 < |lit| <= 0x1_0000_0000
    ensures |LiteralChunk(lit)| <= |lit| + 1 + |lit| / 60
  {
  }

  /** A match of four bytes or more always saves at least one. */
  lemma {:induction false} CopySize(offset: nat, length: nat)
    requires offset < 0x8000
    ensures |CopyChunks(offset, length)| <= if length >= 4 then length - 1 else if length > 0 then 3 else 0
    decreases length
  {
    if length > 0 {
      var (c, x) := CopyOnce(offset, length);
      CopySize(offset, length - x);
    }
  }
}
