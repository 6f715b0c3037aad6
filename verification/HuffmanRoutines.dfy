/** The Huffman coder as it runs: bytes filled bit by bit with shifts, a trie built one
    codeword at a time, and the decoder's loops. */
module HuffmanRoutines {
  import opened Wrappers
  import opened Base128
  import opened Huffman
  import opened HuffmanRoundTrip

  // ----- bits back to numbers -----

  lemma {:induction false} BytesInjective(b: seq<byte>, c: seq<byte>)
    requires BytesBits(b) == BytesBits(c)
    ensures b == c
  {
    if b != [] {
      Powers();
      var x, y := BytesBits(b), BytesBits(c);
      assert x[..8] == ToBits(b[0], 8) && y[..8] == ToBits(c[0], 8);
      assert x[8..] == BytesBits(b[1..]) && y[8..] == BytesBits(c[1..]);
      SameBits(b[0], c[0], 8);
      BytesInjective(b[1..], c[1..]);
    }
  }

  function FromBits(b: Bits): (v: nat)
    ensures v < Pow2(|b|)
  {
    if b == [] then 0 else FromBits(b[..|b| - 1]) * 2 + if b[|b| - 1] then 1 else 0
  }

  lemma {:induction false} FromToBits(b: Bits)
    ensures ToBits(FromBits(b), |b|) == b
  {
    if b != [] {
      FromToBits(b[..|b| - 1]);
      assert b == b[..|b| - 1] + [b[|b| - 1]];
    }
  }

  function Pack(b: Bits): (r: seq<byte>)
    requires |b| % 8 == 0
    ensures |r| == |b| / 8
  {
    if b == [] then []
    else
      Powers();
      [FromBits(b[..8])] + Pack(b[8..])
  }

  lemma {:induction false} PackBits(b: Bits)
    requires |b| % 8 == 0
    ensures BytesBits(Pack(b)) == b
  {
    if b != [] {
      FromToBits(b[..8]);
      PackBits(b[8..]);
      assert Pack(b)[1..] == Pack(b[8..]);
    }
  }

  /** The encoding of s, as a function. */
  function EncodeString(t: Codes, s: seq<byte>): seq<byte>
    requires |t| == 256
  {
    StringBitsLength(t, s);
    Pack(StringBits(t, s) + Ones(8 * EncodedLength(t, s) - BitCount(t, s)))
  }

  lemma EncodeStringEncodes(t: Codes, s: seq<byte>)
    requires |t| == 256
    ensures Encodes(t, EncodeString(t, s), s)
  {
    StringBitsLength(t, s);
    PackBits(StringBits(t, s) + Ones(8 * EncodedLength(t, s) - BitCount(t, s)));
  }

  /** The encoder's and the decoder's sides together. */
  lemma RoundTrip(t: Codes, trie: Trie, s: seq<byte>)
    requires GoodCodes(t) && TrieFor(t, trie)
    ensures Decode(trie, EncodeString(t, s)) == Some(s)
    ensures |EncodeString(t, s)| == EncodedLength(t, s)
  {
    EncodeStringEncodes(t, s);
    DecodeEncoded(t, trie, EncodeString(t, s), s);
  }

  // ----- the encoder -----

  /** dst holds the bits w, and its last byte still has `free` low bits, all zero. */
  ghost predicate Room(dst: seq<byte>, free: nat, w: Bits) {
    free <= 8 && BytesBits(dst) == w + Zeros(free)
  }

  lemma {:induction false} ShrBound(v: nat, m: nat, n: nat)
    requires v < Pow2(m + n)
    ensures Shr(v, n) < Pow2(m)
    decreases n
  {
    if n > 0 { ShrBound(v / 2, m, n - 1); }
  }

  lemma {:induction false} ShrShr(v: nat, m: nat, n: nat)
    ensures Shr(Shr(v, m), n) == Shr(v, m + n)
    decreases m
  {
    if m > 0 { ShrShr(v / 2, m - 1, n); }
  }

  lemma {:induction false} ZeroLow(a: nat, m: nat, r: nat)
    requires a < Pow2(m + r) && ToBits(a, r) == Zeros(r)
    ensures a + Pow2(r) <= Pow2(m + r)
    decreases r
  {
    if r > 0 {
      assert ToBits(a, r)[r - 1] == Zeros(r)[r - 1];
      assert ToBits(a / 2, r - 1) == ToBits(a, r)[..r - 1] == Zeros(r)[..r - 1] == Zeros(r - 1);
      ZeroLow(a / 2, m, r - 1);
    }
  }

  /** The last byte of dst: the end of w in its high bits, zeros in its free ones. */
  lemma LastSplits(dst: seq<byte>, free: nat, w: Bits)
    requires dst != [] && Room(dst, free, w)
    ensures var last := dst[|dst| - 1];
            && ToBits(last, free) == Zeros(free)
            && w == BytesBits(dst[..|dst| - 1]) + ToBits(Shr(last, free), 8 - free)
  {
    hide BytesBits, ToBits, Shr, Zeros;
    var init, last := dst[..|dst| - 1], dst[|dst| - 1];
    assert dst == init + [last];
    PathByte(init, last);
    BitsSplit(last, 8 - free, free);
    var x := BytesBits(init) + ToBits(Shr(last, free), 8 - free);
    assert x + ToBits(last, free) == w + Zeros(free);
    assert (w + Zeros(free))[|w|..] == Zeros(free) && (x + ToBits(last, free))[|x|..] == ToBits(last, free);
    assert (w + Zeros(free))[..|w|] == w && (x + ToBits(last, free))[..|x|] == x;
  }

  lemma FillFits(last: byte, free: nat, t: nat)
    requires free <= 8 && ToBits(last, free) == Zeros(free) && t < Pow2(free)
    ensures last + t < 256
    ensures ToBits(last + t, 8) == ToBits(Shr(last, free), 8 - free) + ToBits(t, free)
  {
    Powers();
    hide ToBits, Shr, Zeros, Pow2;
    ZeroLow(last, 8 - free, free);
    BitsFill(last, t, 8 - free, free);
  }

  /** The bitwise or of t into the free bits of the last byte. */
  lemma FillLast(dst: seq<byte>, free: nat, w: Bits, t: nat)
    requires dst != [] && Room(dst, free, w) && t < Pow2(free)
    ensures var last := dst[|dst| - 1];
            last + t < 256 && BytesBits(dst[..|dst| - 1] + [last + t]) == w + ToBits(t, free)
  {
    var init, last := dst[..|dst| - 1], dst[|dst| - 1];
    LastSplits(dst, free, w);
    FillFits(last, free, t);
    hide BytesBits, ToBits, Shr, Zeros, Pow2, Room;
    PathByte(init, last + t);
    assert BytesBits(init) + (ToBits(Shr(last, free), 8 - free) + ToBits(t, free)) == w + ToBits(t, free);
  }

  lemma NewByte(dst: seq<byte>, w: Bits)
    requires Room(dst, 0, w)
    ensures Room(dst + [0], 8, w)
  {
    PathByte(dst, 0);
    BitsOfZero(8);
    assert w + Zeros(0) == w;
  }

  /** The bits of a part of the code: those of the whole byte, cut to what is free. */
  lemma LastPart(code: nat, nbits: nat, free: nat)
    requires nbits < free <= 8 && (code < Pow2(nbits) || free == 8)
    ensures code * Pow2(free - nbits) % 256 < Pow2(free)
    ensures ToBits(code * Pow2(free - nbits) % 256, free) == ToBits(code, nbits) + Zeros(free - nbits)
  {
    Powers();
    hide ToBits, Pow2, Zeros;
    var v := code * Pow2(free - nbits);
    ShlBits(code, nbits, free - nbits);
    BitsMod(v, 8, free);
    if free < 8 {
      Pow2Adds(nbits, free - nbits);
      Pow2Monotone(free, 8);
      TimesBelow(code, Pow2(nbits), Pow2(free - nbits));
      assert v < Pow2(free) <= 256;
    }
  }

  lemma TimesBelow(a: nat, b: nat, p: nat)
    requires a < b && p > 0
    ensures a * p < b * p
  {
  }

  lemma FullPart(code: nat, len: nat, nbits: nat, free: nat)
    requires 0 < free <= nbits <= len && free <= 8 && (code < Pow2(nbits) || free == 8)
    ensures Shr(code, nbits - free) % 256 < Pow2(free)
    ensures ToBits(Shr(code, nbits), len - nbits) + ToBits(Shr(code, nbits - free) % 256, free)
            == ToBits(Shr(code, nbits - free), len - nbits + free)
  {
    Powers();
    hide ToBits, Shr, Pow2;
    var v := Shr(code, nbits - free);
    BitsMod(v, 8, free);
    ShrShr(code, nbits - free, free);
    BitsSplit(v, len - nbits, free);
    if free < 8 {
      ShrBound(code, free, nbits - free);
      Pow2Monotone(free, 8);
    }
  }

  /** What is left of the codeword does not fill the last byte. */
  lemma LastStep(dst: seq<byte>, free: nat, code: nat, len: nat, nbits: nat, w: Bits)
    requires dst != [] && nbits < free <= 8 && nbits <= len && (code < Pow2(nbits) || free == 8)
    requires Room(dst, free, w + ToBits(Shr(code, nbits), len - nbits))
    ensures
      var x := code * Pow2(free - nbits) % 256;
      && dst[|dst| - 1] + x < 256
      && Room(dst[..|dst| - 1] + [dst[|dst| - 1] + x], free - nbits, w + ToBits(code, len))
  {
    hide Pow2, ToBits, BytesBits, Shr, Zeros;
    var done := w + ToBits(Shr(code, nbits), len - nbits);
    LastPart(code, nbits, free);
    FillLast(dst, free, done, code * Pow2(free - nbits) % 256);
    BitsSplit(code, len - nbits, nbits);
    assert done + (ToBits(code, nbits) + Zeros(free - nbits)) == w + ToBits(code, len) + Zeros(free - nbits);
  }

  /** It fills it, and something or nothing is left. */
  lemma FullStep(dst: seq<byte>, free: nat, code: nat, len: nat, nbits: nat, w: Bits)
    requires dst != [] && 0 < free <= nbits <= len && free <= 8 && (code < Pow2(nbits) || free == 8)
    requires Room(dst, free, w + ToBits(Shr(code, nbits), len - nbits))
    ensures
      var x := Shr(code, nbits - free) % 256;
      && dst[|dst| - 1] + x < 256
      && Room(dst[..|dst| - 1] + [dst[|dst| - 1] + x], 0, w + ToBits(Shr(code, nbits - free), len - nbits + free))
  {
    hide Pow2, ToBits, BytesBits, Shr;
    var done, x := w + ToBits(Shr(code, nbits), len - nbits), Shr(code, nbits - free) % 256;
    FullPart(code, len, nbits, free);
    FillLast(dst, free, done, x);
    assert done + ToBits(x, free) == w + ToBits(Shr(code, nbits - free), len - nbits + free);
    assert Zeros(0) == [];
  }

  /** appendByteToHuffmanCode: `rembits` low bits of the last byte are free; 8 on return
      means that the last byte is full. */
  method AppendByte(t: Codes, dst0: seq<byte>, rembits0: nat, c: byte, ghost w: Bits)
      returns (dst: seq<byte>, rembits: nat)
    requires ValidCodes(t) && dst0 != [] && 1 <= rembits0 <= 8 && Room(dst0, rembits0, w)
    ensures 1 <= rembits <= 8 && dst != []
    ensures Room(dst, if rembits == 8 then 0 else rembits, w + CodeBits(t, c))
  {
    hide Pow2, ToBits, BytesBits, Shr, Zeros, Room;
    dst, rembits := dst0, rembits0;
    var code, nbits, len := t[c].bits, t[c].len, t[c].len;
    assert w + ToBits(Shr(code, nbits), 0) == w;
    while true
      invariant 1 <= nbits <= len && 1 <= rembits <= 8 && dst != []
      invariant nbits == len || rembits == 8
      invariant Room(dst, rembits, w + ToBits(Shr(code, nbits), len - nbits))
      decreases nbits
    {
      if rembits > nbits {
        LastStep(dst, rembits, code, len, nbits, w);
        var x: nat := code * Pow2(rembits - nbits) % 256;
        dst := dst[..|dst| - 1] + [dst[|dst| - 1] + x];
        rembits := rembits - nbits;
        break;
      }
      FullStep(dst, rembits, code, len, nbits, w);
      var x: nat := Shr(code, nbits - rembits) % 256;
      dst := dst[..|dst| - 1] + [dst[|dst| - 1] + x];
      nbits := nbits - rembits;
      rembits := 8;
      if nbits == 0 {
        ShrNone(code);
        break;
      }
      NewByte(dst, w + ToBits(Shr(code, nbits), len - nbits));
      dst := dst + [0];
    }
  }

  lemma ShrNone(v: nat)
    ensures Shr(v, 0) == v
  {
  }

  lemma EosSize()
    ensures Pow2(30) == 0x4000_0000
  {
    Powers();
    Pow2Adds(2, 28);
  }

  lemma EosPart(rembits: nat)
    requires rembits < 8
    ensures Shr(0x3fff_ffff, 30 - rembits) % 256 < Pow2(rembits)
    ensures ToBits(Shr(0x3fff_ffff, 30 - rembits) % 256, rembits) == Ones(rembits)
  {
    EosSize();
    EosTop(0x3fff_ffff, rembits, 30 - rembits);
  }

  /** The top bits of a number that is all ones. */
  lemma EosTop(eos: nat, m: nat, n: nat)
    requires m <= 8 && eos == Pow2(m + n) - 1
    ensures Shr(eos, n) % 256 < Pow2(m) && ToBits(Shr(eos, n) % 256, m) == Ones(m)
  {
    Powers();
    hide Pow2, ToBits, Shr, Ones;
    ShrBound(eos, m, n);
    Pow2Monotone(m, 8);
    BitsOfOnes(m + n);
    BitsSplit(eos, m, n);
    OnesPrefix(Ones(m + n)[..m], m + n);
    BitsMod(Shr(eos, n), 8, m);
  }

  /** Append the Huffman encoding of s to dst. */
  method AppendHuffmanString(t: Codes, dst0: seq<byte>, s: seq<byte>) returns (dst: seq<byte>)
    requires ValidCodes(t)
    ensures dst == dst0 + EncodeString(t, s)
  {
    hide Pow2, ToBits, BytesBits, Shr, Zeros, CodeBits;
    dst := dst0;
    var rembits: nat := 8;
    ghost var w := BytesBits(dst0);
    assert s[..0] == [] && w + StringBits(t, []) == w && Zeros(0) == [];
    for i := 0 to |s|
      invariant 1 <= rembits <= 8 && (rembits < 8 ==> dst != [])
      invariant Room(dst, if rembits == 8 then 0 else rembits, w + StringBits(t, s[..i]))
    {
      ghost var done := w + StringBits(t, s[..i]);
      if rembits == 8 {
        NewByte(dst, done);
        dst := dst + [0];
      }
      dst, rembits := AppendByte(t, dst, rembits, s[i], done);
      assert s[..i + 1] == s[..i] + [s[i]];
      StringBitsJoin(t, s[..i], [s[i]]);
      assert [s[i]][1..] == [];
      assert StringBits(t, [s[i]]) == CodeBits(t, s[i]) + StringBits(t, []);
    }
    assert s[..|s|] == s;
    ghost var all := w + StringBits(t, s);
    if rembits < 8 {
      EosPart(rembits);
      var x: nat := Shr(0x3fff_ffff, 30 - rembits) % 256;
      FillLast(dst, rembits, all, x);
      dst := dst[..|dst| - 1] + [dst[|dst| - 1] + x];
    }
    assert BytesBits(dst) == all + Ones(if rembits == 8 then 0 else rembits);
    PaddedIsEncoding(t, dst0, dst, s, if rembits == 8 then 0 else rembits);
  }

  lemma PaddedIsEncoding(t: Codes, dst0: seq<byte>, dst: seq<byte>, s: seq<byte>, k: nat)
    requires |t| == 256 && k <= 7 && BytesBits(dst) == BytesBits(dst0) + StringBits(t, s) + Ones(k)
    ensures dst == dst0 + EncodeString(t, s)
  {
    hide ToBits, BytesBits, StringBits, Ones;
    StringBitsLength(t, s);
    EncodeStringEncodes(t, s);
    var b := EncodeString(t, s);
    BytesBitsJoin(dst0, b);
    assert 8 * |dst| == 8 * |dst0| + BitCount(t, s) + k;
    assert |b| == |dst| - |dst0|;
    assert BytesBits(dst0) + (StringBits(t, s) + Ones(k)) == BytesBits(dst);
    BytesInjective(dst, dst0 + b);
  }

  method HuffmanEncodeLength(t: Codes, s: seq<byte>) returns (n: nat)
    requires |t| == 256
    ensures n == |EncodeString(t, s)|
  {
    n := 0;
    for i := 0 to |s|
      invariant n + BitCount(t, s[i..]) == BitCount(t, s)
    {
      assert s[i..][1..] == s[i + 1..];
      n := n + t[s[i]].len;
    }
    EncodeStringEncodes(t, s);
    n := (n + 7) / 8;
  }

  // ----- the decoder -----

  /** The decoder's loops. None stands for a nil node. */
  method HuffmanDecode(trie: Trie, v: seq<byte>) returns (r: Option<seq<byte>>)
    ensures r == Decode(trie, v)
  {
    var path: seq<byte>, cur: nat, nbits: nat, out: seq<byte> := [], 0, 0, [];
    for i := 0 to |v|
      invariant nbits < 8
      invariant var goal := Feed(trie, Walk([], 0, 0, []), v); goal == Feed(trie, Walk(path, cur, nbits, out), v[i..])
    {
      ghost var goal := Feed(trie, Walk(path, cur, nbits, out), v[i..]);
      assert v[i..][1..] == v[i + 1..];
      cur, nbits := (cur * 256 + v[i]) % 0x1_0000_0000_0000_0000, nbits + 8;
      ghost var fed := Eat(trie, Walk(path, cur, nbits, out));
      while nbits >= 8
        invariant Eat(trie, Walk(path, cur, nbits, out)) == fed
        decreases nbits
      {
        var p := path + [Shr(cur, nbits - 8) % 256];
        if p !in trie { return None; }
        match trie[p] {
          case Inner => path, nbits := p, nbits - 8;
          case Leaf(sym, len) =>
            if !(0 < len <= nbits) { return None; }
            out, nbits, path := out + [sym], nbits - len, [];
        }
      }
    }
    ghost var goal := Finish(trie, Walk(path, cur, nbits, out));
    assert v[|v|..] == [];
    while nbits > 0
      invariant nbits < 8 && Finish(trie, Walk(path, cur, nbits, out)) == goal
      decreases nbits
    {
      var p := path + [cur * Pow2(8 - nbits) % 256];
      if p !in trie { return None; }
      var node := trie[p];
      if node.Inner? || node.codeLen > nbits { break; }
      if node.codeLen == 0 { return None; }
      out, nbits, path := out + [node.sym], nbits - node.codeLen, [];
    }
    return Some(out);
  }

  // ----- building the trie -----

  /** No two codewords claim the same node, unless both only pass through it. */
  lemma Clash(t: Codes, c: byte, d: byte, p: seq<byte>)
    requires |t| == 256 && PrefixFree(t) && c != d && LeafFor(t, c, p)
    ensures !LeafFor(t, d, p) && !InnerFor(t, d, p)
  {
    hide ToBits, BytesBits;
    var x, a, b := BytesBits(p), CodeBits(t, c), CodeBits(t, d);
    BothPrefixes(a, b, x);
    assert a <= x && x <= b ==> a <= b;
  }

  /** The codeword's bytes on the way to its leaf. */
  lemma CodeByte(t: Codes, c: byte, path: seq<byte>, codeLen: nat)
    requires ValidCodes(t) && codeLen + 8 * |path| + 8 == t[c].len
    requires BytesBits(path) == CodeBits(t, c)[..8 * |path|]
    ensures BytesBits(path + [Shr(t[c].bits, codeLen) % 256]) == CodeBits(t, c)[..8 * |path| + 8]
  {
    hide ToBits, BytesBits, Shr;
    Powers();
    hide Pow2;
    var v, j := Shr(t[c].bits, codeLen), 8 * |path|;
    PathByte(path, v % 256);
    BitsMod(v, 8, 8);
    BitsSplit(t[c].bits, j + 8, codeLen);
    BitsSplit(v, j, 8);
    assert CodeBits(t, c)[..j + 8] == ToBits(v, j + 8);
    assert CodeBits(t, c)[..j] == ToBits(v, j + 8)[..j];
  }

  /** The first of the bytes whose top bits are the last codeLen bits of the code. */
  lemma LeafStart(code: nat, codeLen: nat)
    requires 1 <= codeLen <= 8
    ensures
      var start := code * Pow2(8 - codeLen) % 256;
      && start < 256 && start + Pow2(8 - codeLen) <= 256
      && ToBits(start, 8 - codeLen) == Zeros(8 - codeLen) && ToBits(start, 8)[..codeLen] == ToBits(code, codeLen)
  {
    Powers();
    hide ToBits, Pow2, Zeros;
    var shift := 8 - codeLen;
    var start := code * Pow2(shift) % 256;
    LastByte(code, codeLen);
    DropBits(start, 8, codeLen);
    assert ToBits(start, shift) == Zeros(shift);
    ZeroLow(start, codeLen, shift);
  }

  lemma LeafInside(start: nat, codeLen: nat, i: nat)
    requires 1 <= codeLen <= 8 && ToBits(start, 8 - codeLen) == Zeros(8 - codeLen)
    requires start <= i < start + Pow2(8 - codeLen)
    ensures ToBits(i, 8)[..codeLen] == ToBits(start, 8)[..codeLen]
  {
    hide ToBits, Pow2, Shr;
    BitsFill(start, i - start, codeLen, 8 - codeLen);
    BitsSplit(start, codeLen, 8 - codeLen);
  }

  lemma LeafOutside(start: nat, codeLen: nat, i: nat)
    requires 1 <= codeLen <= 8 && ToBits(start, 8 - codeLen) == Zeros(8 - codeLen) && start < 256 && i < 256
    requires ToBits(i, 8)[..codeLen] == ToBits(start, 8)[..codeLen]
    ensures start <= i < start + Pow2(8 - codeLen)
  {
    Powers();
    hide ToBits, Pow2, Shr;
    var shift := 8 - codeLen;
    BitsSplit(i, codeLen, shift);
    BitsSplit(start, codeLen, shift);
    ShrBound(i, codeLen, shift);
    ShrBound(start, codeLen, shift);
    SameBits(Shr(i, shift), Shr(start, shift), codeLen);
    ShrFloor(i, shift);
    ZeroRest(start, shift);
  }

  /** The bytes whose top bits are the last codeLen bits of the code. */
  lemma LeafRange(code: nat, codeLen: nat, i: nat)
    requires 1 <= codeLen <= 8
    ensures var shift := 8 - codeLen; var start := code * Pow2(shift) % 256;
            && start + Pow2(shift) <= 256
            && (i < 256 ==> (start <= i < start + Pow2(shift) <==> ToBits(i, 8)[..codeLen] == ToBits(code, codeLen)))
  {
    LeafStart(code, codeLen);
    hide ToBits, Pow2, Zeros;
    var start := code * Pow2(8 - codeLen) % 256;
    if start <= i < start + Pow2(8 - codeLen) {
      LeafInside(start, codeLen, i);
    } else if i < 256 && ToBits(i, 8)[..codeLen] == ToBits(code, codeLen) {
      LeafOutside(start, codeLen, i);
    }
  }

  lemma {:induction false} ShrFloor(v: nat, n: nat)
    ensures Shr(v, n) * Pow2(n) <= v < Shr(v, n) * Pow2(n) + Pow2(n)
    decreases n
  {
    if n == 0 {
      assert Shr(v, 0) * Pow2(0) == v;
    } else {
      ShrFloor(v / 2, n - 1);
      Doubling(Shr(v, n), Pow2(n - 1));
    }
  }

  lemma {:induction false} ZeroRest(v: nat, n: nat)
    requires ToBits(v, n) == Zeros(n)
    ensures v == Shr(v, n) * Pow2(n)
    decreases n
  {
    if n == 0 {
      assert Shr(v, 0) * Pow2(0) == v;
    } else {
      assert ToBits(v, n)[n - 1] == Zeros(n)[n - 1];
      assert ToBits(v / 2, n - 1) == ToBits(v, n)[..n - 1] == Zeros(n)[..n - 1] == Zeros(n - 1);
      ZeroRest(v / 2, n - 1);
      Doubling(Shr(v, n), Pow2(n - 1));
    }
  }

  /** Codeword c is entered down to depth d. */
  ghost predicate Entered(t: Codes, c: byte, trie: Trie, d: nat)
    requires |t| == 256
  {
    forall p :: InnerFor(t, c, p) && |p| <= d ==> p in trie && trie[p] == Inner
  }

  lemma SamePath(t: Codes, c: byte, p: seq<byte>, q: seq<byte>)
    requires |t| == 256 && |p| == |q| && BytesBits(p) <= CodeBits(t, c) && BytesBits(q) <= CodeBits(t, c)
    ensures p == q
  {
    hide ToBits, BytesBits;
    BytesInjective(p, q);
  }

  /** A node already there on the codeword's way is an internal one. */
  lemma WayIsInner(t: Codes, c: byte, trie: Trie, p: seq<byte>)
    requires |t| == 256 && PrefixFree(t) && Sound(t, c as int + 1, trie) && InnerFor(t, c, p) && p in trie
    ensures trie[p] == Inner
  {
    hide ToBits, BytesBits;
    assert NodeSound(t, c as int + 1, p, trie[p]);
    if trie[p].Leaf? && trie[p].sym != c {
      Clash(t, trie[p].sym, c, p);
    }
  }

  lemma EnterInner(t: Codes, c: byte, trie: Trie, p: seq<byte>, trie': Trie)
    requires |t| == 256 && PrefixFree(t) && InnerFor(t, c, p)
    requires Sound(t, c as int + 1, trie) && Complete(t, c as int, trie) && Entered(t, c, trie, |p| - 1)
    requires trie' == if p in trie then trie else trie[p := Inner]
    ensures Sound(t, c as int + 1, trie') && Complete(t, c as int, trie') && Entered(t, c, trie', |p|)
  {
    hide LeafFor, InnerFor, PrefixFree;
    if p in trie { WayIsInner(t, c, trie, p); }
    assert NodeSound(t, c as int + 1, p, Inner);
    forall q | InnerFor(t, c, q) && |q| <= |p|
      ensures q in trie' && trie'[q] == Inner
    {
      if |q| == |p| { InnerPath(t, c, p, q); }
    }
    forall d: byte | d < c
      ensures CodeIn(t, d, trie')
    {
      assert CodeIn(t, d, trie);
    }
  }

  lemma InnerPath(t: Codes, c: byte, p: seq<byte>, q: seq<byte>)
    requires |t| == 256 && InnerFor(t, c, p) && InnerFor(t, c, q) && |p| == |q|
    ensures p == q
  {
    hide BytesBits, ToBits;
    SamePath(t, c, p, q);
  }

  lemma EnterLeaf(t: Codes, c: byte, trie: Trie, p: seq<byte>, d: nat)
    requires |t| == 256 && PrefixFree(t) && LeafFor(t, c, p) && d == |p| - 1
    requires Sound(t, c as int + 1, trie) && Complete(t, c as int, trie) && Entered(t, c, trie, d)
    ensures var trie' := trie[p := Leaf(c, t[c].len - 8 * d)];
            Sound(t, c as int + 1, trie') && Complete(t, c as int, trie') && Entered(t, c, trie', d)
  {
    hide LeafFor, InnerFor, PrefixFree;
    forall e: byte | e != c
      ensures !LeafFor(t, e, p) && !InnerFor(t, e, p)
    {
      Clash(t, c, e, p);
    }
    LeafDepth(t, c, p);
    assert NodeSound(t, c as int + 1, p, Leaf(c, t[c].len - 8 * d));
    var trie' := trie[p := Leaf(c, t[c].len - 8 * d)];
    forall e: byte | e < c
      ensures CodeIn(t, e, trie')
    {
      assert CodeIn(t, e, trie);
    }
    forall q
      ensures InnerFor(t, c, q) && |q| <= d ==> q != p
    {
    }
  }

  lemma LeafDepth(t: Codes, c: byte, p: seq<byte>)
    requires |t| == 256
    ensures LeafFor(t, c, p) ==> p != [] && 8 * (|p| - 1) < t[c].len <= 8 * |p|
    ensures InnerFor(t, c, p) ==> p != [] && 8 * |p| < t[c].len
  {
  }

  /** A leaf of the codeword is its way and one byte with the right top bits. */
  lemma LeafBytes(t: Codes, c: byte, path: seq<byte>, codeLen: nat, i: byte)
    requires ValidCodes(t) && 1 <= codeLen <= 8 && codeLen + 8 * |path| == t[c].len
    requires BytesBits(path) == CodeBits(t, c)[..8 * |path|]
    ensures LeafFor(t, c, path + [i]) <==> ToBits(i, 8)[..codeLen] == ToBits(t[c].bits, codeLen)
  {
    hide ToBits, BytesBits;
    PathByte(path, i);
    DropBits(t[c].bits, t[c].len, 8 * |path|);
    var x, y := BytesBits(path + [i]), CodeBits(t, c);
    assert y == y[..8 * |path|] + y[8 * |path|..];
    assert x[..t[c].len] == BytesBits(path) + ToBits(i, 8)[..codeLen];
    assert x[..t[c].len][8 * |path|..] == ToBits(i, 8)[..codeLen];
  }

  lemma LeafParts(t: Codes, c: byte, path: seq<byte>, p: seq<byte>)
    requires |t| == 256 && LeafFor(t, c, p) && 8 * |path| < t[c].len <= 8 * |path| + 8
    requires BytesBits(path) == CodeBits(t, c)[..8 * |path|]
    ensures |p| == |path| + 1 && p == path + [p[|path|]]
  {
    hide ToBits, BytesBits;
    var init := p[..|path|];
    assert p == init + [p[|path|]];
    PathByte(init, p[|path|]);
    assert BytesBits(init) == BytesBits(p)[..8 * |path|] == CodeBits(t, c)[..8 * |path|];
    BytesInjective(init, path);
  }

  /** The leaves of the codeword, byte by byte, are all its leaves. */
  ghost predicate LeavesIn(t: Codes, c: byte, trie: Trie, path: seq<byte>, codeLen: nat)
    requires |t| == 256
  {
    forall i: byte :: LeafIn(t, c, trie, path + [i], codeLen)
  }

  ghost predicate LeafIn(t: Codes, c: byte, trie: Trie, p: seq<byte>, codeLen: nat)
    requires |t| == 256
  {
    LeafFor(t, c, p) ==> p in trie && trie[p] == Leaf(c, codeLen)
  }

  lemma LeafEntered(t: Codes, c: byte, trie: Trie, path: seq<byte>, codeLen: nat, p: seq<byte>)
    requires ValidCodes(t) && 1 <= codeLen <= 8 && codeLen + 8 * |path| == t[c].len
    requires BytesBits(path) == CodeBits(t, c)[..8 * |path|]
    requires LeavesIn(t, c, trie, path, codeLen) && LeafFor(t, c, p)
    ensures p in trie && trie[p] == Leaf(c, t[c].len - 8 * (|p| - 1))
  {
    hide ToBits, BytesBits, LeafFor;
    LeafParts(t, c, path, p);
    assert LeafIn(t, c, trie, path + [p[|path|]], codeLen);
  }

  /** The codeword is fully entered once its leaves are. */
  lemma AllEntered(t: Codes, c: byte, trie: Trie, path: seq<byte>, codeLen: nat)
    requires ValidCodes(t) && 1 <= codeLen <= 8 && codeLen + 8 * |path| == t[c].len
    requires BytesBits(path) == CodeBits(t, c)[..8 * |path|]
    requires Entered(t, c, trie, |path|) && LeavesIn(t, c, trie, path, codeLen)
    ensures CodeIn(t, c, trie)
  {
    hide ToBits, BytesBits, InnerFor, LeavesIn;
    forall p | LeafFor(t, c, p)
      ensures p in trie && trie[p] == Leaf(c, t[c].len - 8 * (|p| - 1))
    {
      LeafEntered(t, c, trie, path, codeLen, p);
    }
    forall p | InnerFor(t, c, p)
      ensures p in trie && trie[p] == Inner
    {
      LeafDepth(t, c, p);
    }
  }

  lemma CompleteMore(t: Codes, c: byte, trie: Trie)
    requires |t| == 256 && Complete(t, c as int, trie) && CodeIn(t, c, trie)
    ensures Complete(t, c as int + 1, trie)
  {
    hide CodeIn;
  }

  /** addDecoderNode: enter one more codeword. */
  method AddDecoderNode(t: Codes, c: byte, trie0: Trie) returns (trie: Trie)
    requires ValidCodes(t) && PrefixFree(t)
    requires Sound(t, c as int, trie0) && Complete(t, c as int, trie0)
    ensures Sound(t, c as int + 1, trie) && Complete(t, c as int + 1, trie)
  {
    hide ToBits, BytesBits, Pow2, Shr, PrefixFree, Sound, Complete, LeafFor, InnerFor;
    trie := trie0;
    SoundMore(t, c as int, trie);
    var code, codeLen := t[c].bits, t[c].len;
    var path: seq<byte> := [];
    NoPath();
    assert Entered(t, c, trie, 0) by { NothingEntered(t, c, trie); }
    while codeLen > 8
      invariant 1 <= codeLen && codeLen + 8 * |path| == t[c].len
      invariant BytesBits(path) == CodeBits(t, c)[..8 * |path|]
      invariant Sound(t, c as int + 1, trie) && Complete(t, c as int, trie) && Entered(t, c, trie, |path|)
    {
      codeLen := codeLen - 8;
      CodeByte(t, c, path, codeLen);
      var p := path + [Shr(code, codeLen) % 256];
      assert InnerFor(t, c, p) by { WayByte(t, c, p); }
      ghost var was := trie;
      if p !in trie {
        trie := trie[p := Inner];
      }
      EnterInner(t, c, was, p, trie);
      path := p;
    }
    var shift := 8 - codeLen;
    var start: nat, end := code * Pow2(shift) % 256, Pow2(shift);
    LeafRange(code, codeLen, 0);
    for i := start to start + end
      invariant Sound(t, c as int + 1, trie) && Complete(t, c as int, trie) && Entered(t, c, trie, |path|)
      invariant forall j: byte :: start <= j < i ==> path + [j] in trie && trie[path + [j]] == Leaf(c, codeLen)
    {
      LeafRange(code, codeLen, i);
      LeafBytes(t, c, path, codeLen, i);
      EnterLeaf(t, c, trie, path + [i], |path|);
      trie := trie[path + [i] := Leaf(c, codeLen)];
    }
    forall j: byte
      ensures LeafIn(t, c, trie, path + [j], codeLen)
    {
      LeafRange(code, codeLen, j);
      LeafBytes(t, c, path, codeLen, j);
    }
    AllEntered(t, c, trie, path, codeLen);
    CompleteMore(t, c, trie);
  }

  lemma NothingEntered(t: Codes, c: byte, trie: Trie)
    requires |t| == 256
    ensures Entered(t, c, trie, 0)
  {
  }

  lemma WayByte(t: Codes, c: byte, p: seq<byte>)
    requires |t| == 256 && p != [] && 8 * |p| < t[c].len && BytesBits(p) == CodeBits(t, c)[..8 * |p|]
    ensures InnerFor(t, c, p)
  {
  }

  lemma SoundMore(t: Codes, n: nat, trie: Trie)
    requires |t| == 256 && Sound(t, n, trie)
    ensures Sound(t, n + 1, trie)
  {
    hide LeafFor, InnerFor;
    forall p | p in trie
      ensures NodeSound(t, n + 1, p, trie[p])
    {
      assert NodeSound(t, n, p, trie[p]);
    }
  }

  /** The trie that package initialisation builds is the trie of the code table. */
  method BuildTrie(t: Codes) returns (trie: Trie)
    requires ValidCodes(t) && PrefixFree(t)
    ensures TrieFor(t, trie)
  {
    hide ToBits, BytesBits, LeafFor, InnerFor, PrefixFree;
    trie := map[];
    for i := 0 to 256
      invariant Sound(t, i, trie) && Complete(t, i, trie)
    {
      trie := AddDecoderNode(t, i, trie);
    }
  }
}
