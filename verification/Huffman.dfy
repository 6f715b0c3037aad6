/** Huffman coding of header strings (section 5.2 of RFC 7541): the code as strings of
    bits, and the byte-at-a-time decoder as a function of its 256-way trie. */
module Huffman {
  import opened Wrappers
  import opened Base128

  type Bits = seq<bool>

  // ----- numbers as strings of bits, most significant first -----

  /** The low n bits of v. */
  function ToBits(v: nat, n: nat): (b: Bits)
    ensures |b| == n
  {
    if n == 0 then [] else ToBits(v / 2, n - 1) + [v % 2 == 1]
  }

  function BytesBits(b: seq<byte>): (r: Bits)
    ensures |r| == 8 * |b|
  {
    if b == [] then [] else ToBits(b[0], 8) + BytesBits(b[1..])
  }

  function Ones(n: nat): (b: Bits)
    ensures |b| == n
  {
    seq(n, _ => true)
  }

  function Zeros(n: nat): (b: Bits)
    ensures |b| == n
  {
    seq(n, _ => false)
  }

  /** v >> n */
  function Shr(v: nat, n: nat): nat {
    if n == 0 then v else Shr(v / 2, n - 1)
  }

  /** Cut the low m + n bits of v after the first m. */
  lemma {:induction false} BitsSplit(v: nat, m: nat, n: nat)
    ensures ToBits(v, m + n) == ToBits(Shr(v, n), m) + ToBits(v, n)
    decreases n
  {
    if n > 0 { BitsSplit(v / 2, m, n - 1); }
  }

  lemma HalfMod(v: nat, p: nat)
    requires p > 0
    ensures v % (2 * p) / 2 == v / 2 % p && v % (2 * p) % 2 == v % 2
  {
    var q, r := v / (2 * p), v % (2 * p);
    assert v == (2 * p) * q + r;
    assert (2 * p) * q == 2 * (p * q);
    assert v / 2 == p * q + r / 2;
    ModUnique(v / 2, p, q, r / 2);
  }

  /** Cutting a number to k bits keeps its low n bits. */
  lemma {:induction false} BitsMod(v: nat, k: nat, n: nat)
    requires n <= k
    ensures ToBits(v % Pow2(k), n) == ToBits(v, n)
    decreases n
  {
    if n > 0 {
      HalfMod(v, Pow2(k - 1));
      BitsMod(v / 2, k - 1, n - 1);
    }
  }

  /** A number below 2^r added to one without its low r bits: the bits side by side. */
  lemma {:induction false} BitsFill(a: nat, t: nat, m: nat, r: nat)
    requires ToBits(a, r) == Zeros(r) && t < Pow2(r)
    ensures ToBits(a + t, m + r) == ToBits(Shr(a, r), m) + ToBits(t, r)
    decreases r
  {
    if r == 0 {
      assert t == 0;
    } else {
      assert ToBits(a, r)[r - 1] == Zeros(r)[r - 1];
      assert ToBits(a / 2, r - 1) == ToBits(a, r)[..r - 1] == Zeros(r - 1);
      assert (a + t) / 2 == a / 2 + t / 2;
      BitsFill(a / 2, t / 2, m, r - 1);
    }
  }

  lemma {:induction false} BitsOfZero(n: nat)
    ensures ToBits(0, n) == Zeros(n)
  {
    if n > 0 { BitsOfZero(n - 1); }
  }

  lemma {:induction false} BitsOfOnes(n: nat)
    ensures ToBits(Pow2(n) - 1, n) == Ones(n)
  {
    if n > 0 {
      BitsOfOnes(n - 1);
      assert (Pow2(n) - 1) / 2 == Pow2(n - 1) - 1;
    }
  }

  lemma {:induction false} BytesBitsJoin(b: seq<byte>, c: seq<byte>)
    ensures BytesBits(b + c) == BytesBits(b) + BytesBits(c)
  {
    if b == [] {
      assert b + c == c;
    } else {
      assert (b + c)[1..] == b[1..] + c;
      BytesBitsJoin(b[1..], c);
    }
  }

  lemma BytesBitsOne(x: byte)
    ensures BytesBits([x]) == ToBits(x, 8)
  {
    assert BytesBits([x]) == ToBits(x, 8) + BytesBits([x][1..]);
  }

  // ----- the code -----

  /** A codeword: its value and its length in bits. */
  datatype Code = Code(bits: nat, len: nat)

  type Codes = seq<Code>

  predicate ValidCodes(t: Codes) {
    |t| == 256 && forall c :: 0 <= c < 256 ==> 1 <= t[c].len <= 32 && t[c].bits < Pow2(t[c].len)
  }

  function CodeBits(t: Codes, c: byte): (b: Bits)
    requires |t| == 256
    ensures |b| == t[c].len
  {
    ToBits(t[c].bits, t[c].len)
  }

  /** No codeword is a prefix of another. */
  ghost predicate PrefixFree(t: Codes)
    requires |t| == 256
  {
    forall c: byte, d: byte :: c != d ==> !(CodeBits(t, c) <= CodeBits(t, d))
  }

  /** Seven one-bits or fewer, the padding of the last byte, never complete a codeword... */
  ghost predicate PaddingIncomplete(t: Codes)
    requires |t| == 256
  {
    forall c: byte :: 1 <= t[c].len <= 7 ==> CodeBits(t, c) != Ones(t[c].len)
  }

  /** ... but, read as a whole byte filled up with zeros, always lie on a codeword's way. */
  ghost predicate PaddingCovered(t: Codes)
    requires |t| == 256
  {
    forall k: nat :: 1 <= k <= 7 ==> OnTheWay(t, Ones(k) + Zeros(8 - k))
  }

  ghost predicate OnTheWay(t: Codes, b: Bits)
    requires |t| == 256
  {
    exists c: byte :: Compatible(CodeBits(t, c), b)
  }

  predicate Compatible(a: Bits, b: Bits) {
    a <= b || b <= a
  }

  ghost predicate GoodCodes(t: Codes) {
    ValidCodes(t) && PrefixFree(t) && PaddingIncomplete(t) && PaddingCovered(t)
  }

  function StringBits(t: Codes, s: seq<byte>): Bits
    requires |t| == 256
  {
    if s == [] then [] else CodeBits(t, s[0]) + StringBits(t, s[1..])
  }

  function BitCount(t: Codes, s: seq<byte>): nat
    requires |t| == 256
  {
    if s == [] then 0 else t[s[0]].len + BitCount(t, s[1..])
  }

  function EncodedLength(t: Codes, s: seq<byte>): nat
    requires |t| == 256
  {
    (BitCount(t, s) + 7) / 8
  }

  /** b is the encoding of s: the codewords one after the other, the last byte filled up
      with ones. */
  ghost predicate Encodes(t: Codes, b: seq<byte>, s: seq<byte>)
    requires |t| == 256
  {
    |b| == EncodedLength(t, s) && BytesBits(b) == StringBits(t, s) + Ones(8 * |b| - BitCount(t, s))
  }

  lemma {:induction false} StringBitsLength(t: Codes, s: seq<byte>)
    requires |t| == 256
    ensures |StringBits(t, s)| == BitCount(t, s)
  {
    if s != [] { StringBitsLength(t, s[1..]); }
  }

  lemma {:induction false} StringBitsJoin(t: Codes, r: seq<byte>, s: seq<byte>)
    requires |t| == 256
    ensures StringBits(t, r + s) == StringBits(t, r) + StringBits(t, s)
  {
    hide CodeBits;
    if r == [] {
      assert r + s == s;
    } else {
      assert (r + s)[1..] == r[1..] + s;
      StringBitsJoin(t, r[1..], s);
    }
  }

  // ----- the decoder's trie -----

  /** A node of the 256-way trie. A leaf knows how many bits of its last byte it uses. */
  datatype Node = Inner | Leaf(sym: byte, codeLen: nat)

  /** The nodes by the bytes that lead to them from the root; absent means nil. */
  type Trie = map<seq<byte>, Node>

  predicate LeafFor(t: Codes, c: byte, p: seq<byte>)
    requires |t| == 256
  {
    p != [] && 8 * (|p| - 1) < t[c].len <= 8 * |p| && CodeBits(t, c) <= BytesBits(p)
  }

  predicate InnerFor(t: Codes, c: byte, p: seq<byte>)
    requires |t| == 256
  {
    p != [] && 8 * |p| < t[c].len && BytesBits(p) <= CodeBits(t, c)
  }

  /** Every node comes from one of the first n codewords. */
  ghost predicate Sound(t: Codes, n: nat, trie: Trie)
    requires |t| == 256
  {
    forall p :: p in trie ==> NodeSound(t, n, p, trie[p])
  }

  ghost predicate NodeSound(t: Codes, n: nat, p: seq<byte>, node: Node)
    requires |t| == 256
  {
    if node.Leaf? then
      (node.sym as int) < n && LeafFor(t, node.sym, p) && node.codeLen == t[node.sym].len - 8 * (|p| - 1)
    else
      exists c: byte :: (c as int) < n && InnerFor(t, c, p)
  }

  /** All the nodes of codeword c are there. */
  ghost predicate CodeIn(t: Codes, c: byte, trie: Trie)
    requires |t| == 256
  {
    && (forall p :: LeafFor(t, c, p) ==> p in trie && trie[p] == Leaf(c, t[c].len - 8 * (|p| - 1)))
    && (forall p :: InnerFor(t, c, p) ==> p in trie && trie[p] == Inner)
  }

  /** The first n codewords are all there. */
  ghost predicate Complete(t: Codes, n: nat, trie: Trie)
    requires |t| == 256
  {
    forall c: byte :: (c as int) < n ==> CodeIn(t, c, trie)
  }

  ghost predicate TrieFor(t: Codes, trie: Trie)
    requires |t| == 256
  {
    Sound(t, 256, trie) && Complete(t, 256, trie)
  }

  // ----- decoding -----

  /** The decoder between two looks at the trie: the node it is at, the low nbits of cur
      still to be used, and the symbols found. */
  datatype Walk = Walk(path: seq<byte>, cur: nat, nbits: nat, out: seq<byte>)

  /** Use up whole bytes. None is the nil node that the program would dereference. */
  function Eat(trie: Trie, w: Walk): (r: Option<Walk>)
    ensures r.Some? ==> r.value.nbits < 8
    decreases w.nbits
  {
    if w.nbits < 8 then Some(w)
    else
      var p := w.path + [Shr(w.cur, w.nbits - 8) % 256];
      if p !in trie then None
      else
        match trie[p]
        case Inner => Eat(trie, w.(path := p, nbits := w.nbits - 8))
        case Leaf(sym, len) =>
          if 0 < len <= w.nbits then Eat(trie, Walk([], w.cur, w.nbits - len, w.out + [sym])) else None
  }

  function Shift(w: Walk, b: byte): Walk {
    w.(cur := (w.cur * 256 + b) % 0x1_0000_0000_0000_0000, nbits := w.nbits + 8)
  }

  function Feed(trie: Trie, w: Walk, v: seq<byte>): (r: Option<Walk>)
    requires w.nbits < 8
    ensures r.Some? ==> r.value.nbits < 8
    decreases |v|
  {
    if v == [] then Some(w)
    else
      var r := Eat(trie, Shift(w, v[0]));
      if r.None? then None else Feed(trie, r.value, v[1..])
  }

  /** The bits left in the last byte: short codewords, then padding. */
  function Finish(trie: Trie, w: Walk): Option<seq<byte>>
    requires w.nbits < 8
    decreases w.nbits
  {
    if w.nbits == 0 then Some(w.out)
    else
      var p := w.path + [w.cur * Pow2(8 - w.nbits) % 256];
      if p !in trie then None
      else
        match trie[p]
        case Inner => Some(w.out)
        case Leaf(sym, len) =>
          if len > w.nbits then Some(w.out)
          else if len == 0 then None
          else Finish(trie, Walk([], w.cur, w.nbits - len, w.out + [sym]))
  }

  function Decode(trie: Trie, v: seq<byte>): Option<seq<byte>> {
    var r := Feed(trie, Walk([], 0, 0, []), v);
    if r.None? then None else Finish(trie, r.value)
  }
}
