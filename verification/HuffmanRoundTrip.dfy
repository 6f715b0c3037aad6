/** Huffman decoding over the trie, eight bits at a time, of any bytes at all: it finds exactly
    the codewords at the front of the bits, and so takes the encoder's output back to the
    string; and it runs into a missing node exactly if what is left lies on no codeword's way. */
module HuffmanRoundTrip {
  import opened Wrappers
  import opened Base128
  import opened Huffman

  function Pending(w: Walk): (b: Bits)
    ensures |b| == w.nbits
  {
    ToBits(w.cur, w.nbits)
  }

  /** All that has not been turned into symbols yet: the bytes spent on the way from the
      root, the pending bits, the bits still to be read. */
  function Unused(w: Walk, rest: Bits): Bits {
    BytesBits(w.path) + Pending(w) + rest
  }

  /** No codeword starts these bits. */
  ghost predicate Stuck(t: Codes, r: Bits)
    requires |t| == 256
  {
    forall c: byte :: !(CodeBits(t, c) <= r)
  }

  /** What is left, filled up with zeros to whole bytes. */
  function Filled(r: Bits): Bits {
    r + Zeros((8 - |r| % 8) % 8)
  }

  /** What is left leads to a node of the trie. */
  ghost predicate Settles(t: Codes, r: Bits)
    requires |t| == 256
  {
    r == [] || OnTheWay(t, Filled(r))
  }

  /** The unused bits are the codewords of s and then r, and the way from the root is still
      inside the next codeword, or inside some codeword when there is none. */
  ghost predicate OnTrack(t: Codes, w: Walk, s: seq<byte>, rest: Bits, r: Bits)
    requires |t| == 256
  {
    && Unused(w, rest) == StringBits(t, s) + r
    && (w.path != [] ==> if s != [] then 8 * |w.path| < t[s[0]].len else OnTheWay(t, BytesBits(w.path)))
  }

  lemma DropBits(cur: nat, nbits: nat, l: nat)
    requires l <= nbits
    ensures ToBits(cur, nbits - l) == ToBits(cur, nbits)[l..]
  {
    BitsSplit(cur, l, nbits - l);
  }

  /** The byte at the top of the pending bits. */
  lemma TopByte(cur: nat, nbits: nat)
    requires nbits >= 8
    ensures ToBits(Shr(cur, nbits - 8) % 256, 8) == ToBits(cur, nbits)[..8]
  {
    hide ToBits, Shr;
    Powers();
    BitsSplit(cur, 8, nbits - 8);
    BitsMod(Shr(cur, nbits - 8), 8, 8);
  }

  lemma PathByte(path: seq<byte>, b: byte)
    ensures BytesBits(path + [b]) == BytesBits(path) + ToBits(b, 8)
  {
    BytesBitsJoin(path, [b]);
    BytesBitsOne(b);
  }

  /** What the trie holds one byte further, when the next symbol is c. */
  lemma NextNode(t: Codes, trie: Trie, c: byte, path: seq<byte>, b: byte, used: Bits)
    requires ValidCodes(t) && TrieFor(t, trie)
    requires 8 * |path| < t[c].len
    requires CodeBits(t, c) <= used || used <= CodeBits(t, c)
    requires used == BytesBits(path) + ToBits(b, 8)
    ensures path + [b] in trie
    ensures trie[path + [b]] == if t[c].len > 8 * |path| + 8 then Inner else Leaf(c, t[c].len - 8 * |path|)
  {
    PathByte(path, b);
    assert CodeIn(t, c, trie);
    if t[c].len > 8 * |path| + 8 {
      assert InnerFor(t, c, path + [b]);
    } else {
      assert LeafFor(t, c, path + [b]);
    }
  }

  /** With a whole byte pending, the trie knows about the byte if there is a next symbol. */
  lemma EatFinds(t: Codes, trie: Trie, w: Walk, s: seq<byte>, rest: Bits, r: Bits)
    requires ValidCodes(t) && TrieFor(t, trie) && OnTrack(t, w, s, rest, r) && w.nbits >= 8 && s != []
    ensures
      var p := w.path + [Shr(w.cur, w.nbits - 8) % 256];
      && p in trie
      && trie[p] == if t[s[0]].len > 8 * |w.path| + 8 then Inner else Leaf(s[0], t[s[0]].len - 8 * |w.path|)
  {
    hide TrieFor, BytesBits, ToBits, StringBits, Shr, OnTheWay;
    var all := Unused(w, rest);
    Codewords(t, s);
    var b: byte := Shr(w.cur, w.nbits - 8) % 256;
    var used := BytesBits(w.path) + ToBits(b, 8);
    TopByte(w.cur, w.nbits);
    assert used == all[..8 * |w.path| + 8];
    assert all == CodeBits(t, s[0]) + (StringBits(t, s[1..]) + r);
    NextNode(t, trie, s[0], w.path, b, used);
  }

  lemma EatInner(t: Codes, w: Walk, s: seq<byte>, rest: Bits, r: Bits)
    requires ValidCodes(t) && OnTrack(t, w, s, rest, r) && w.nbits >= 8
    requires var p := w.path + [Shr(w.cur, w.nbits - 8) % 256];
             if s != [] then t[s[0]].len > 8 * |p| else OnTheWay(t, BytesBits(p))
    ensures OnTrack(t, w.(path := w.path + [Shr(w.cur, w.nbits - 8) % 256], nbits := w.nbits - 8), s, rest, r)
  {
    hide BytesBits, ToBits, StringBits, Shr, OnTheWay;
    TopByte(w.cur, w.nbits);
    PathByte(w.path, Shr(w.cur, w.nbits - 8) % 256);
    DropBits(w.cur, w.nbits, 8);
    SplitAt(BytesBits(w.path), Pending(w), rest, 8);
  }

  lemma EatLeaf(t: Codes, w: Walk, s: seq<byte>, rest: Bits, r: Bits)
    requires ValidCodes(t) && OnTrack(t, w, s, rest, r)
    requires s != [] && 0 < t[s[0]].len - 8 * |w.path| <= w.nbits
    ensures
      var len := t[s[0]].len - 8 * |w.path|;
      OnTrack(t, Walk([], w.cur, w.nbits - len, w.out + [s[0]]), s[1..], rest, r)
  {
    hide BytesBits, ToBits, StringBits, Shr, OnTheWay;
    var len := t[s[0]].len - 8 * |w.path|;
    var all := Unused(w, rest);
    Codewords(t, s);
    assert all == CodeBits(t, s[0]) + (StringBits(t, s[1..]) + r);
    DropBits(w.cur, w.nbits, len);
    NoPath();
    SplitAt(BytesBits(w.path), Pending(w), rest, len);
    assert all[t[s[0]].len..] == StringBits(t, s[1..]) + r;
  }

  /** A node that bits lead to which no codeword starts: inner, and there exactly if the bits
      are on some codeword's way. */
  lemma LostNode(t: Codes, trie: Trie, p: seq<byte>, r: Bits)
    requires ValidCodes(t) && TrieFor(t, trie) && p != [] && Stuck(t, r) && BytesBits(p) <= r
    ensures p in trie <==> OnTheWay(t, BytesBits(p))
    ensures p in trie ==> trie[p] == Inner
  {
    hide BytesBits, CodeBits;
    if p in trie {
      assert NodeSound(t, 256, p, trie[p]);
      if trie[p].Inner? {
        var c: byte :| (c as int) < 256 && InnerFor(t, c, p);
        assert Compatible(CodeBits(t, c), BytesBits(p));
      }
    }
    if OnTheWay(t, BytesBits(p)) {
      var c: byte :| Compatible(CodeBits(t, c), BytesBits(p));
      assert !(CodeBits(t, c) <= r);
      assert CodeIn(t, c, trie);
      assert InnerFor(t, c, p);
    }
  }

  /** The bits on the way to what is left are on a codeword's way if the whole is. */
  lemma WaySettles(t: Codes, a: Bits, r: Bits)
    requires |t| == 256 && a <= r && r != [] && Settles(t, r)
    ensures OnTheWay(t, a)
  {
    hide CodeBits;
    var c: byte :| Compatible(CodeBits(t, c), Filled(r));
    assert a <= Filled(r);
    assert Compatible(CodeBits(t, c), a);
  }

  /** No symbol is left: the byte leads on, or to a node that is not there. */
  lemma EatLost(t: Codes, trie: Trie, w: Walk, rest: Bits, r: Bits)
    requires ValidCodes(t) && TrieFor(t, trie) && OnTrack(t, w, [], rest, r) && Stuck(t, r) && w.nbits >= 8
    ensures
      var p := w.path + [Shr(w.cur, w.nbits - 8) % 256];
      if p in trie then trie[p] == Inner && OnTheWay(t, BytesBits(p)) else !Settles(t, r)
  {
    hide TrieFor, ToBits, Shr, OnTheWay, Stuck, Settles;
    var b: byte := Shr(w.cur, w.nbits - 8) % 256;
    var p := w.path + [b];
    TopByte(w.cur, w.nbits);
    PathByte(w.path, b);
    hide BytesBits;
    assert Unused(w, rest) == r;
    assert BytesBits(p) == r[..8 * |p|];
    LostNode(t, trie, p, r);
    if Settles(t, r) { WaySettles(t, BytesBits(p), r); }
  }

  lemma {:induction false} EatKeeps(t: Codes, trie: Trie, w: Walk, s: seq<byte>, rest: Bits, r: Bits)
      returns (s': seq<byte>)
    requires ValidCodes(t) && TrieFor(t, trie) && OnTrack(t, w, s, rest, r) && Stuck(t, r)
    ensures Eat(trie, w).None? ==> !Settles(t, r)
    ensures Eat(trie, w).Some? ==>
              var w' := Eat(trie, w).value; OnTrack(t, w', s', rest, r) && w'.out + s' == w.out + s
    decreases w.nbits
  {
    hide TrieFor, OnTrack, Shr, Stuck, Settles, BytesBits;
    s' := s;
    if w.nbits >= 8 {
      var p := w.path + [Shr(w.cur, w.nbits - 8) % 256];
      if s == [] {
        EatLost(t, trie, w, rest, r);
        if p in trie {
          EatInner(t, w, s, rest, r);
          s' := EatKeeps(t, trie, w.(path := p, nbits := w.nbits - 8), s, rest, r);
        }
      } else {
        EatFinds(t, trie, w, s, rest, r);
        var c := s[0];
        if t[c].len > 8 * |w.path| + 8 {
          EatInner(t, w, s, rest, r);
          s' := EatKeeps(t, trie, w.(path := p, nbits := w.nbits - 8), s, rest, r);
        } else {
          OnTheWayStill(t, w, s, rest, r);
          EatLeaf(t, w, s, rest, r);
          s' := EatKeeps(t, trie, Walk([], w.cur, w.nbits - (t[c].len - 8 * |w.path|), w.out + [c]), s[1..], rest, r);
          assert w.out + [c] + s[1..] == w.out + s;
        }
      }
    }
  }

  /** The way from the root is not the whole codeword yet. */
  lemma OnTheWayStill(t: Codes, w: Walk, s: seq<byte>, rest: Bits, r: Bits)
    requires ValidCodes(t) && OnTrack(t, w, s, rest, r) && s != []
    ensures 8 * |w.path| < t[s[0]].len
  {
  }

  lemma SplitAt(a: Bits, x: Bits, rest: Bits, n: nat)
    requires n <= |x|
    ensures (a + x[..n]) + x[n..] + rest == a + x + rest
    ensures (a + x + rest)[|a| + n..] == [] + x[n..] + rest
  {
  }

  lemma NoPath()
    ensures BytesBits([]) == []
  {
  }

  /** A string's bits are none, or a codeword and the rest. */
  lemma Codewords(t: Codes, s: seq<byte>)
    requires |t| == 256
    ensures s == [] ==> StringBits(t, s) == []
    ensures s != [] ==> StringBits(t, s) == CodeBits(t, s[0]) + StringBits(t, s[1..])
  {
  }

  lemma {:induction false} ShrFilled(v: nat, n: nat, r: nat)
    requires r < Pow2(n)
    ensures Shr(v * Pow2(n) + r, n) == v
    decreases n
  {
    if n == 0 {
      assert v * Pow2(0) + r == v;
    } else {
      Doubling(v, Pow2(n - 1));
      assert (v * Pow2(n) + r) / 2 == v * Pow2(n - 1) + r / 2;
      ShrFilled(v, n - 1, r / 2);
    }
  }

  /** A byte shifted in behind a number. */
  lemma ByteBits(cur: nat, b: byte)
    ensures Shr(cur * 256 + b, 8) == cur && ToBits(cur * 256 + b, 8) == ToBits(b, 8)
  {
    Powers();
    hide ToBits, Pow2, Shr;
    ShrFilled(cur, 8, b);
    ModUnique(cur * 256 + b, 256, cur, b);
    BitsMod(cur * 256 + b, 8, 8);
  }

  lemma ShiftBits(w: Walk, b: byte)
    requires w.nbits < 8
    ensures Pending(Shift(w, b)) == Pending(w) + ToBits(b, 8)
  {
    Powers();
    hide ToBits, Pow2, Shr;
    var v := w.cur * 256 + b;
    BitsMod(v, 64, w.nbits + 8);
    BitsSplit(v, w.nbits, 8);
    ByteBits(w.cur, b);
  }

  lemma SeqAssociates(a: Bits, b: Bits, c: Bits, d: Bits)
    ensures a + (b + c) + d == a + b + (c + d)
  {
  }

  lemma FeedUnused(w: Walk, v: seq<byte>)
    requires w.nbits < 8 && v != []
    ensures Unused(Shift(w, v[0]), BytesBits(v[1..])) == Unused(w, BytesBits(v))
  {
    assert BytesBits(v) == ToBits(v[0], 8) + BytesBits(v[1..]);
    hide Pending, ToBits, BytesBits;
    ShiftBits(w, v[0]);
    SeqAssociates(BytesBits(w.path), Pending(w), ToBits(v[0], 8), BytesBits(v[1..]));
  }

  lemma {:induction false} FeedKeeps(t: Codes, trie: Trie, w: Walk, s: seq<byte>, v: seq<byte>, r: Bits)
      returns (s': seq<byte>)
    requires ValidCodes(t) && TrieFor(t, trie) && w.nbits < 8 && OnTrack(t, w, s, BytesBits(v), r) && Stuck(t, r)
    ensures Feed(trie, w, v).None? ==> !Settles(t, r)
    ensures Feed(trie, w, v).Some? ==>
              var w' := Feed(trie, w, v).value; OnTrack(t, w', s', [], r) && w'.out + s' == w.out + s
    decreases |v|
  {
    s' := s;
    if v == [] {
      assert BytesBits(v) == [];
    } else {
      hide TrieFor, Eat, ToBits, Unused, BytesBits, StringBits, Stuck, Settles, OnTheWay;
      var w1 := Shift(w, v[0]);
      FeedUnused(w, v);
      var s1 := EatKeeps(t, trie, w1, s, BytesBits(v[1..]), r);
      if Eat(trie, w1).Some? { s' := FeedKeeps(t, trie, Eat(trie, w1).value, s1, v[1..], r); }
    }
  }

  lemma {:induction false} ShlBits(v: nat, m: nat, j: nat)
    ensures ToBits(v * Pow2(j), m + j) == ToBits(v, m) + Zeros(j)
    decreases j
  {
    if j > 0 {
      ShlBits(v, m, j - 1);
      Doubling(v, Pow2(j - 1));
      assert Zeros(j) == Zeros(j - 1) + [false];
    } else {
      assert v * Pow2(0) == v;
    }
  }

  lemma Doubling(v: nat, p: nat)
    ensures v * (2 * p) == 2 * (v * p)
    ensures v * (2 * p) / 2 == v * p && v * (2 * p) % 2 == 0
  {
    assert v * (2 * p) == 2 * (v * p);
  }

  lemma LastByte(cur: nat, nbits: nat)
    requires nbits <= 8
    ensures ToBits(cur * Pow2(8 - nbits) % 256, 8) == ToBits(cur, nbits) + Zeros(8 - nbits)
  {
    Powers();
    hide ToBits, Pow2, Zeros;
    var v := cur * Pow2(8 - nbits);
    ShlBits(cur, nbits, 8 - nbits);
    BitsMod(v, 8, 8);
  }

  /** The node behind the last, filled up byte, when no codeword starts what is left: there
      exactly if what is left settles, and wanting more bits than there are. */
  lemma LastNode(t: Codes, trie: Trie, p: seq<byte>, r: Bits)
    requires ValidCodes(t) && TrieFor(t, trie) && p != [] && Stuck(t, r) && BytesBits(p) == Filled(r)
    requires 8 * (|p| - 1) < |r|
    ensures p in trie <==> Settles(t, r)
    ensures p in trie && trie[p].Leaf? ==> trie[p].codeLen > |r| - 8 * (|p| - 1)
  {
    hide BytesBits, CodeBits;
    if p in trie {
      assert NodeSound(t, 256, p, trie[p]);
      if trie[p].Leaf? {
        assert CodeBits(t, trie[p].sym) <= Filled(r);
        assert Compatible(CodeBits(t, trie[p].sym), Filled(r));
        assert !(CodeBits(t, trie[p].sym) <= r);
      } else {
        var c: byte :| (c as int) < 256 && InnerFor(t, c, p);
        assert Compatible(CodeBits(t, c), Filled(r));
      }
    }
    if Settles(t, r) {
      var c: byte :| Compatible(CodeBits(t, c), Filled(r));
      assert !(CodeBits(t, c) <= r);
      assert CodeIn(t, c, trie);
      assert InnerFor(t, c, p) || LeafFor(t, c, p);
    }
  }

  /** The last byte, filled up with zeros, as the decoder makes it. */
  lemma LastFills(w: Walk, r: Bits)
    requires 0 < w.nbits < 8 && Unused(w, []) == r
    ensures var b: byte := w.cur * Pow2(8 - w.nbits) % 256; BytesBits(w.path + [b]) == Filled(r)
    ensures |r| == 8 * |w.path| + w.nbits
  {
    hide ToBits, Pow2, BytesBits, Zeros;
    var b: byte := w.cur * Pow2(8 - w.nbits) % 256;
    LastByte(w.cur, w.nbits);
    PathByte(w.path, b);
    var path, pending, zeros := BytesBits(w.path), Pending(w), Zeros(8 - w.nbits);
    assert r == path + pending && |r| == 8 * |w.path| + w.nbits;
    assert (8 - |r| % 8) % 8 == 8 - w.nbits;
    assert path + (pending + zeros) == path + pending + zeros;
  }

  /** No symbol is left in the last byte. */
  lemma FinishLost(t: Codes, trie: Trie, w: Walk, r: Bits)
    requires ValidCodes(t) && TrieFor(t, trie) && w.nbits < 8 && OnTrack(t, w, [], [], r) && Stuck(t, r)
    ensures Finish(trie, w) == if Settles(t, r) then Some(w.out) else None
  {
    hide TrieFor, ToBits, Pow2, OnTheWay, Stuck, BytesBits;
    assert Unused(w, []) == BytesBits(w.path) + Pending(w) == r;
    if w.nbits == 0 {
      NoPath();
      assert r == BytesBits(w.path) && Filled(r) == r;
    } else {
      LastFills(w, r);
      hide Filled, Settles, Unused;
      LastNode(t, trie, w.path + [w.cur * Pow2(8 - w.nbits) % 256], r);
    }
  }

  lemma {:induction false} FinishKeeps(t: Codes, trie: Trie, w: Walk, s: seq<byte>, r: Bits)
    requires ValidCodes(t) && TrieFor(t, trie) && w.nbits < 8 && OnTrack(t, w, s, [], r) && Stuck(t, r)
    ensures Finish(trie, w) == if Settles(t, r) then Some(w.out + s) else None
    decreases w.nbits
  {
    hide TrieFor, BytesBits, ToBits, Zeros, StringBits, Pow2, OnTheWay, Stuck, Settles;
    if s == [] {
      FinishLost(t, trie, w, r);
      assert w.out + s == w.out;
    } else {
      Codewords(t, s);
      var all := Unused(w, []);
      assert all == BytesBits(w.path) + Pending(w);
      NoPath();
      var c := s[0];
      assert all == CodeBits(t, c) + (StringBits(t, s[1..]) + r);
      var len := t[c].len - 8 * |w.path|;
      assert 0 < len <= w.nbits;
      var b: byte := w.cur * Pow2(8 - w.nbits) % 256;
      LastByte(w.cur, w.nbits);
      assert BytesBits(w.path) + ToBits(b, 8) == all + Zeros(8 - w.nbits);
      NextNode(t, trie, c, w.path, b, BytesBits(w.path) + ToBits(b, 8));
      DropBits(w.cur, w.nbits, len);
      var w' := Walk([], w.cur, w.nbits - len, w.out + [c]);
      assert Unused(w', []) == all[t[c].len..];
      FinishKeeps(t, trie, w', s[1..], r);
      assert w.out + [c] + s[1..] == w.out + s;
    }
  }

  /** Any bytes: the symbols are those whose codewords stand at the front of the bits, up to
      where no codeword follows; and decoding fails, on a nil node, exactly if what is left
      there, filled up with zeros, is on no codeword's way. */
  lemma DecodesAny(t: Codes, trie: Trie, v: seq<byte>, s: seq<byte>, r: Bits)
    requires ValidCodes(t) && TrieFor(t, trie) && BytesBits(v) == StringBits(t, s) + r && Stuck(t, r)
    ensures Decode(trie, v) == if Settles(t, r) then Some(s) else None
  {
    hide TrieFor, Feed, Finish, Stuck, Settles, OnTheWay, StringBits;
    var w := Walk([], 0, 0, []);
    NoPath();
    assert Unused(w, BytesBits(v)) == BytesBits(v);
    var s' := FeedKeeps(t, trie, w, s, v, r);
    if Feed(trie, w, v).Some? {
      FinishKeeps(t, trie, Feed(trie, w, v).value, s', r);
    }
    assert [] + s == s;
  }

  /** The padding of an encoding: no codeword starts it, and it settles. */
  lemma PaddingSettles(t: Codes, k: nat)
    requires GoodCodes(t) && k <= 7
    ensures Stuck(t, Ones(k)) && Settles(t, Ones(k))
  {
    hide CodeBits, Ones, OnTheWay;
    forall c: byte ensures !(CodeBits(t, c) <= Ones(k)) { PaddingIsNone(t, k, c); }
    if k > 0 { assert Filled(Ones(k)) == Ones(k) + Zeros(8 - k); }
  }

  /** Whatever the strings, decoding an encoding gives the string back. */
  lemma DecodeEncoded(t: Codes, trie: Trie, b: seq<byte>, s: seq<byte>)
    requires GoodCodes(t) && TrieFor(t, trie) && Encodes(t, b, s)
    ensures Decode(trie, b) == Some(s)
  {
    hide PrefixFree, PaddingIncomplete, PaddingCovered, TrieFor, Decode, Stuck, Settles;
    StringBitsLength(t, s);
    var k := 8 * |b| - BitCount(t, s);
    PaddingSettles(t, k);
    DecodesAny(t, trie, b, s, Ones(k));
  }

  // ----- the decoder that looks at one bit at a time -----

  /** Read codewords off the front of the bits until none fits. */
  ghost function SerialDecode(t: Codes, b: Bits): seq<byte>
    requires ValidCodes(t)
    decreases |b|
  {
    if exists c: byte :: CodeBits(t, c) <= b then
      var c: byte :| CodeBits(t, c) <= b;
      [c] + SerialDecode(t, b[t[c].len..])
    else []
  }

  /** Padding is the start of no codeword. */
  lemma PaddingIsNone(t: Codes, k: nat, c: byte)
    requires GoodCodes(t) && k <= 7
    ensures !(CodeBits(t, c) <= Ones(k))
  {
    hide ToBits;
    OnesPrefix(CodeBits(t, c), k);
  }

  /** Only one codeword starts the bits. */
  lemma OnlyCodeword(t: Codes, c: byte, d: byte, rest: Bits)
    requires GoodCodes(t) && CodeBits(t, d) <= CodeBits(t, c) + rest
    ensures d == c
  {
    hide ToBits, CodeBits;
    BothPrefixes(CodeBits(t, c), CodeBits(t, d), CodeBits(t, c) + rest);
  }

  lemma SerialStops(t: Codes, k: nat)
    requires GoodCodes(t) && k <= 7
    ensures SerialDecode(t, Ones(k)) == []
  {
    hide CodeBits, Ones;
    forall c: byte ensures !(CodeBits(t, c) <= Ones(k)) { PaddingIsNone(t, k, c); }
  }

  lemma SerialStep(t: Codes, c: byte, rest: Bits)
    requires GoodCodes(t)
    ensures SerialDecode(t, CodeBits(t, c) + rest) == [c] + SerialDecode(t, rest)
  {
    hide CodeBits;
    var b := CodeBits(t, c) + rest;
    assert CodeBits(t, c) <= b;
    forall d: byte ensures CodeBits(t, d) <= b ==> d == c {
      if CodeBits(t, d) <= b { OnlyCodeword(t, c, d, rest); }
    }
    assert b[t[c].len..] == rest;
  }

  lemma {:induction false} SerialDecodesCodewords(t: Codes, s: seq<byte>, k: nat)
    requires GoodCodes(t) && k <= 7
    ensures SerialDecode(t, StringBits(t, s) + Ones(k)) == s
  {
    assert ValidCodes(t);
    hide GoodCodes, ValidCodes, CodeBits, Ones, SerialDecode;
    if s == [] {
      assert [] + Ones(k) == Ones(k);
      SerialStops(t, k);
    } else {
      var rest := StringBits(t, s[1..]) + Ones(k);
      assert StringBits(t, s) + Ones(k) == CodeBits(t, s[0]) + rest;
      SerialStep(t, s[0], rest);
      SerialDecodesCodewords(t, s[1..], k);
    }
  }

  lemma OnesPrefix(x: Bits, k: nat)
    ensures x <= Ones(k) ==> |x| <= k && x == Ones(|x|)
  {
  }

  lemma BothPrefixes(a: Bits, b: Bits, x: Bits)
    requires a <= x
    ensures b <= x ==> a <= b || b <= a
  {
  }

  lemma {:induction false} SerialSplits(t: Codes, b: Bits) returns (r: Bits)
    requires ValidCodes(t)
    ensures b == StringBits(t, SerialDecode(t, b)) + r && Stuck(t, r)
    decreases |b|
  {
    hide CodeBits;
    var s := SerialDecode(t, b);
    if s == [] {
      r := b;
    } else {
      var c := s[0];
      assert CodeBits(t, c) <= b && s[1..] == SerialDecode(t, b[t[c].len..]);
      r := SerialSplits(t, b[t[c].len..]);
      assert b == CodeBits(t, c) + b[t[c].len..];
      hide SerialDecode;
      assert CodeBits(t, c) + (StringBits(t, s[1..]) + r) == CodeBits(t, c) + StringBits(t, s[1..]) + r;
    }
  }

  /** On any bytes the byte-at-a-time trie decoder agrees with the bit-serial one, but that it
      fails where what the latter leaves is on no codeword's way. */
  lemma TrieAgreesWithSerial(t: Codes, trie: Trie, v: seq<byte>) returns (r: Bits)
    requires ValidCodes(t) && TrieFor(t, trie)
    ensures BytesBits(v) == StringBits(t, SerialDecode(t, BytesBits(v))) + r && Stuck(t, r)
    ensures Decode(trie, v) == if Settles(t, r) then Some(SerialDecode(t, BytesBits(v))) else None
  {
    hide TrieFor, SerialDecode, Decode;
    r := SerialSplits(t, BytesBits(v));
    DecodesAny(t, trie, v, SerialDecode(t, BytesBits(v)), r);
  }

  /** On the encoder's output both give the string. */
  lemma SerialDecodesToo(t: Codes, b: seq<byte>, s: seq<byte>)
    requires GoodCodes(t) && Encodes(t, b, s)
    ensures SerialDecode(t, BytesBits(b)) == s
  {
    hide PrefixFree, PaddingIncomplete, PaddingCovered, SerialDecode;
    StringBitsLength(t, s);
    SerialDecodesCodewords(t, s, 8 * |b| - BitCount(t, s));
  }

  lemma {:induction false} SameBits(u: nat, v: nat, n: nat)
    requires u < Pow2(n) && v < Pow2(n) && ToBits(u, n) == ToBits(v, n)
    ensures u == v
  {
    if n > 0 {
      assert ToBits(u, n)[..n - 1] == ToBits(u / 2, n - 1) && ToBits(v, n)[..n - 1] == ToBits(v / 2, n - 1);
      assert ToBits(u, n)[n - 1] == ToBits(v, n)[n - 1];
      SameBits(u / 2, v / 2, n - 1);
    }
  }
}
