/** The two dynamic tables of HPACK in lock step: what the encoder prints, the decoder parses
    back, and the decoder's table follows the encoder's through additions, evictions and size
    updates (sections 2.3.2, 4.2 to 4.4 and 6 of RFC 7541). */
module HpackLockStep {
  import opened Wrappers
  import opened Base128
  import opened Hpack
  import Huffman
  import HuffmanRoutines

  // ----- eviction -----

  /** Evicting to one size and then to another is evicting to the smaller. */
  lemma {:induction false} EvictEvict(ents: seq<Field>, a: nat, b: nat)
    ensures Evict(Evict(ents, a), b) == Evict(ents, Min(a, b))
  {
    if Sum(ents) > a {
      EvictEvict(ents[1..], a, b);
    } else if Sum(ents) > b {
      EvictEvict(ents[1..], a, b);
      assert Evict(ents, a) == ents;
      assert Sum(ents) >= Sum(ents[1..]);
      assert Evict(ents[1..], a) == ents[1..];
    }
  }

  /** s is the newer part of t. */
  ghost predicate Newer(s: seq<Field>, t: seq<Field>) {
    |s| <= |t| && s == t[|t| - |s|..]
  }

  lemma {:induction false} EvictNewer(ents: seq<Field>, max: nat)
    ensures Newer(Evict(ents, max), ents)
  {
    if Sum(ents) > max { EvictNewer(ents[1..], max); }
  }

  lemma {:induction false} NewerSum(s: seq<Field>, t: seq<Field>)
    requires Newer(s, t)
    ensures Sum(s) <= Sum(t) && (Sum(s) == Sum(t) ==> s == t)
  {
    if |s| < |t| {
      assert t[1..][|t| - 1 - |s|..] == t[|t| - |s|..];
      NewerSum(s, t[1..]);
    }
  }

  lemma {:induction false} EvictKeepsNewer(s: seq<Field>, t: seq<Field>, max: nat)
    requires Newer(s, t)
    ensures Newer(Evict(s, max), Evict(t, max))
  {
    NewerSum(s, t);
    if Sum(t) <= max {
    } else if |s| < |t| {
      assert t[1..][|t| - 1 - |s|..] == t[|t| - |s|..];
      EvictKeepsNewer(s, t[1..], max);
    }
  }

  lemma EvictMonotone(ents: seq<Field>, a: nat, b: nat)
    requires a <= b
    ensures Newer(Evict(ents, a), Evict(ents, b))
  {
    EvictEvict(ents, b, a);
    EvictNewer(Evict(ents, b), a);
  }

  lemma EvictMax(ents: seq<Field>, low: nat, max: nat)
    requires low <= max
    ensures Evict(Evict(ents, low), max) == Evict(ents, low) && Sum(Evict(ents, low)) <= max
  {
  }

  lemma EvictFits(ents: seq<Field>, max: nat)
    ensures Evict(ents, max) == ents <==> Sum(ents) <= max
  {
  }

  lemma NewerTrans(a: seq<Field>, b: seq<Field>, c: seq<Field>)
    requires Newer(a, b) && Newer(b, c)
    ensures Newer(a, c)
  {
    assert c[|c| - |b|..][|b| - |a|..] == c[|c| - |a|..];
  }

  lemma NewerAdd(s: seq<Field>, t: seq<Field>, f: Field)
    requires Newer(s, t)
    ensures Newer(s + [f], t + [f])
  {
  }

  lemma {:induction false} SumBounds(ents: seq<Field>)
    ensures |ents| <= Sum(ents)
  {
    if ents != [] { SumBounds(ents[1..]); }
  }

  /** Every index that means something in the newer part means the same in the whole. */
  lemma SameIndex(statics: seq<Field>, s: seq<Field>, t: seq<Field>, i: nat)
    requires Newer(s, t) && 1 <= i <= |statics| + |s|
    ensures At(statics, t, i) == At(statics, s, i) == Some(Space(statics, s)[i - 1])
  {
    if i > |statics| {
      var k := i - 1 - |statics|;
      assert Reversed(s)[k] == s[|s| - 1 - k] == t[|t| - 1 - k] == Reversed(t)[k];
    }
  }

  // ----- parsing what was printed -----

  lemma LowBits(flag: nat, p: nat, i: nat)
    requires p > 0 && flag % p == 0 && i < p
    ensures (flag + i) % p == i
  {
    assert flag == p * (flag / p);
    ModUnique(flag + i, p, flag / p, i);
  }

  /** A number that fits the prefix. */
  lemma ShortParses(n: nat, i: nat, flag: nat, rest: seq<byte>)
    requires 1 <= n <= 7 && flag % Pow2(n) == 0 && flag + Pow2(n) <= 256
    requires i < Pow2(n) - 1
    ensures ReadVarInt(n, VarInt(n, i, flag) + rest) == Done(i, rest)
  {
    hide Pow2, Scan;
    LowBits(flag, Pow2(n), i);
    assert (VarInt(n, i, flag) + rest)[1..] == rest;
  }

  lemma Scanned(n: nat, p: seq<byte>, x: nat, e: seq<byte>, rest: seq<byte>)
    requires 1 <= n <= 7 && p != [] && p[1..] == e + rest
    requires p[0] % Pow2(n) == Pow2(n) - 1
    requires Scan(e + rest) == Some((x, |e|)) && |e| <= 9
    ensures ReadVarInt(n, p) == Done(Pow2(n) - 1 + x, rest)
  {
    hide Pow2, Scan;
    assert p[1 + |e|..] == p[1..][|e|..] == rest;
  }

  lemma NineGroups(x: nat)
    requires x < 0x8000_0000_0000_0000
    ensures |Encode(x)| <= 9
  {
    Powers();
    EncodeLength(x, 9);
  }

  lemma LongIs(n: nat, i: nat, flag: nat, rest: seq<byte>)
    requires 1 <= n <= 7 && flag % Pow2(n) == 0 && flag + Pow2(n) <= 256 && Pow2(n) - 1 <= i
    ensures VarInt(n, i, flag) + rest == [flag + Pow2(n) - 1] + (Encode(i - (Pow2(n) - 1)) + rest)
  {
    hide Pow2, Encode;
  }

  lemma LongParses(n: nat, i: nat, flag: nat, rest: seq<byte>)
    requires 1 <= n <= 7 && flag % Pow2(n) == 0 && flag + Pow2(n) <= 256
    requires Pow2(n) - 1 <= i < 0x8000_0000_0000_0000
    ensures ReadVarInt(n, VarInt(n, i, flag) + rest) == Done(i, rest)
  {
    hide Pow2, Scan, Encode, ReadVarInt, VarInt;
    var k := Pow2(n) - 1;
    var e := Encode(i - k);
    NineGroups(i - k);
    ScanEncode(i - k, rest);
    LowBits(flag, k + 1, k);
    LongIs(n, i, flag, rest);
    Scanned(n, VarInt(n, i, flag) + rest, i - k, e, rest);
  }

  /** Integers round-trip below 2^63, the bound of readVarInt's overflow check. */
  lemma IntegerParses(n: nat, i: nat, flag: nat, rest: seq<byte>)
    requires 1 <= n <= 7 && flag % Pow2(n) == 0 && flag + Pow2(n) <= 256
    requires i < 0x8000_0000_0000_0000
    ensures ReadVarInt(n, VarInt(n, i, flag) + rest) == Done(i, rest)
    ensures flag <= VarInt(n, i, flag)[0] < flag + Pow2(n)
  {
    if i < Pow2(n) - 1 {
      ShortParses(n, i, flag, rest);
    } else {
      LongParses(n, i, flag, rest);
    }
  }

  lemma BodyParses(t: Tables, body: seq<byte>, huff: bool, rest: seq<byte>)
    requires |body| < 0x1_0000_0000
    requires Pow2(7) == 0x80
    ensures ReadString(t, VarInt(7, |body|, if huff then 0x80 else 0) + body + rest)
         == if !huff then Done(body, rest)
            else match Huffman.Decode(t.trie, body) case None => Bad(BadHuffman) case Some(s) => Done(s, rest)
  {
    var flag := if huff then 0x80 else 0;
    IntegerParses(7, |body|, flag, body + rest);
    var head := VarInt(7, |body|, flag);
    hide Pow2, VarInt, ReadVarInt, Huffman.Decode;
    assert head + body + rest == head + (body + rest);
    assert (body + rest)[..|body|] == body && (body + rest)[|body|..] == rest;
  }

  /** Strings come back whether or not they were Huffman coded. */
  lemma StringParses(t: Tables, s: seq<byte>, rest: seq<byte>)
    requires GoodTables(t) && |s| < 0x1_0000_0000
    ensures ReadString(t, HpackString(t.codes, s) + rest) == Done(s, rest)
  {
    HuffmanRoutines.RoundTrip(t.codes, t.trie, s);
    hide VarInt, ReadString, Huffman.Decode, HuffmanRoutines.EncodeString;
    Powers();
    var h := HuffmanRoutines.EncodeString(t.codes, s);
    if |h| < |s| {
      BodyParses(t, h, true, rest);
    } else {
      BodyParses(t, s, false, rest);
    }
  }

  /** What the decoder does with a literal field. */
  function Added(d: Decoder, f: Field, indexing: bool): Effect {
    Effect(if indexing then Evict(d.ents + [Field(f.name, f.value, false)], d.max) else d.ents, d.max, [f])
  }

  lemma IndexedParses(t: Tables, d: Decoder, i: nat, f: Field, rest: seq<byte>)
    requires i < 0x8000_0000_0000_0000
    requires At(t.statics, d.ents, i) == Some(f)
    ensures ParseOne(t, d, Indexed(i) + rest)
         == Done(Effect(d.ents, d.max, [Field(f.name, f.value, false)]), rest)
  {
    Powers();
    IntegerParses(7, i, 0x80, rest);
    hide Pow2, VarInt, ReadVarInt;
    assert (Indexed(i) + rest)[0] == Indexed(i)[0];
  }

  /** The first byte tells a literal field's kind. */
  predicate Marks(b: byte, indexing: bool, sensitive: bool) {
    if indexing then 64 <= b < 128 else if sensitive then 16 <= b < 32 else b < 16
  }

  /** A literal whose name and value parse. */
  lemma LiteralParses(t: Tables, d: Decoder, f: Field, indexing: bool, p: seq<byte>, middle: seq<byte>, rest: seq<byte>)
    requires !(indexing && f.sensitive)
    requires p != [] && Marks(p[0], indexing, f.sensitive)
    requires ParseName(t, d, if indexing then 6 else 4, p) == Done(f.name, middle)
    requires ReadString(t, middle) == Done(f.value, rest)
    ensures ParseOne(t, d, p) == Done(Added(d, f, indexing), rest)
  {
    hide ReadVarInt, ReadString, ParseName, Evict;
  }

  lemma Regroup(a: seq<byte>, b: seq<byte>, c: seq<byte>, d: seq<byte>)
    ensures a + b + c + d == a + (b + (c + d))
  {
    assert a + b + c + d == a + b + (c + d);
    assert a + b + (c + d) == a + (b + (c + d));
  }

  lemma FitsParts(f: Field)
    requires Fits(f)
    ensures |f.name| < 0x1_0000_0000 && |f.value| < 0x1_0000_0000
  {
  }

  lemma ZeroIndex(t: Tables, d: Decoder, n: nat, b: byte, name: seq<byte>, p: seq<byte>)
    requires (n == 4 && (b == 0 || b == 16)) || (n == 6 && b == 64)
    requires p == [b] + name
    ensures ParseName(t, d, n, p) == ReadString(t, name)
  {
    hide ReadString, Scan;
    assert Pow2(4) == 16 && Pow2(6) == 64;
    hide Pow2;
    assert p[1..] == name;
  }

  lemma NewNameParses(t: Tables, d: Decoder, f: Field, indexing: bool, rest: seq<byte>)
    requires GoodTables(t) && Fits(f) && !(indexing && f.sensitive)
    ensures ParseOne(t, d, NewName(t.codes, f, indexing) + rest) == Done(Added(d, f, indexing), rest)
  {
    assert |t.codes| == 256;
    hide HpackString, ReadString, GoodTables, ParseOne, ParseName, Pow2, Fits;
    assert |f.name| < 0x1_0000_0000 && |f.value| < 0x1_0000_0000 by { FitsParts(f); }
    StringParses(t, f.name, HpackString(t.codes, f.value) + rest);
    StringParses(t, f.value, rest);
    var name, value := HpackString(t.codes, f.name), HpackString(t.codes, f.value);
    var b := TypeByte(indexing, f.sensitive);
    var p := NewName(t.codes, f, indexing) + rest;
    Regroup([b], name, value, rest);
    ZeroIndex(t, d, if indexing then 6 else 4, b, name + (value + rest), p);
    LiteralParses(t, d, f, indexing, p, value + rest, rest);
  }

  /** The index of a name, with either prefix, in front of anything. */
  lemma NameIndexParses(t: Tables, d: Decoder, f: Field, i: nat, indexing: bool, tail: seq<byte>)
    returns (head: seq<byte>)
    requires |t.codes| == 256 && !(indexing && f.sensitive)
    requires 0 < i < 0x8000_0000_0000_0000 && At(t.statics, d.ents, i).Some?
    ensures head != [] && Marks(head[0], indexing, f.sensitive)
    ensures IndexedName(t.codes, f, i, indexing) == head + HpackString(t.codes, f.value)
    ensures ParseName(t, d, if indexing then 6 else 4, head + tail) == Done(At(t.statics, d.ents, i).value.name, tail)
  {
    assert Pow2(4) == 16 && Pow2(6) == 64;
    hide Pow2, VarInt, ReadVarInt, At, HpackString;
    var n, b := if indexing then 6 else 4, TypeByte(indexing, f.sensitive);
    IntegerParses(n, i, b, tail);
    head := VarInt(n, i, b);
  }

  lemma IndexedNameParses(t: Tables, d: Decoder, f: Field, i: nat, indexing: bool, rest: seq<byte>)
    requires GoodTables(t) && Fits(f) && !(indexing && f.sensitive)
    requires 0 < i < 0x8000_0000_0000_0000
    requires At(t.statics, d.ents, i).Some? && At(t.statics, d.ents, i).value.name == f.name
    ensures ParseOne(t, d, IndexedName(t.codes, f, i, indexing) + rest) == Done(Added(d, f, indexing), rest)
  {
    assert |t.codes| == 256;
    FitsParts(f);
    hide IndexedName, ParseName, HpackString, ReadString, GoodTables, ParseOne, At, Fits, Added;
    StringParses(t, f.value, rest);
    var value := HpackString(t.codes, f.value);
    var head := NameIndexParses(t, d, f, i, indexing, value + rest);
    Joined(head, value, rest);
    LiteralParses(t, d, f, indexing, head + (value + rest), value + rest, rest);
  }

  lemma SizeParses(t: Tables, d: Decoder, v: uint32, rest: seq<byte>)
    requires v <= d.allowed
    ensures ParseOne(t, d, TableSize(v) + rest) == Done(Effect(Evict(d.ents, v), v, []), rest)
  {
    assert Pow2(5) == 32;
    IntegerParses(5, v, 0x20, rest);
    hide Pow2, VarInt, ReadVarInt;
    assert (TableSize(v) + rest)[0] == TableSize(v)[0];
  }

  // ----- the two tables -----

  /** The lowest size that the encoder's pending updates will announce. */
  function Low(e: Encoder): nat {
    Min(e.minSize, e.max)
  }

  ghost predicate Plain(ents: seq<Field>) {
    forall f :: f in ents ==> !f.sensitive
  }

  /** What holds of the two states whatever was called. */
  ghost predicate Linked(e: Encoder, d: Decoder) {
    && Sum(e.ents) <= e.max <= d.allowed
    && e.limit <= d.allowed
    && Sum(d.ents) <= d.max
    && Plain(e.ents)
    && (!e.update ==> d.max == e.max && e.minSize == UINT32_MAX)
    && d.saved == []
  }

  /** The encoder's table is the newer part of what the decoder will have after the pending
      size updates: enough for every index to mean the same to both. */
  ghost predicate Follows(e: Encoder, d: Decoder) {
    Linked(e, d) && Newer(e.ents, Evict(d.ents, Low(e)))
  }

  /** The decoder's table will be exactly the encoder's. */
  ghost predicate Equal(e: Encoder, d: Decoder) {
    Linked(e, d) && e.ents == Evict(d.ents, Low(e))
  }

  /** With no update pending, that means that the tables are equal now. */
  lemma EqualNow(e: Encoder, d: Decoder)
    requires Linked(e, d) && !e.update
    ensures Equal(e, d) <==> e.ents == d.ents
  {
  }

  /** The decoder once the pending updates are read. */
  function Updated(e: Encoder, d: Decoder): Decoder {
    if e.update then d.(ents := Evict(d.ents, Low(e)), max := e.max) else d
  }

  lemma OneStep(t: Tables, d: Decoder, p: seq<byte>, f: Effect, rest: seq<byte>)
    requires p != [] && ParseOne(t, d, p) == Done(f, rest)
    ensures Process(t, d, p)
         == Also(f.emitted, Process(t, d.(ents := f.ents, max := f.max), rest))
  {
  }

  lemma UpdateParses(t: Tables, d: Decoder, v: uint32, rest: seq<byte>)
    requires v <= d.allowed
    ensures Process(t, d, TableSize(v) + rest) == Process(t, d.(ents := Evict(d.ents, v), max := v), rest)
  {
    SizeParses(t, d, v, rest);
    hide ParseOne, TableSize;
    OneStep(t, d, TableSize(v) + rest, Effect(Evict(d.ents, v), v, []), rest);
  }

  lemma UpdatesParse(t: Tables, e: Encoder, d: Decoder, rest: seq<byte>)
    requires Linked(e, d)
    ensures Process(t, d, Updates(e).0 + rest) == Process(t, Updated(e, d), rest)
  {
    hide Process, TableSize, Evict;
    if !e.update {
      assert [] + rest == rest;
    } else if e.minSize < e.max {
      var d' := d.(ents := Evict(d.ents, e.minSize), max := e.minSize);
      UpdateParses(t, d, e.minSize, TableSize(e.max) + rest);
      UpdateParses(t, d', e.max, rest);
      EvictEvict(d.ents, e.minSize, e.max);
      assert Updates(e).0 + rest == TableSize(e.minSize) + (TableSize(e.max) + rest);
    } else {
      UpdateParses(t, d, e.max, rest);
      assert Updates(e).0 + rest == TableSize(e.max) + rest;
    }
  }

  lemma UpdatesKeep(e: Encoder, d: Decoder)
    requires Follows(e, d)
    ensures Follows(Updates(e).1, Updated(e, d)) && !Updates(e).1.update
    ensures Equal(e, d) ==> Equal(Updates(e).1, Updated(e, d))
  {
    if e.update { EvictMax(d.ents, Low(e), e.max); }
    hide TableSize, Evict, Newer;
  }

  lemma SearchFinds(space: seq<Field>, f: Field)
    ensures
      var (i, both) := Search(space, f);
      && i <= |space|
      && (both ==> i > 0)
      && (i > 0 ==> space[i - 1].name == f.name)
      && (both ==> !f.sensitive && space[i - 1].value == f.value)
  {
  }

  /** The decoder once the field f is read. */
  function Received(t: Tables, e: Encoder, d: Decoder, f: Field): Decoder {
    if !Search(Space(t.statics, e.ents), f).1 && ShouldIndex(e, f) then d.(ents := Evict(d.ents + [f], d.max)) else d
  }

  /** One representation, with no update pending. */
  lemma RepresentationParses(t: Tables, e: Encoder, d: Decoder, f: Field, rest: seq<byte>)
    requires GoodTables(t) && Fits(f)
    requires Follows(e, d) && !e.update
    ensures ParseOne(t, d, Representation(t, e, f).0 + rest)
         == Done(Effect(Received(t, e, d, f).ents, d.max, [f]), rest)
  {
    var space := Space(t.statics, e.ents);
    var (i, both) := Search(space, f);
    SearchFinds(space, f);
    SumBounds(e.ents);
    assert Evict(d.ents, Low(e)) == d.ents;
    hide ParseOne, Search, Evict, Indexed, NewName, IndexedName;
    if i > 0 { SameIndex(t.statics, e.ents, d.ents, i); }
    if both {
      IndexedParses(t, d, i, space[i - 1], rest);
    } else if i == 0 {
      NewNameParses(t, d, f, ShouldIndex(e, f), rest);
    } else {
      IndexedNameParses(t, d, f, i, ShouldIndex(e, f), rest);
    }
  }

  lemma EvictedFrom(ents: seq<Field>, f: Field, max: nat)
    requires Plain(ents) && !f.sensitive
    ensures Plain(Evict(ents + [f], max)) && Plain(Evict(ents, max))
  {
    EvictNewer(ents + [f], max);
    EvictNewer(ents, max);
  }

  lemma AddKeeps(e: Encoder, d: Decoder, f: Field)
    requires Follows(e, d) && !e.update && !f.sensitive
    ensures
      var e', d' := e.(ents := Evict(e.ents + [f], e.max)), d.(ents := Evict(d.ents + [f], d.max));
      Follows(e', d') && (Equal(e, d) ==> Equal(e', d'))
  {
    hide Plain, Newer;
    assert Evict(d.ents, Low(e)) == d.ents;
    hide Evict;
    NewerAdd(e.ents, d.ents, f);
    EvictKeepsNewer(e.ents + [f], d.ents + [f], e.max);
    EvictedFrom(e.ents, f, e.max);
    EvictMax(d.ents + [f], e.max, e.max);
  }

  lemma RepresentationKeeps(t: Tables, e: Encoder, d: Decoder, f: Field)
    requires |t.codes| == 256
    requires Follows(e, d) && !e.update
    ensures Follows(Representation(t, e, f).1, Received(t, e, d, f)) && !Representation(t, e, f).1.update
    ensures Equal(e, d) ==> Equal(Representation(t, e, f).1, Received(t, e, d, f))
  {
    hide Search, Indexed, NewName, IndexedName, Evict, Follows, Equal;
    if !Search(Space(t.statics, e.ents), f).1 && ShouldIndex(e, f) {
      AddKeeps(e, d, f);
      assert Field(f.name, f.value, false) == f;
    }
  }

  lemma CodesSize(t: Tables)
    requires GoodTables(t)
    ensures |t.codes| == 256
  {
  }

  lemma FollowsLinked(e: Encoder, d: Decoder)
    requires Follows(e, d) || Equal(e, d)
    ensures Linked(e, d)
  {
  }

  lemma ReceivedRest(t: Tables, e: Encoder, d: Decoder, f: Field)
    ensures Received(t, e, d, f) == d.(ents := Received(t, e, d, f).ents)
  {
  }

  /** The decoder once a whole WriteField is read. */
  function After(t: Tables, e: Encoder, d: Decoder, f: Field): Decoder {
    Received(t, Updates(e).1, Updated(e, d), f)
  }

  lemma FieldEmits(t: Tables, e: Encoder, d: Decoder, f: Field, rest: seq<byte>)
    requires GoodTables(t) && Fits(f) && Follows(e, d)
    ensures Process(t, d, WriteField(t, e, f).0 + rest) == Also([f], Process(t, After(t, e, d, f), rest))
  {
    hide Process, Updates, Representation, Received, Updated, ParseOne, Follows, Equal, GoodTables, Linked, Fits, Also;
    CodesSize(t);
    UpdatesKeep(e, d);
    var e1, d1 := Updates(e).1, Updated(e, d);
    RepresentationParses(t, e1, d1, f, rest);
    var b, c := Updates(e).0, Representation(t, e1, f).0;
    FollowsLinked(e, d);
    UpdatesParse(t, e, d, c + rest);
    ReceivedRest(t, e1, d1, f);
    OneStep(t, d1, c + rest, Effect(Received(t, e1, d1, f).ents, d1.max, [f]), rest);
    assert (b + c) + rest == b + (c + rest);
  }

  lemma FieldKeeps(t: Tables, e: Encoder, d: Decoder, f: Field)
    requires |t.codes| == 256 && Follows(e, d)
    ensures Follows(WriteField(t, e, f).1, After(t, e, d, f)) && !WriteField(t, e, f).1.update
    ensures Equal(e, d) ==> WriteField(t, e, f).1.ents == After(t, e, d, f).ents
  {
    hide Updates, Representation, Received, Updated, Follows, Equal, Linked;
    UpdatesKeep(e, d);
    var e1, d1 := Updates(e).1, Updated(e, d);
    RepresentationKeeps(t, e1, d1, f);
    if Equal(e, d) {
      var e2, d2 := Representation(t, e1, f).1, Received(t, e1, d1, f);
      FollowsLinked(e2, d2);
      EqualNow(e2, d2);
    }
  }

  // ----- whole runs -----

  datatype Op = WriteOp(field: Field) | MaxOp(v: uint32) | LimitOp(v: uint32)

  /** One call on the encoder: the bytes it writes, and its new state. */
  function Call(t: Tables, e: Encoder, op: Op): (seq<byte>, Encoder)
    requires |t.codes| == 256
  {
    match op
    case WriteOp(f) => WriteField(t, e, f)
    case MaxOp(v) => ([], SetMax(e, v))
    case LimitOp(v) => ([], SetLimit(e, v))
  }

  /** A sequence of calls, and everything they write. */
  function Calls(t: Tables, e: Encoder, ops: seq<Op>): (seq<byte>, Encoder)
    requires |t.codes| == 256
    decreases |ops|
  {
    if ops == [] then ([], e)
    else
      var (b, e1) := Call(t, e, ops[0]);
      var (c, e2) := Calls(t, e1, ops[1..]);
      (b + c, e2)
  }

  function Fields(ops: seq<Op>): seq<Field> {
    if ops == [] then []
    else (if ops[0].WriteOp? then [ops[0].field] else []) + Fields(ops[1..])
  }

  /** The calls that the decoder's settings allow. */
  predicate Allowed(op: Op, d: Decoder) {
    match op
    case WriteOp(f) => Fits(f)
    case MaxOp(v) => true
    case LimitOp(v) => v <= d.allowed
  }

  function Decoded(t: Tables, e: Encoder, d: Decoder, op: Op): Decoder {
    if op.WriteOp? then After(t, e, d, op.field) else d
  }

  lemma LowerKeeps(s: seq<Field>, t: seq<Field>, low: nat, v: nat)
    ensures Newer(s, Evict(t, low)) ==> Newer(Evict(s, v), Evict(t, Min(low, v)))
    ensures s == Evict(t, low) ==> Evict(s, v) == Evict(t, Min(low, v))
  {
    EvictEvict(t, low, v);
    if Newer(s, Evict(t, low)) { EvictKeepsNewer(s, Evict(t, low), v); }
  }

  lemma RaiseKeeps(s: seq<Field>, t: seq<Field>, low: nat, high: nat, v: nat)
    requires Newer(s, Evict(t, low)) && low <= high && Sum(s) <= v
    ensures Evict(s, v) == s && Newer(s, Evict(t, high))
  {
    EvictMonotone(t, low, high);
    NewerTrans(s, Evict(t, low), Evict(t, high));
  }

  lemma SetMaxKeeps(e: Encoder, d: Decoder, v: uint32)
    requires Follows(e, d)
    ensures Follows(SetMax(e, v), d)
  {
    hide Newer, Plain, Evict, Sum;
    var v' := Min(v, e.limit);
    EvictedFrom(e.ents, Field([], [], false), v');
    if v' <= e.max {
      LowerKeeps(e.ents, d.ents, Low(e), v');
    } else {
      RaiseKeeps(e.ents, d.ents, Low(e), Low(SetMax(e, v)), v');
    }
  }

  /** Tables that were to be equal still are to be, after a change of size, exactly if the
      size is not raised or what the announced minimum leaves of the decoder's table fits the
      size that the encoder had evicted down to. */
  lemma SetMaxEqual(e: Encoder, d: Decoder, v: uint32)
    requires Equal(e, d)
    ensures
      var v' := Min(v, e.limit);
      Equal(SetMax(e, v), d) <==> v' <= e.max || Sum(Evict(d.ents, Min(e.minSize, v'))) <= e.max
  {
    hide Newer, Plain, Evict, Sum;
    var v' := Min(v, e.limit);
    var e' := SetMax(e, v);
    EvictedFrom(e.ents, Field([], [], false), v');
    if v' <= e.max {
      LowerKeeps(e.ents, d.ents, Low(e), v');
    } else {
      EvictFits(e.ents, v');
      EvictEvict(d.ents, Low(e'), e.max);
      EvictFits(Evict(d.ents, Low(e')), e.max);
      assert Min(Low(e'), e.max) == Low(e);
    }
  }

  /** What holds of every encoder's state. */
  ghost predicate Tidy(e: Encoder) {
    Sum(e.ents) <= e.max && Plain(e.ents) && (!e.update ==> e.minSize == UINT32_MAX)
  }

  /** The size is not raised, or no update is pending, or the pending minimum is one that the
      current size meets, or no entry, however small, fits between what the encoder holds and
      what it will announce. */
  predicate Harmless(e: Encoder, v: uint32) {
    var v' := Min(v, e.limit);
    v' <= e.max || !e.update || e.minSize <= e.max || Sum(e.ents) + 32 > Min(e.minSize, v')
  }

  lemma {:induction false} EvictedSize(ents: seq<Field>, max: nat)
    requires Sum(ents) > max
    ensures Sum(ents) >= Sum(Evict(ents, max)) + 32
  {
    if Sum(ents[1..]) > max { EvictedSize(ents[1..], max); }
  }

  lemma HarmlessKeeps(e: Encoder, d: Decoder, v: uint32)
    requires Equal(e, d) && Harmless(e, v)
    ensures Equal(SetMax(e, v), d)
  {
    hide Plain, Evict, Sum, Newer;
    SetMaxEqual(e, d, v);
    var m := Min(e.minSize, Min(v, e.limit));
    var s := Evict(d.ents, m);
    NewerSum(s, d.ents) by { EvictNewer(d.ents, m); }
    if Min(v, e.limit) > e.max && e.update && e.minSize > e.max && Sum(s) > e.max {
      EvictEvict(d.ents, m, e.max);
      EvictedSize(s, e.max);
      assert false;
    }
  }

  /** A decoder that shows the harm: it holds one entry more, of the size in between. */
  lemma HarmShows(e: Encoder, v: uint32) returns (d: Decoder)
    requires Tidy(e) && !Harmless(e, v)
    ensures Equal(e, d) && !Equal(SetMax(e, v), d)
  {
    var m := Min(e.minSize, Min(v, e.limit));
    var x := Field(seq(m - Sum(e.ents) - 32, _ => 0), [], false);
    var ents := [x] + e.ents;
    assert ents[1..] == e.ents && Size(x) == m - Sum(e.ents) && Sum(ents) == m;
    d := Decoder(ents, UINT32_MAX, UINT32_MAX, []);
    assert Evict(ents, e.max) == e.ents;
    hide Evict, Sum;
    EvictFits(ents, m);
    SetMaxEqual(e, d, v);
  }

  /** What a caller can tell before SetMaxDynamicTableSize: the call keeps the tables of the
      encoder and of every decoder in step with it equal exactly if it is harmless. */
  lemma SetMaxSafe(e: Encoder, v: uint32)
    requires Tidy(e)
    ensures Harmless(e, v) <==> forall d :: Equal(e, d) ==> Equal(SetMax(e, v), d)
  {
    hide Equal, SetMax;
    if Harmless(e, v) {
      forall d | Equal(e, d) ensures Equal(SetMax(e, v), d) { HarmlessKeeps(e, d, v); }
    } else {
      var d := HarmShows(e, v);
    }
  }

  lemma SetLimitKeeps(e: Encoder, d: Decoder, v: uint32)
    requires Follows(e, d) && v <= d.allowed
    ensures Follows(SetLimit(e, v), d)
    ensures Equal(e, d) ==> Equal(SetLimit(e, v), d)
  {
    hide Newer, Plain, Evict, Sum;
    if e.max > v {
      EvictedFrom(e.ents, Field([], [], false), v);
      LowerKeeps(e.ents, d.ents, Low(e), v);
      assert Low(SetLimit(e, v)) == Min(Low(e), v);
    }
  }

  /** The decoder after it has read what a sequence of calls wrote. */
  function DecodedAll(t: Tables, e: Encoder, d: Decoder, ops: seq<Op>): Decoder
    requires |t.codes| == 256
    decreases |ops|
  {
    if ops == [] then d else DecodedAll(t, Call(t, e, ops[0]).1, Decoded(t, e, d, ops[0]), ops[1..])
  }

  lemma CallKeeps(t: Tables, e: Encoder, d: Decoder, op: Op)
    requires |t.codes| == 256 && Follows(e, d) && Allowed(op, d)
    ensures Follows(Call(t, e, op).1, Decoded(t, e, d, op))
    ensures Decoded(t, e, d, op).allowed == d.allowed
  {
    hide Follows;
    match op
    case WriteOp(f) => FieldKeeps(t, e, d, f);
    case MaxOp(v) => SetMaxKeeps(e, d, v);
    case LimitOp(v) => SetLimitKeeps(e, d, v);
  }

  lemma AlsoAlso(a: seq<Field>, b: seq<Field>, w: Written)
    ensures Also([], w) == w && Also(a, Also(b, w)) == Also(a + b, w)
  {
    assert [] + w.emitted == w.emitted;
    assert a + (b + w.emitted) == (a + b) + w.emitted;
  }

  lemma AllowedStill(ops: seq<Op>, d: Decoder, d': Decoder)
    requires d.allowed == d'.allowed && forall op :: op in ops ==> Allowed(op, d)
    ensures forall op :: op in ops ==> Allowed(op, d')
  {
  }

  lemma FitsField(op: Op, d: Decoder)
    requires op.WriteOp? && Allowed(op, d)
    ensures Fits(op.field)
  {
  }

  lemma {:induction false} CallsParse(t: Tables, e: Encoder, d: Decoder, ops: seq<Op>, rest: seq<byte>)
    requires GoodTables(t) && Follows(e, d)
    requires forall op :: op in ops ==> Allowed(op, d)
    ensures Process(t, d, Calls(t, e, ops).0 + rest) == Also(Fields(ops), Process(t, DecodedAll(t, e, d, ops), rest))
    ensures Follows(Calls(t, e, ops).1, DecodedAll(t, e, d, ops))
    decreases |ops|
  {
    hide Follows, GoodTables, Process, WriteField, After, SetMax, SetLimit, Allowed, Also;
    CodesSize(t);
    if ops == [] {
      assert [] + rest == rest;
      AlsoAlso([], [], Process(t, d, rest));
    } else {
      var op := ops[0];
      assert Allowed(op, d);
      CallKeeps(t, e, d, op);
      var e', d' := Call(t, e, op).1, Decoded(t, e, d, op);
      AllowedStill(ops, d, d');
      CallsParse(t, e', d', ops[1..], rest);
      var b, c := Call(t, e, op).0, Calls(t, e', ops[1..]).0;
      assert b + c + rest == b + (c + rest);
      assert Calls(t, e, ops).0 == b + c;
      var w := Process(t, DecodedAll(t, e, d, ops), rest);
      if op.WriteOp? {
        FitsField(op, d);
        FieldEmits(t, e, d, op.field, c + rest);
        AlsoAlso([op.field], Fields(ops[1..]), w);
      } else {
        assert b + (c + rest) == c + rest;
        AlsoAlso([], [], w);
        assert Fields(ops) == Fields(ops[1..]);
      }
    }
  }

  lemma {:induction false} DecodedAllAllowed(t: Tables, e: Encoder, d: Decoder, ops: seq<Op>)
    requires |t.codes| == 256
    ensures DecodedAll(t, e, d, ops).allowed == d.allowed
    decreases |ops|
  {
    if ops != [] { DecodedAllAllowed(t, Call(t, e, ops[0]).1, Decoded(t, e, d, ops[0]), ops[1..]); }
  }

  lemma ProcessNothing(t: Tables, d: Decoder)
    requires d.saved == []
    ensures Process(t, d, []) == Written(d, [], None)
  {
  }

  /** Every change of the maximum size is harmless. Lowering the size through the limit and
      raising it again before the next field is what this excludes. */
  predicate Careful(t: Tables, e: Encoder, ops: seq<Op>)
    requires |t.codes| == 256
    decreases |ops|
  {
    ops == []
    || (&& (ops[0].MaxOp? ==> Harmless(e, ops[0].v))
        && Careful(t, Call(t, e, ops[0]).1, ops[1..]))
  }

  lemma CarefulCall(t: Tables, e: Encoder, d: Decoder, op: Op)
    requires |t.codes| == 256 && Equal(e, d) && Allowed(op, d)
    requires op.MaxOp? ==> Harmless(e, op.v)
    ensures Equal(Call(t, e, op).1, Decoded(t, e, d, op))
    ensures op.WriteOp? ==> !Call(t, e, op).1.update
  {
    EqualFollows(e, d);
    match op
    case WriteOp(f) => {
      FieldKeeps(t, e, d, f);
      hide WriteField, After, Follows;
      FollowsLinked(WriteField(t, e, f).1, After(t, e, d, f));
      EqualNow(WriteField(t, e, f).1, After(t, e, d, f));
    }
    case MaxOp(v) => HarmlessKeeps(e, d, v);
    case LimitOp(v) => SetLimitKeeps(e, d, v);
  }

  lemma EqualFollows(e: Encoder, d: Decoder)
    requires Equal(e, d)
    ensures Follows(e, d)
  {
  }

  lemma {:induction false} CallsEqual(t: Tables, e: Encoder, d: Decoder, ops: seq<Op>)
    requires |t.codes| == 256 && Equal(e, d) && Careful(t, e, ops)
    requires forall op :: op in ops ==> Allowed(op, d)
    ensures Equal(Calls(t, e, ops).1, DecodedAll(t, e, d, ops))
    ensures ops != [] && ops[|ops| - 1].WriteOp? ==> !Calls(t, e, ops).1.update
    decreases |ops|
  {
    hide Equal, Call, Decoded, Follows, Allowed, SetMax, SetLimit, WriteField, After;
    if ops != [] {
      var op := ops[0];
      assert Allowed(op, d);
      CarefulCall(t, e, d, op);
      var e', d' := Call(t, e, op).1, Decoded(t, e, d, op);
      CallKeeps(t, e, d, op) by { EqualFollows(e, d); }
      AllowedStill(ops, d, d');
      assert forall o :: o in ops[1..] ==> o in ops;
      CallsEqual(t, e', d', ops[1..]);
    }
  }

  /** What Write makes of everything that a sequence of calls wrote. */
  lemma CallsWritten(t: Tables, e: Encoder, d: Decoder, ops: seq<Op>)
    requires GoodTables(t) && Follows(e, d)
    requires forall op :: op in ops ==> Allowed(op, d)
    ensures Write(t, d, Calls(t, e, ops).0) == Written(DecodedAll(t, e, d, ops), Fields(ops), None)
    ensures Follows(Calls(t, e, ops).1, DecodedAll(t, e, d, ops))
  {
    hide GoodTables, Follows, Process, ParseOne, Calls, DecodedAll, Fields, Allowed;
    CodesSize(t);
    CallsParse(t, e, d, ops, []);
    var b, e' := Calls(t, e, ops).0, Calls(t, e, ops).1;
    var d' := DecodedAll(t, e, d, ops);
    FollowsLinked(e, d);
    FollowsLinked(e', d');
    assert b + [] == b && [] + b == b;
    ProcessNothing(t, d');
    ProcessNothing(t, d);
    assert Fields(ops) + [] == Fields(ops);
  }

  /** Lock step, first part: after any calls whatever, the decoder has emitted exactly the
      fields written, Sensitive included, and every index still means the same to both. */
  lemma EmitsWhatWasWritten(t: Tables, e: Encoder, d: Decoder, ops: seq<Op>)
    requires GoodTables(t) && Follows(e, d)
    requires forall op :: op in ops ==> Allowed(op, d)
    ensures
      var (b, e') := Calls(t, e, ops);
      var w := Write(t, d, b);
      w.error == None && w.emitted == Fields(ops) && Follows(e', w.decoder) && w.decoder.allowed == d.allowed
  {
    hide GoodTables, Follows, Calls, Write, DecodedAll, Fields, Allowed;
    CodesSize(t);
    CallsWritten(t, e, d, ops);
    DecodedAllAllowed(t, e, d, ops);
  }

  /** Lock step, second part: with careful changes of size both tables are equal after each
      WriteField. (Every beginning of a careful sequence of calls is one.) */
  lemma TablesStayEqual(t: Tables, e: Encoder, d: Decoder, ops: seq<Op>)
    requires GoodTables(t) && Equal(e, d)
    requires forall op :: op in ops ==> Allowed(op, d)
    requires Careful(t, e, ops)
    requires ops != [] && ops[|ops| - 1].WriteOp?
    ensures
      var (b, e') := Calls(t, e, ops);
      var d' := Write(t, d, b).decoder;
      Equal(e', d') && e'.ents == d'.ents && e'.max == d'.max
  {
    hide GoodTables, Follows, Calls, Write, DecodedAll, Fields, Allowed, Equal;
    CodesSize(t);
    EqualFollows(e, d);
    CallsWritten(t, e, d, ops);
    CallsEqual(t, e, d, ops);
    var e', d' := Calls(t, e, ops).1, DecodedAll(t, e, d, ops);
    FollowsLinked(e', d');
    EqualNow(e', d');
  }

  /** WriteField and SetMaxDynamicTableSize alone are always careful. */
  lemma {:induction false} SizesAloneAreCareful(t: Tables, e: Encoder, ops: seq<Op>)
    requires |t.codes| == 256 && (e.update ==> e.minSize <= e.max)
    requires forall op :: op in ops ==> !op.LimitOp?
    ensures Careful(t, e, ops)
    decreases |ops|
  {
    if ops != [] {
      assert ops[0] in ops;
      var e' := Call(t, e, ops[0]).1;
      if ops[0].WriteOp? { NoUpdateLeft(t, e, ops[0].field); }
      hide WriteField;
      assert forall op :: op in ops[1..] ==> op in ops;
      SizesAloneAreCareful(t, e', ops[1..]);
    }
  }

  lemma NoUpdateLeft(t: Tables, e: Encoder, f: Field)
    requires |t.codes| == 256
    ensures !WriteField(t, e, f).1.update
  {
    hide Search, Indexed, NewName, IndexedName, TableSize, Evict;
  }

  /** A new encoder and a decoder for its default size. */
  lemma NewPairIsEqual(allowed: uint32)
    requires INITIAL_TABLE_SIZE <= allowed
    ensures Equal(NEW_ENCODER, NewDecoder(INITIAL_TABLE_SIZE).(allowed := allowed))
  {
  }

  // ----- and without care -----

  /** The call sequence that breaks the lock step: the limit drops to 0 and returns, and only
      then is the size set, so that the announced minimum is not what the encoder evicted to. */
  function Careless(f: Field, g: Field): seq<Op> {
    [WriteOp(f), LimitOp(0), LimitOp(INITIAL_TABLE_SIZE), MaxOp(INITIAL_TABLE_SIZE), WriteOp(g)]
  }

  lemma CallsStep(t: Tables, e: Encoder, d: Decoder, op: Op, ops: seq<Op>)
    requires |t.codes| == 256
    ensures Calls(t, e, [op] + ops).1 == Calls(t, Call(t, e, op).1, ops).1
    ensures DecodedAll(t, e, d, [op] + ops) == DecodedAll(t, Call(t, e, op).1, Decoded(t, e, d, op), ops)
  {
    assert ([op] + ops)[1..] == ops;
  }

  /** A field that is added to both empty tables. */
  lemma FieldAdded(t: Tables, e: Encoder, d: Decoder, f: Field)
    requires |t.codes| == 256 && e.ents == [] && Linked(e, d) && e.max == INITIAL_TABLE_SIZE
    requires Sum(d.ents) + Size(f) <= INITIAL_TABLE_SIZE && (e.update ==> e.minSize == e.max)
    ensures
      var e', d' := WriteField(t, e, f).1, After(t, e, d, f);
      && e'.max == d'.max == e.max && e'.limit == e.limit && !e'.update && e'.minSize == UINT32_MAX
      && (|| (e'.ents == [] && d'.ents == d.ents)
          || (e'.ents == [Field(f.name, f.value, false)] && d'.ents == d.ents + [Field(f.name, f.value, false)]))
      && (First(t.statics, f, true).None? && !f.sensitive ==> e'.ents == [f])
  {
    assert Space(t.statics, []) == t.statics;
    hide First, Indexed, NewName, IndexedName, TableSize, VarInt;
    SumAdd(d.ents, Field(f.name, f.value, false));
    assert [] + [f] == [f];
    assert Sum([f]) == Size(f);
  }

  lemma {:induction false} SumAdd(ents: seq<Field>, f: Field)
    ensures Sum(ents + [f]) == Sum(ents) + Size(f)
  {
    if ents != [] {
      assert (ents + [f])[1..] == ents[1..] + [f];
      SumAdd(ents[1..], f);
    }
  }

  lemma Shrunk(e: Encoder)
    requires e.max == e.limit == INITIAL_TABLE_SIZE && !e.update && e.minSize == UINT32_MAX
    ensures SetMax(SetLimit(SetLimit(e, 0), INITIAL_TABLE_SIZE), INITIAL_TABLE_SIZE)
         == Encoder([], INITIAL_TABLE_SIZE, INITIAL_TABLE_SIZE, INITIAL_TABLE_SIZE, true)
  {
    assert Sum(Evict(e.ents, 0)) <= 0;
  }

  lemma CarelessCalls(t: Tables, f: Field, g: Field)
    requires |t.codes| == 256
    ensures
      var e1, d1 := WriteField(t, NEW_ENCODER, f).1, After(t, NEW_ENCODER, NewDecoder(INITIAL_TABLE_SIZE), f);
      var e4 := SetMax(SetLimit(SetLimit(e1, 0), INITIAL_TABLE_SIZE), INITIAL_TABLE_SIZE);
      && Calls(t, NEW_ENCODER, Careless(f, g)).1 == WriteField(t, e4, g).1
      && DecodedAll(t, NEW_ENCODER, NewDecoder(INITIAL_TABLE_SIZE), Careless(f, g)) == After(t, e4, d1, g)
  {
    hide WriteField, After, SetMax, SetLimit;
    var e0, d0 := NEW_ENCODER, NewDecoder(INITIAL_TABLE_SIZE);
    var w, l0, l1, m, x := WriteOp(f), LimitOp(0), LimitOp(INITIAL_TABLE_SIZE), MaxOp(INITIAL_TABLE_SIZE), WriteOp(g);
    var e1, d1 := WriteField(t, e0, f).1, After(t, e0, d0, f);
    var e2 := SetLimit(e1, 0);
    var e3 := SetLimit(e2, INITIAL_TABLE_SIZE);
    var e4 := SetMax(e3, INITIAL_TABLE_SIZE);
    CallsStep(t, e0, d0, w, [l0, l1, m, x]);
    CallsStep(t, e1, d1, l0, [l1, m, x]);
    CallsStep(t, e2, d1, l1, [m, x]);
    CallsStep(t, e3, d1, m, [x]);
    CallsStep(t, e4, d1, x, []);
    assert Careless(f, g) == [w] + [l0, l1, m, x];
    assert [l0, l1, m, x] == [l0] + [l1, m, x] && [l1, m, x] == [l1] + [m, x] && [m, x] == [m] + [x] && [x] == [x] + [];
  }

  /** The states after the careless calls. */
  lemma CarelessStates(t: Tables, f: Field, g: Field)
    requires |t.codes| == 256
    requires First(t.statics, f, true).None? && !f.sensitive && Size(f) + Size(g) <= INITIAL_TABLE_SIZE
    ensures
      var e', d' := Calls(t, NEW_ENCODER, Careless(f, g)).1,
                    DecodedAll(t, NEW_ENCODER, NewDecoder(INITIAL_TABLE_SIZE), Careless(f, g));
      !e'.update && |d'.ents| == |e'.ents| + 1
  {
    var e0, d0 := NEW_ENCODER, NewDecoder(INITIAL_TABLE_SIZE);
    FieldAdded(t, e0, d0, f);
    assert Sum([f]) == Size(f);
    var e1, d1 := WriteField(t, e0, f).1, After(t, e0, d0, f);
    hide WriteField, After, First, Space, Calls, DecodedAll, SetMax, SetLimit;
    assert [] + [f] == [f];
    Shrunk(e1);
    var e4 := Encoder([], INITIAL_TABLE_SIZE, INITIAL_TABLE_SIZE, INITIAL_TABLE_SIZE, true);
    ReceivedSaved(t, e0, d0, f);
    FieldAdded(t, e4, d1, g);
    CarelessCalls(t, f, g);
  }

  lemma ReceivedSaved(t: Tables, e: Encoder, d: Decoder, f: Field)
    ensures After(t, e, d, f).saved == d.saved && After(t, e, d, f).allowed == d.allowed
  {
  }

  /** After them the decoder still holds the field that the encoder has evicted, although no
      size update is left to come. */
  lemma CarelessTablesDiffer(t: Tables, f: Field, g: Field)
    requires GoodTables(t)
    requires First(t.statics, f, true).None? && !f.sensitive && Size(f) + Size(g) <= INITIAL_TABLE_SIZE
    ensures
      var (b, e') := Calls(t, NEW_ENCODER, Careless(f, g));
      var d' := Write(t, NewDecoder(INITIAL_TABLE_SIZE), b).decoder;
      !e'.update && |d'.ents| == |e'.ents| + 1
  {
    hide GoodTables;
    CodesSize(t);
    CarelessStates(t, f, g);
    NewPairIsEqual(INITIAL_TABLE_SIZE);
    EqualFollows(NEW_ENCODER, NewDecoder(INITIAL_TABLE_SIZE));
    CallsWritten(t, NEW_ENCODER, NewDecoder(INITIAL_TABLE_SIZE), Careless(f, g));
    hide Write, Calls, DecodedAll, First;
  }
}
