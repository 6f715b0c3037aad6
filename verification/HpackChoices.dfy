/** What the encoder chooses to write, stated on its bytes: Huffman coding where that is
    shorter, an index where the field is known, and an entry in the table where it fits. */
module HpackChoices {
  import opened Wrappers
  import opened Base128
  import opened Hpack
  import opened HpackLockStep
  import Huffman
  import HuffmanRoutines

  // ----- strings -----

  /** b is a string literal for s: the top bit of its first byte says Huffman coding, which is
      used if and only if the bits of the codewords, rounded up to bytes, are fewer than the
      bytes of s; then comes the shorter length, and then as many bytes. */
  ghost predicate StringIs(codes: Huffman.Codes, s: seq<byte>, b: seq<byte>)
    requires |codes| == 256
  {
    var h := (Huffman.BitCount(codes, s) + 7) / 8;
    var n := if h < |s| then h else |s|;
    && n < |b| && (b[0] >= 128 <==> h < |s|)
    && ReadVarInt(7, b) == Done(n, b[|b| - n..])
    && (if h < |s| then Huffman.Encodes(codes, b[|b| - n..], s) else b[|b| - n..] == s)
    && forall raw: seq<byte> :: RawLiteral(s, raw) ==> |b| <= |raw|
  }

  /** A literal for s without Huffman coding. */
  predicate RawLiteral(s: seq<byte>, raw: seq<byte>) {
    raw != [] && raw[0] < 128 && ReadVarInt(7, raw) == Done(|s|, s)
  }

  lemma {:induction false} EncodeGrows(x: nat, y: nat)
    requires x <= y
    ensures |Encode(x)| <= |Encode(y)|
  {
    if x >= 128 { EncodeGrows(x / 128, y / 128); }
  }

  /** No encoding of a number is shorter. */
  lemma {:induction false} ScanIsLongEnough(b: seq<byte>)
    requires Scan(b).Some?
    ensures |Encode(Scan(b).value.0)| <= Scan(b).value.1
  {
    if b[0] >= 128 {
      ScanIsLongEnough(b[1..]);
      var v := Scan(b[1..]).value.0;
      assert (b[0] - 128 + 128 * v) / 128 == v;
    }
  }

  lemma PrefixLength(n: nat, i: nat, flag: nat)
    requires 1 <= n <= 7 && flag % Pow2(n) == 0 && flag + Pow2(n) <= 256
    ensures |VarInt(n, i, flag)| == if i < Pow2(n) - 1 then 1 else 1 + |Encode(i - (Pow2(n) - 1))|
  {
  }

  lemma RawIsLongEnough(s: seq<byte>, raw: seq<byte>)
    requires RawLiteral(s, raw)
    ensures |VarInt(7, |s|, 0)| + |s| <= |raw|
  {
    Powers();
    PrefixLength(7, |s|, 0);
    hide VarInt, Pow2;
    if raw[0] % 128 == 127 { ScanIsLongEnough(raw[1..]); }
  }

  lemma NoRawIsShorter(s: seq<byte>, b: seq<byte>)
    requires |b| <= |VarInt(7, |s|, 0)| + |s|
    ensures forall raw: seq<byte> :: RawLiteral(s, raw) ==> |b| <= |raw|
  {
    forall raw: seq<byte> | RawLiteral(s, raw)
      ensures |b| <= |raw|
    {
      RawIsLongEnough(s, raw);
    }
  }

  /** A body behind its length. */
  lemma BodyFollows(body: seq<byte>, huff: bool)
    requires |body| < 0x8000_0000_0000_0000 && Pow2(7) == 128
    ensures var flag := if huff then 0x80 else 0;
            var b := VarInt(7, |body|, flag) + body;
            && |body| < |b| && b[|b| - |body|..] == body && (b[0] >= 128 <==> huff)
            && ReadVarInt(7, b) == Done(|body|, body)
  {
    var flag := if huff then 0x80 else 0;
    IntegerParses(7, |body|, flag, body);
    hide Pow2, VarInt, ReadVarInt;
    assert (VarInt(7, |body|, flag) + body)[0] == VarInt(7, |body|, flag)[0];
  }

  lemma LengthGrows(n: nat, m: nat, huff: bool)
    requires n <= m && Pow2(7) == 128
    ensures |VarInt(7, n, if huff then 0x80 else 0)| <= |VarInt(7, m, 0)|
  {
    PrefixLength(7, n, if huff then 0x80 else 0);
    PrefixLength(7, m, 0);
    hide Pow2, VarInt;
    if n >= 127 { EncodeGrows(n - 127, m - 127); }
  }

  /** What HpackString writes, without its name. */
  lemma StringChoice(codes: Huffman.Codes, s: seq<byte>)
    requires |codes| == 256 && |s| < 0x8000_0000_0000_0000
    ensures StringIs(codes, s, HpackString(codes, s))
  {
    Powers();
    var h := HuffmanRoutines.EncodeString(codes, s);
    HuffmanRoutines.EncodeStringEncodes(codes, s);
    assert |h| == (Huffman.BitCount(codes, s) + 7) / 8;
    hide Pow2, VarInt, ReadVarInt, HuffmanRoutines.EncodeString, Huffman.Encodes, Huffman.BitCount, RawLiteral;
    var huff := |h| < |s|;
    var body := if huff then h else s;
    BodyFollows(body, huff);
    LengthGrows(|body|, |s|, huff);
    var b := VarInt(7, |body|, if huff then 0x80 else 0) + body;
    assert b == HpackString(codes, s);
    hide HpackString;
    NoRawIsShorter(s, b);
  }

  // ----- fields -----

  /** The first index with the name, or 0 where there is none. */
  predicate Named(space: seq<Field>, name: seq<byte>, i: nat) {
    if i == 0 then forall e :: e in space ==> e.name != name
    else i <= |space| && space[i - 1].name == name && forall j :: 0 <= j < i - 1 ==> space[j].name != name
  }

  /** The first index with both. */
  predicate Exact(space: seq<Field>, f: Field, i: nat) {
    && 1 <= i <= |space| && space[i - 1].name == f.name && space[i - 1].value == f.value
    && forall j :: 0 <= j < i - 1 ==> !(space[j].name == f.name && space[j].value == f.value)
  }

  predicate Known(space: seq<Field>, f: Field) {
    !f.sensitive && exists e :: e in space && e.name == f.name && e.value == f.value
  }

  /** b is a literal field whose name is that of entry i, or spelled out when i is 0. */
  ghost predicate LiteralIs(codes: Huffman.Codes, f: Field, n: nat, i: nat, b: seq<byte>)
    requires |codes| == 256 && 1 <= n <= 7
  {
    match ReadVarInt(n, b)
    case Done(k, rest) =>
      && k == i
      && if i > 0 then StringIs(codes, f.value, rest)
         else exists name, value :: rest == name + value
                && StringIs(codes, f.name, name) && StringIs(codes, f.value, value)
    case _ => false
  }

  /** b represents f (section 6 of RFC 7541): by the first index of a known field; else by a
      literal that is never indexed if f is sensitive, that enters the table if f fits it, and
      that does not otherwise, with the first index of its name where there is one. */
  ghost predicate FieldIs(codes: Huffman.Codes, space: seq<Field>, max: nat, f: Field, b: seq<byte>)
    requires |codes| == 256
  {
    && b != []
    && if Known(space, f) then b[0] >= 128 && exists i: nat :: Exact(space, f, i) && ReadVarInt(7, b) == Done(i, [])
       else
         var enters := !f.sensitive && Size(f) <= max;
         && Marks(b[0], enters, f.sensitive)
         && exists i: nat :: Named(space, f.name, i) && LiteralIs(codes, f, if enters then 6 else 4, i, b)
  }

  lemma SearchChoice(space: seq<Field>, f: Field)
    ensures var (i, both) := Search(space, f);
            && (both <==> Known(space, f))
            && (both ==> Exact(space, f, i))
            && (!both ==> Named(space, f.name, i))
            && i <= |space|
  {
    var exact, named := First(space, f, true), First(space, f, false);
    if exact.Some? { assert space[exact.value] in space; }
  }

  lemma ZeroPrefix(n: nat, b: seq<byte>)
    requires 1 <= n <= 7 && b != [] && b[0] % Pow2(n) == 0 && Pow2(n) > 1
    ensures ReadVarInt(n, b) == Done(0, b[1..])
  {
    hide Pow2;
  }

  lemma NewNameChoice(codes: Huffman.Codes, f: Field, enters: bool)
    requires |codes| == 256 && Fits(f) && !(enters && f.sensitive)
    ensures var b := NewName(codes, f, enters);
            Marks(b[0], enters, f.sensitive) && LiteralIs(codes, f, if enters then 6 else 4, 0, b)
  {
    assert Pow2(4) == 16 && Pow2(6) == 64;
    var name, value := HpackString(codes, f.name), HpackString(codes, f.value);
    FitsParts(f);
    StringChoice(codes, f.name);
    StringChoice(codes, f.value);
    hide HpackString, StringIs, Pow2, ReadVarInt, Fits;
    var b := NewName(codes, f, enters);
    assert b == [TypeByte(enters, f.sensitive)] + name + value;
    hide NewName;
    assert b[1..] == name + value by { Joined([TypeByte(enters, f.sensitive)], name, value); }
    ZeroPrefix(if enters then 6 else 4, b);
  }

  lemma NamedChoice(codes: Huffman.Codes, f: Field, i: nat, enters: bool)
    requires |codes| == 256 && Fits(f) && !(enters && f.sensitive) && 1 <= i < 0x8000_0000_0000_0000
    ensures var b := IndexedName(codes, f, i, enters);
            Marks(b[0], enters, f.sensitive) && LiteralIs(codes, f, if enters then 6 else 4, i, b)
  {
    assert Pow2(4) == 16 && Pow2(6) == 64;
    FitsParts(f);
    StringChoice(codes, f.value);
    var n, flag := if enters then 6 else 4, TypeByte(enters, f.sensitive);
    var value := HpackString(codes, f.value);
    IntegerParses(n, i, flag, value);
    hide HpackString, StringIs, Pow2, VarInt, ReadVarInt;
    assert (VarInt(n, i, flag) + value)[0] == VarInt(n, i, flag)[0];
  }

  /** What WriteField writes behind the pending size updates, and what it enters. */
  lemma FieldChoice(t: Tables, e: Encoder, f: Field)
    requires |t.codes| == 256 && Fits(f) && |t.statics| < 0x1_0000_0000 && Sum(e.ents) <= e.max
    ensures var space, (b, e') := Space(t.statics, e.ents), Representation(t, e, f);
            && FieldIs(t.codes, space, e.max, f, b)
            && e' == if !Known(space, f) && !f.sensitive && Size(f) <= e.max
                     then e.(ents := Evict(e.ents + [f], e.max)) else e
  {
    var space := Space(t.statics, e.ents);
    var (i, both) := Search(space, f);
    SearchChoice(space, f);
    SumBounds(e.ents);
    assert |space| == |t.statics| + |e.ents|;
    hide Search, Space, Known, Exact, Named, LiteralIs, NewName, IndexedName;
    if both {
      Powers();
      IntegerParses(7, i, 0x80, []);
      hide Pow2, VarInt, ReadVarInt;
      assert Indexed(i) + [] == Indexed(i);
    } else if i == 0 {
      NewNameChoice(t.codes, f, ShouldIndex(e, f));
    } else {
      NamedChoice(t.codes, f, i, ShouldIndex(e, f));
    }
  }
}
