/** HPACK (RFC 7541): the dynamic table, the printers of the encoder and the parsers of the
    decoder, as functions of their state and bytes. The static table and the Huffman code
    are parameters. */
module Hpack {
  import opened Wrappers
  import opened Base128
  import Huffman
  import HuffmanRoutines

  const UINT32_MAX: uint32 := 0xffff_ffff
  const INITIAL_TABLE_SIZE: uint32 := 4096

  datatype Field = Field(name: seq<byte>, value: seq<byte>, sensitive: bool)

  /** The constant tables: static entries, Huffman codes and the decoding trie. */
  datatype Tables = Tables(statics: seq<Field>, codes: Huffman.Codes, trie: Huffman.Trie)

  ghost predicate GoodTables(t: Tables) {
    && Huffman.GoodCodes(t.codes)
    && Huffman.TrieFor(t.codes, t.trie)
    && |t.statics| < 0x1_0000_0000
    && forall f :: f in t.statics ==> !f.sensitive
  }

  // ----- the dynamic table -----

  function Size(f: Field): nat {
    |f.name| + |f.value| + 32
  }

  /** A field whose size fits the 32 bits that the table counts with. */
  predicate Fits(f: Field) {
    Size(f) < 0x1_0000_0000
  }

  function Sum(ents: seq<Field>): nat {
    if ents == [] then 0 else Size(ents[0]) + Sum(ents[1..])
  }

  /** Oldest entries first: they go until the rest fits. */
  function Evict(ents: seq<Field>, max: nat): (r: seq<Field>)
    ensures Sum(r) <= max
  {
    if Sum(ents) <= max then ents else Evict(ents[1..], max)
  }

  function Reversed(s: seq<Field>): (r: seq<Field>)
    ensures |r| == |s| && forall i :: 0 <= i < |r| ==> r[i] == s[|s| - 1 - i]
  {
    seq(|s|, i requires 0 <= i < |s| => s[|s| - 1 - i])
  }

  /** The index address space of section 2.3.3: static entries, then the newest first. */
  function Space(statics: seq<Field>, ents: seq<Field>): seq<Field> {
    statics + Reversed(ents)
  }

  function At(statics: seq<Field>, ents: seq<Field>, i: nat): Option<Field> {
    if 1 <= i <= |statics| + |ents| then Some(Space(statics, ents)[i - 1]) else None
  }

  function SameName(e: Field, f: Field): bool {
    e.name == f.name
  }

  function SameBoth(e: Field, f: Field): bool {
    e.name == f.name && e.value == f.value
  }

  /** The position of the first entry with f's name, or with name and value too. */
  function First(space: seq<Field>, f: Field, both: bool): (r: Option<nat>)
    ensures r.Some? ==> r.value < |space|
    ensures r.Some? ==> if both then SameBoth(space[r.value], f) else SameName(space[r.value], f)
    ensures r.Some? ==> forall i :: 0 <= i < r.value ==>
              !(if both then SameBoth(space[i], f) else SameName(space[i], f))
    ensures r.None? ==> forall e :: e in space ==> !(if both then SameBoth(e, f) else SameName(e, f))
  {
    if space == [] then None
    else if (if both then SameBoth(space[0], f) else SameName(space[0], f)) then Some(0)
    else
      var r := First(space[1..], f, both);
      if r.None? then None else Some(r.value + 1)
  }

  /** searchTable: an index, 0 for none, and whether name and value both match. A sensitive
      field is never matched by value. */
  function Search(space: seq<Field>, f: Field): (nat, bool) {
    var exact, named := First(space, f, true), First(space, f, false);
    if !f.sensitive && exact.Some? then (exact.value + 1, true)
    else if named.Some? then (named.value + 1, false)
    else (0, false)
  }

  // ----- printing -----

  /** An integer with an n-bit prefix (section 5.1), its first byte marked with `flag`. */
  function VarInt(n: nat, i: nat, flag: nat): (b: seq<byte>)
    requires 1 <= n <= 7 && flag % Pow2(n) == 0 && flag + Pow2(n) <= 256
    ensures b != []
  {
    var k := Pow2(n) - 1;
    if i < k then [flag + i] else [flag + k] + Encode(i - k)
  }

  /** A string literal (section 5.2): Huffman coded only when that is strictly shorter. */
  function HpackString(codes: Huffman.Codes, s: seq<byte>): seq<byte>
    requires |codes| == 256
  {
    Powers();
    var h := HuffmanRoutines.EncodeString(codes, s);
    if |h| < |s| then VarInt(7, |h|, 0x80) + h else VarInt(7, |s|, 0) + s
  }

  function TypeByte(indexing: bool, sensitive: bool): nat {
    if sensitive then 0x10 else if indexing then 0x40 else 0
  }

  function Indexed(i: nat): seq<byte> {
    Powers();
    VarInt(7, i, 0x80)
  }

  function NewName(codes: Huffman.Codes, f: Field, indexing: bool): (b: seq<byte>)
    requires |codes| == 256
    ensures b != [] && b[0] == TypeByte(indexing, f.sensitive)
  {
    [TypeByte(indexing, f.sensitive)] + HpackString(codes, f.name) + HpackString(codes, f.value)
  }

  function IndexedName(codes: Huffman.Codes, f: Field, i: nat, indexing: bool): (b: seq<byte>)
    requires |codes| == 256 && !(indexing && f.sensitive)
    ensures b != []
  {
    assert Pow2(4) == 16 && Pow2(6) == 64;
    VarInt(if indexing then 6 else 4, i, TypeByte(indexing, f.sensitive)) + HpackString(codes, f.value)
  }

  function TableSize(v: nat): seq<byte> {
    assert Pow2(5) == 32;
    VarInt(5, v, 0x20)
  }

  // ----- the encoder -----

  datatype Encoder = Encoder(ents: seq<Field>, max: uint32, minSize: uint32, limit: uint32, update: bool)

  const NEW_ENCODER := Encoder([], INITIAL_TABLE_SIZE, UINT32_MAX, INITIAL_TABLE_SIZE, false)

  function SetMax(e: Encoder, v: uint32): Encoder {
    var v' := if v > e.limit then e.limit else v;
    e.(ents := Evict(e.ents, v'), max := v', minSize := if v' < e.minSize then v' else e.minSize, update := true)
  }

  function SetLimit(e: Encoder, v: uint32): Encoder {
    if e.max > v then e.(ents := Evict(e.ents, v), max := v, limit := v, update := true) else e.(limit := v)
  }

  function ShouldIndex(e: Encoder, f: Field): bool {
    !f.sensitive && Size(f) <= e.max
  }

  /** The size updates that are due, and the encoder once they are written. */
  function Updates(e: Encoder): (seq<byte>, Encoder) {
    if !e.update then ([], e)
    else
      ((if e.minSize < e.max then TableSize(e.minSize) else []) + TableSize(e.max),
       e.(update := false, minSize := UINT32_MAX))
  }

  function Representation(t: Tables, e: Encoder, f: Field): (r: (seq<byte>, Encoder))
    requires |t.codes| == 256
    ensures r.0 != []
  {
    var (idx, both) := Search(Space(t.statics, e.ents), f);
    if both then (Indexed(idx), e)
    else
      var indexing := ShouldIndex(e, f);
      var e' := if indexing then e.(ents := Evict(e.ents + [f], e.max)) else e;
      (if idx == 0 then NewName(t.codes, f, indexing) else IndexedName(t.codes, f, idx, indexing), e')
  }

  function WriteField(t: Tables, e: Encoder, f: Field): (seq<byte>, Encoder)
    requires |t.codes| == 256
  {
    var (b, e1) := Updates(e);
    var (c, e2) := Representation(t, e1, f);
    (b + c, e2)
  }

  // ----- the decoder -----

  datatype Error = InvalidIndex | SizeTooLarge | Overflow | BadHuffman

  /** NeedMore: the bytes end before the item does. */
  datatype Parse<+T> = Done(value: T, rest: seq<byte>) | NeedMore | Bad(error: Error)

  function ReadVarInt(n: nat, p: seq<byte>): (r: Parse<nat>)
    requires 1 <= n <= 7
    ensures r.Done? ==> |r.rest| < |p|
  {
    if p == [] then NeedMore
    else
      var k := Pow2(n) - 1;
      var i := p[0] % Pow2(n);
      if i < k then Done(i, p[1..])
      else
        match Scan(p[1..])
        case Some((v, c)) => if c <= 9 then Done(k + v, p[1 + c..]) else Bad(Overflow)
        case None => if |p| - 1 >= 9 then Bad(Overflow) else NeedMore
  }

  function ReadString(t: Tables, p: seq<byte>): (r: Parse<seq<byte>>)
    ensures r.Done? ==> |r.rest| < |p|
  {
    match ReadVarInt(7, p)
    case NeedMore => NeedMore
    case Bad(e) => Bad(e)
    case Done(len, rest) =>
      if |rest| < len then NeedMore
      else if p[0] < 128 then Done(rest[..len], rest[len..])
      else
        match Huffman.Decode(t.trie, rest[..len])
        case None => Bad(BadHuffman)
        case Some(s) => Done(s, rest[len..])
  }

  datatype Decoder = Decoder(ents: seq<Field>, max: uint32, allowed: uint32, saved: seq<byte>)

  function NewDecoder(max: uint32): Decoder {
    Decoder([], max, max, [])
  }

  /** What one representation does: the table's new content and size, and what is emitted. */
  datatype Effect = Effect(ents: seq<Field>, max: uint32, emitted: seq<Field>)

  function ParseIndexed(t: Tables, d: Decoder, p: seq<byte>): (r: Parse<Effect>)
    ensures r.Done? ==> |r.rest| < |p|
  {
    match ReadVarInt(7, p)
    case NeedMore => NeedMore
    case Bad(e) => Bad(e)
    case Done(i, rest) =>
      match At(t.statics, d.ents, i)
      case None => Bad(InvalidIndex)
      case Some(f) => Done(Effect(d.ents, d.max, [Field(f.name, f.value, false)]), rest)
  }

  /** The name of a literal: by index, or spelled out. */
  function ParseName(t: Tables, d: Decoder, n: nat, p: seq<byte>): (r: Parse<seq<byte>>)
    requires 1 <= n <= 7
    ensures r.Done? ==> |r.rest| < |p|
  {
    match ReadVarInt(n, p)
    case NeedMore => NeedMore
    case Bad(e) => Bad(e)
    case Done(i, rest) =>
      if i > 0 then
        match At(t.statics, d.ents, i)
        case None => Bad(InvalidIndex)
        case Some(f) => Done(f.name, rest)
      else ReadString(t, rest)
  }

  function ParseLiteral(t: Tables, d: Decoder, n: nat, indexed: bool, sensitive: bool, p: seq<byte>): (r: Parse<Effect>)
    requires 1 <= n <= 7
    ensures r.Done? ==> |r.rest| < |p|
  {
    match ParseName(t, d, n, p)
    case NeedMore => NeedMore
    case Bad(e) => Bad(e)
    case Done(name, rest) =>
      match ReadString(t, rest)
      case NeedMore => NeedMore
      case Bad(e) => Bad(e)
      case Done(value, rest') =>
        var ents := if indexed then Evict(d.ents + [Field(name, value, false)], d.max) else d.ents;
        Done(Effect(ents, d.max, [Field(name, value, sensitive)]), rest')
  }

  function ParseSize(d: Decoder, p: seq<byte>): (r: Parse<Effect>)
    ensures r.Done? ==> |r.rest| < |p|
  {
    match ReadVarInt(5, p)
    case NeedMore => NeedMore
    case Bad(e) => Bad(e)
    case Done(v, rest) =>
      if v > d.allowed then Bad(SizeTooLarge) else Done(Effect(Evict(d.ents, v), v, []), rest)
  }

  /** One representation, by the top bits of its first byte (section 6). */
  function ParseOne(t: Tables, d: Decoder, p: seq<byte>): (r: Parse<Effect>)
    requires p != []
    ensures r.Done? ==> |r.rest| < |p|
  {
    var b := p[0];
    if b >= 128 then ParseIndexed(t, d, p)
    else if b >= 64 then ParseLiteral(t, d, 6, true, false, p)
    else if b < 16 then ParseLiteral(t, d, 4, false, false, p)
    else if b < 32 then ParseLiteral(t, d, 4, false, true, p)
    else ParseSize(d, p)
  }

  /** What a call of Write leaves behind: the decoder, what was emitted, the error. */
  datatype Written = Written(decoder: Decoder, emitted: seq<Field>, error: Option<Error>)

  function Also(emitted: seq<Field>, w: Written): Written {
    w.(emitted := emitted + w.emitted)
  }

  /** The loop of Write over the bytes at hand. */
  function Process(t: Tables, d: Decoder, p: seq<byte>): Written
    decreases |p|
  {
    if p == [] then Written(d.(saved := []), [], None)
    else
      match ParseOne(t, d, p)
      case NeedMore => Written(d.(saved := p), [], None)
      case Bad(e) => Written(d.(saved := []), [], Some(e))
      case Done(f, rest) => Also(f.emitted, Process(t, d.(ents := f.ents, max := f.max), rest))
  }

  function Write(t: Tables, d: Decoder, p: seq<byte>): Written {
    if p == [] then Written(d, [], None) else Process(t, d, d.saved + p)
  }
}
