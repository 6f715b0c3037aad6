/** The HPACK decoder on bytes of any origin: its table stays within the size that it allows,
    and what it refuses is what the format forbids. */
module HpackDecoder {
  import opened Wrappers
  import opened Base128
  import opened Hpack
  import Huffman
  import HuffmanRoundTrip

  /** The table fits its size, and that is no larger than the decoder allows. */
  predicate Bounded(d: Decoder) {
    Sum(d.ents) <= d.max <= d.allowed
  }

  lemma ParsedStaysBounded(t: Tables, d: Decoder, p: seq<byte>)
    requires Bounded(d) && p != [] && ParseOne(t, d, p).Done?
    ensures var f := ParseOne(t, d, p).value; Bounded(d.(ents := f.ents, max := f.max))
  {
    hide ReadVarInt, ReadString, At, Sum, ParseName;
  }

  lemma {:induction false} ProcessStaysBounded(t: Tables, d: Decoder, p: seq<byte>)
    requires Bounded(d)
    ensures Bounded(Process(t, d, p).decoder) && Process(t, d, p).decoder.allowed == d.allowed
    decreases |p|
  {
    if p != [] && ParseOne(t, d, p).Done? {
      ParsedStaysBounded(t, d, p);
      var f, rest := ParseOne(t, d, p).value, ParseOne(t, d, p).rest;
      hide ParseOne, Bounded;
      ProcessStaysBounded(t, d.(ents := f.ents, max := f.max), rest);
    }
  }

  /** Whatever is written to the decoder, in whatever pieces, its table never takes more than
      the size that was allowed when it was made. */
  lemma {:induction false} TableStaysBounded(t: Tables, max: uint32, pieces: seq<seq<byte>>, d: Decoder)
    requires Writes(t, NewDecoder(max), pieces, d)
    ensures Sum(d.ents) <= d.max <= max
    decreases |pieces|
  {
    WritesStayBounded(t, NewDecoder(max), pieces, d);
  }

  /** The pieces are written one after the other, up to and with the first that is refused. */
  ghost predicate Writes(t: Tables, d: Decoder, pieces: seq<seq<byte>>, d': Decoder)
    decreases |pieces|
  {
    if pieces == [] then d' == d
    else
      var w := Write(t, d, pieces[0]);
      if w.error.Some? then d' == w.decoder else Writes(t, w.decoder, pieces[1..], d')
  }

  lemma {:induction false} WritesStayBounded(t: Tables, d: Decoder, pieces: seq<seq<byte>>, d': Decoder)
    requires Writes(t, d, pieces, d') && Bounded(d)
    ensures Bounded(d') && d'.allowed == d.allowed
    decreases |pieces|
  {
    if pieces != [] {
      ProcessStaysBounded(t, d, d.saved + pieces[0]);
      var w := Write(t, d, pieces[0]);
      hide Process, Bounded;
      if w.error.None? { WritesStayBounded(t, w.decoder, pieces[1..], d'); }
    }
  }

  // ----- what is refused -----

  predicate Means(t: Tables, d: Decoder, i: nat) {
    1 <= i <= |t.statics| + |d.ents|
  }

  /** A size update is refused exactly if it asks for more than is allowed. */
  lemma SizeUpdateTells(t: Tables, d: Decoder, p: seq<byte>)
    requires p != [] && 0x20 <= p[0] < 0x40
    ensures var v, r := ReadVarInt(5, p), ParseOne(t, d, p);
            v.Done? ==> if v.value > d.allowed then r == Bad(SizeTooLarge)
                        else r.Done? && r.rest == v.rest && r.value.max == v.value && r.value.emitted == []
                             && Sum(r.value.ents) <= v.value
  {
    hide ReadVarInt, Sum;
  }

  /** An indexed field is refused exactly if its index means nothing; else the entry that it
      means is emitted, never as a sensitive one, and the table stays as it is. */
  lemma IndexTells(t: Tables, d: Decoder, p: seq<byte>)
    requires p != [] && p[0] >= 0x80
    ensures var v, r := ReadVarInt(7, p), ParseOne(t, d, p);
            v.Done? ==>
              if !Means(t, d, v.value) then r == Bad(InvalidIndex)
              else
                var e := if v.value <= |t.statics| then t.statics[v.value - 1]
                         else d.ents[|d.ents| - (v.value - |t.statics|)];
                r == Done(Effect(d.ents, d.max, [Field(e.name, e.value, false)]), v.rest)
  {
    var v := ReadVarInt(7, p);
    hide ReadVarInt;
    if v.Done? && Means(t, d, v.value) { EntryIs(t, d, v.value); }
  }

  /** The static entries come first, then the dynamic ones from the newest back. */
  lemma EntryIs(t: Tables, d: Decoder, i: nat)
    requires Means(t, d, i)
    ensures At(t.statics, d.ents, i)
            == Some(if i <= |t.statics| then t.statics[i - 1] else d.ents[|d.ents| - (i - |t.statics|)])
  {
  }

  /** A literal: the two top bits say whether it enters the table, the fourth whether it is
      sensitive, and a name by index must mean something. */
  lemma LiteralTells(t: Tables, d: Decoder, p: seq<byte>)
    requires p != [] && (p[0] < 0x20 || 0x40 <= p[0] < 0x80)
    ensures var enters := p[0] >= 0x40;
            var v, r := ReadVarInt(if enters then 6 else 4, p), ParseOne(t, d, p);
            && (v.Done? && v.value > 0 && !Means(t, d, v.value) ==> r == Bad(InvalidIndex))
            && (r.Done? ==>
                  && v.Done? && |r.value.emitted| == 1 && r.value.max == d.max
                  && var f := r.value.emitted[0];
                  && f.sensitive == (0x10 <= p[0] < 0x20)
                  && (v.value > 0 ==> Means(t, d, v.value) && f.name == At(t.statics, d.ents, v.value).value.name)
                  && r.value.ents == if enters then Evict(d.ents + [Field(f.name, f.value, false)], d.max) else d.ents)
  {
    hide ReadVarInt, ReadString, Evict, Space;
  }

  /** A string literal of any origin: its bytes as they are, or the symbols of the codewords at
      their front, if what is left behind these does not run into a nil node. */
  lemma StringTells(t: Tables, p: seq<byte>, s: seq<byte>, r: Huffman.Bits)
    requires ReadVarInt(7, p).Done? && ReadVarInt(7, p).value <= |ReadVarInt(7, p).rest|
    requires Huffman.ValidCodes(t.codes) && Huffman.TrieFor(t.codes, t.trie)
    requires var body := ReadVarInt(7, p).rest[..ReadVarInt(7, p).value];
             p[0] >= 128 ==>
               && Huffman.BytesBits(body) == Huffman.StringBits(t.codes, s) + r
               && HuffmanRoundTrip.Stuck(t.codes, r)
    ensures var n, rest := ReadVarInt(7, p).value, ReadVarInt(7, p).rest;
            ReadString(t, p) == if p[0] < 128 then Done(rest[..n], rest[n..])
                                else if HuffmanRoundTrip.Settles(t.codes, r) then Done(s, rest[n..])
                                else Bad(BadHuffman)
  {
    var n, rest := ReadVarInt(7, p).value, ReadVarInt(7, p).rest;
    hide ReadVarInt, Huffman.TrieFor, HuffmanRoundTrip.Settles, HuffmanRoundTrip.Stuck, Huffman.Decode;
    if p[0] >= 128 { HuffmanRoundTrip.DecodesAny(t.codes, t.trie, rest[..n], s, r); }
  }

  /** Examples C.1.1 to C.1.3 of RFC 7541. */
  lemma IntegerExamples()
    ensures VarInt(5, 10, 0) == [0x0a] && VarInt(5, 1337, 0) == [0x1f, 0x9a, 0x0a]
    ensures ReadVarInt(5, [0x0a]) == Done(10, []) && ReadVarInt(5, [0x1f, 0x9a, 0x0a]) == Done(1337, [])
  {
    assert Pow2(5) == 32;
    assert Encode(1306) == [0x9a, 0x0a];
    var b: seq<byte> := [0x1f, 0x9a, 0x0a];
    assert b[1..] == [0x9a, 0x0a] && b[1..][1..] == [0x0a];
    assert Scan([0x0a]) == Some((10, 1));
    assert Scan(b[1..]) == Some((1306, 2));
  }
}
