/** Which bytes are a Snappy block, and of what: the format as a relation, and the decoder as
    its exact reading, on every input and into every buffer. */
module SnappyFormat {
  import opened Wrappers
  import opened Base128
  import opened Snappy
  import opened SnappyRoundTrip

  /** New bytes, or some of those already there. */
  datatype Element = Fresh(bytes: seq<byte>) | Back(offset: nat, length: nat)

  function Little(b: seq<byte>): nat {
    if b == [] then 0 else b[0] + 256 * Little(b[1..])
  }

  /** b spells the element. The low two bits of its first byte tell the kind. 0: a literal whose
      length minus one is in the upper six bits, or in one to four bytes if these are 60 to 63.
      1: a copy of 4 to 11 bytes with 11 bits of offset. 2: one of 1 to 64 with 16. */
  predicate Spells(b: seq<byte>, e: Element) {
    && b != []
    && match e
       case Fresh(bytes) =>
         var m := b[0] / 4;
         var t := if m < 60 then 1 else m - 58;
         && b[0] % 4 == 0 && t <= |b| && b[t..] == bytes
         && |bytes| == 1 + if m < 60 then m else Little(b[1..t])
       case Back(offset, length) =>
         || (|b| == 2 && b[0] % 4 == 1
             && length == 4 + b[0] / 4 % 8 && offset == b[1] as int + (b[0] / 32) as int * 256)
         || (|b| == 3 && b[0] % 4 == 2 && length == 1 + b[0] / 4 && offset == Little(b[1..]))
  }

  /** A copy byte by byte, so that it may repeat what it has just written; an offset of zero
      keeps what the buffer holds there. */
  function Repeat(buf: seq<byte>, text: seq<byte>, offset: nat, length: nat): (r: seq<byte>)
    requires offset <= |text| && |text| + length <= |buf|
    ensures |r| == |text| + length
    decreases length
  {
    if length == 0 then text
    else Repeat(buf, text + [if offset == 0 then buf[|text|] else text[|text| - offset]], offset, length - 1)
  }

  predicate Legal(buf: seq<byte>, text: seq<byte>, e: Element) {
    match e
    case Fresh(bytes) => |text| + |bytes| <= |buf|
    case Back(offset, length) => offset <= |text| && |text| + length <= |buf|
  }

  function Extended(buf: seq<byte>, text: seq<byte>, e: Element): (r: seq<byte>)
    requires Legal(buf, text, e)
    ensures |r| <= |buf|
  {
    match e
    case Fresh(bytes) => text + bytes
    case Back(offset, length) => Repeat(buf, text, offset, length)
  }

  /** b spells elements that lead from text to out. */
  ghost predicate Reads(b: seq<byte>, buf: seq<byte>, text: seq<byte>, out: seq<byte>)
    decreases |b|
  {
    if b == [] then text == out
    else
      exists n: nat, e :: 0 < n <= |b| && Spells(b[..n], e) && Legal(buf, text, e)
        && Reads(b[n..], buf, Extended(buf, text, e), out)
  }

  // ----- one chunk -----

  lemma LittleIs(b: seq<byte>)
    ensures |b| == 1 ==> Little(b) == b[0]
    ensures |b| == 2 ==> Little(b) == Word(b[0], b[1], 0, 0)
    ensures |b| == 3 ==> Little(b) == Word(b[0], b[1], b[2], 0)
    ensures |b| == 4 ==> Little(b) == Word(b[0], b[1], b[2], b[3])
  {
    if |b| == 4 {
      assert Little(b[3..]) == b[3] && Little(b[2..]) == b[2] + 256 * Little(b[3..]);
      assert b[1..][1..] == b[2..] && b[2..][1..] == b[3..];
      assert Little(b[1..]) == b[1] + 256 * Little(b[2..]);
    } else if |b| == 3 {
      assert Little(b[2..]) == b[2] && b[1..][1..] == b[2..];
      assert Little(b[1..]) == b[1] + 256 * Little(b[2..]);
    } else if |b| == 2 {
      assert Little(b[1..]) == b[1];
    }
  }

  /** The element at the front of b and its size. */
  function Front(b: seq<byte>): (r: Option<(nat, Element)>)
    requires b != []
    ensures r.Some? ==> 0 < r.value.0 <= |b|
  {
    if b[0] % 4 == 0 then
      match LiteralLength(b)
      case None => None
      case Some((t, x)) => if t + x + 1 > |b| then None else Some((t + x + 1, Fresh(b[t..t + x + 1])))
    else
      match CopyTag(b)
      case Err(_) => None
      case Ok((t, offset, length)) => Some((t, Back(offset, length)))
  }

  lemma LiteralSpelled(b: seq<byte>)
    requires b != [] && b[0] % 4 == 0
    ensures var m := b[0] / 4;
            var t := if m < 60 then 1 else m - 58;
            LiteralLength(b) == if |b| < t then None else Some((t, if m < 60 then m else Little(b[1..t])))
  {
    var m := b[0] / 4;
    if m >= 60 && |b| >= m - 58 {
      var l := b[1..m - 58];
      LittleIs(l);
      hide Word, Little;
      assert forall i :: 0 <= i < |l| ==> l[i] == b[i + 1];
    }
  }

  lemma FrontSpells(b: seq<byte>)
    requires b != [] && Front(b).Some?
    ensures Spells(b[..Front(b).value.0], Front(b).value.1)
  {
    var (n, e) := Front(b).value;
    var c := b[..n];
    if b[0] % 4 == 0 {
      LiteralSpelled(b);
      hide LiteralLength;
      var m := b[0] / 4;
      var t := if m < 60 then 1 else m - 58;
      assert c[t..] == b[t..n] && c[1..t] == b[1..t];
    } else if b[0] % 4 == 2 {
      LittleIs(c[1..]);
    }
  }

  /** Nothing else is spelled at the front of b. */
  lemma SpellsFront(b: seq<byte>, n: nat, e: Element)
    requires 0 < n <= |b| && Spells(b[..n], e)
    ensures Front(b) == Some((n, e))
  {
    var c := b[..n];
    assert c[0] == b[0];
    if b[0] % 4 == 0 {
      LiteralSpelled(b);
      hide LiteralLength, Little;
      var m := b[0] / 4;
      var t := if m < 60 then 1 else m - 58;
      assert c[t..] == b[t..n] && c[1..t] == b[1..t];
    } else if b[0] % 4 == 2 {
      LittleIs(c[1..]);
      assert c[1..][0] == b[1] && c[1..][1] == b[2];
    }
  }

  lemma {:induction false} OverlapRepeats(buf: seq<byte>, text: seq<byte>, offset: nat, length: nat)
    requires offset <= |text| && |text| + length <= |buf|
    ensures Overlap(Filled(buf, text), |text|, offset, length) == Filled(buf, Repeat(buf, text, offset, length))
    decreases length
  {
    if length > 0 {
      var dst, d := Filled(buf, text), |text|;
      var more := text + [if offset == 0 then buf[d] else text[d - offset]];
      assert dst[d := dst[d - offset]] == Filled(buf, more);
      OverlapRepeats(buf, more, offset, length - 1);
    }
  }

  /** A chunk is decoded exactly if an element is spelled there that is legal. */
  lemma ChunkIs(b: seq<byte>, buf: seq<byte>, text: seq<byte>)
    requires b != [] && |text| <= |buf|
    ensures var r := Chunk(b, Filled(buf, text), |text|);
            if Front(b).Some? && Legal(buf, text, Front(b).value.1) then
              var out := Extended(buf, text, Front(b).value.1);
              r == Ok((Front(b).value.0, Filled(buf, out), |out|))
            else r.Err?
  {
    if Front(b).Some? && Legal(buf, text, Front(b).value.1) {
      var (n, e) := Front(b).value;
      match e
      case Fresh(bytes) =>
        var dst := Filled(buf, text);
        assert dst[..|text|] + bytes + dst[|text| + |bytes|..] == Filled(buf, text + bytes);
      case Back(offset, length) => OverlapRepeats(buf, text, offset, length);
    }
  }

  // ----- all chunks -----

  lemma {:induction false} ReadsDecode(b: seq<byte>, buf: seq<byte>, text: seq<byte>, out: seq<byte>)
    requires Reads(b, buf, text, out) && |text| <= |buf|
    ensures |out| <= |buf| && Chunks(b, Filled(buf, text), |text|) == Ok((Filled(buf, out), |out|))
    decreases |b|
  {
    if b != [] {
      var n: nat, e :| 0 < n <= |b| && Spells(b[..n], e) && Legal(buf, text, e)
        && Reads(b[n..], buf, Extended(buf, text, e), out);
      SpellsFront(b, n, e);
      ChunkIs(b, buf, text);
      hide Spells, Chunk, Filled, Front, Extended;
      ReadsDecode(b[n..], buf, Extended(buf, text, e), out);
    }
  }

  lemma {:induction false} DecodeReads(b: seq<byte>, buf: seq<byte>, text: seq<byte>) returns (out: seq<byte>)
    requires |text| <= |buf| && Chunks(b, Filled(buf, text), |text|).Ok?
    ensures |out| <= |buf| && Chunks(b, Filled(buf, text), |text|) == Ok((Filled(buf, out), |out|))
    ensures Reads(b, buf, text, out)
    decreases |b|
  {
    if b == [] {
      out := text;
    } else {
      ChunkIs(b, buf, text);
      FrontSpells(b);
      var (n, e) := Front(b).value;
      hide Spells, Chunk, Filled, Front, Extended;
      out := DecodeReads(b[n..], buf, Extended(buf, text, e));
    }
  }

  // ----- blocks -----

  /** What decoding starts from: the caller's buffer if it is large enough, else zeros. */
  function Start(buffer: seq<byte>, n: nat): seq<byte> {
    if |buffer| < n then Zeros(n) else buffer
  }

  /** src is a block that stands for out: a length of at most ten bytes, in any spelling, and
      elements that make up out. */
  ghost predicate IsBlock(buffer: seq<byte>, src: seq<byte>, out: seq<byte>) {
    exists n: nat :: n <= |src| && n <= 10 && |out| < 0x8000_0000_0000_0000
      && Scan(src[..n]) == Some((|out|, n)) && Reads(src[n..], Start(buffer, |out|), [], out)
  }

  lemma {:induction false} ScanPrefix(b: seq<byte>, n: nat)
    requires n <= |b|
    ensures Scan(b[..n]).Some? ==> Scan(b) == Scan(b[..n])
    ensures Scan(b).Some? && Scan(b).value.1 <= n ==> Scan(b[..n]) == Scan(b)
    decreases n
  {
    if n > 0 && b[0] >= 128 {
      assert b[..n][1..] == b[1..][..n - 1];
      ScanPrefix(b[1..], n - 1);
    }
  }

  lemma TopGroup(b0: nat, v: nat, top: nat, p: nat)
    requires b0 < 128 && top * p <= v < (top + 1) * p
    ensures top * (128 * p) <= b0 + 128 * v < (top + 1) * (128 * p)
  {
    assert top * (128 * p) == 128 * (top * p);
    assert (top + 1) * (128 * p) == 128 * ((top + 1) * p);
  }

  /** The last of the groups is the most significant. */
  lemma {:induction false} LastGroup(b: seq<byte>)
    requires Scan(b).Some?
    ensures var (v, n) := Scan(b).value;
            b[n - 1] < 128 && b[n - 1] * Pow2(7 * (n - 1)) <= v < (b[n - 1] + 1) * Pow2(7 * (n - 1))
    decreases |b|
  {
    if b[0] >= 128 {
      LastGroup(b[1..]);
      var (v, n) := Scan(b[1..]).value;
      Pow2Seven(n);
      TopGroup(b[0] - 128, v, b[n], Pow2(7 * (n - 1)));
    }
  }

  lemma Times(a: nat, b: nat, p: nat)
    requires a <= b
    ensures a * p <= b * p
  {
  }

  lemma ShortGroups(top: nat, n: nat)
    requires n > 0 && top < 128
    ensures n < 10 ==> (top + 1) * Pow2(7 * (n - 1)) <= Pow2(63)
  {
    if n < 10 {
      Powers();
      hide Pow2;
      Pow2Seven(n);
      Pow2Monotone(7 * n, 63);
      Times(top + 1, 128, Pow2(7 * (n - 1)));
    }
  }

  lemma HeaderIs(src: seq<byte>)
    ensures var r := DecodedLen(src);
            && (r.Ok? && r.value.0 >= 0 ==>
                  && r.value.0 < 0x8000_0000_0000_0000 && 0 < r.value.1 <= 10 && r.value.1 <= |src|
                  && Scan(src[..r.value.1]) == Some((r.value.0, r.value.1)))
    ensures forall n: nat, v: nat ::
              n <= |src| && n <= 10 && v < 0x8000_0000_0000_0000 && Scan(src[..n]) == Some((v, n)) ==>
                DecodedLen(src) == Ok((v, n))
  {
    Powers();
    hide Pow2;
    if Scan(src).Some? {
      ScanPrefix(src, Scan(src).value.1);
      LastGroup(src);
      ShortGroups(src[Scan(src).value.1 - 1], Scan(src).value.1);
    }
    forall n: nat, v: nat
      | n <= |src| && n <= 10 && v < 0x8000_0000_0000_0000 && Scan(src[..n]) == Some((v, n))
      ensures DecodedLen(src) == Ok((v, n))
    {
      ScanPrefix(src, n);
    }
  }

  /** Decode succeeds with out exactly on the blocks that stand for out, malformed input and
      blocks that no encoder writes included. */
  lemma DecodesExactly(buffer: seq<byte>, src: seq<byte>, out: seq<byte>)
    ensures Decode(buffer, src) == Ok(out) <==> IsBlock(buffer, src, out)
  {
    HeaderIs(src);
    hide DecodedLen, Scan;
    if Decode(buffer, src) == Ok(out) {
      var (v, n) := DecodedLen(src).value;
      var buf := Start(buffer, v);
      assert Filled(buf, []) == buf;
      var t := DecodeReads(src[n..], buf, []);
      assert Filled(buf, t)[..|t|] == t;
    }
    if IsBlock(buffer, src, out) {
      var n: nat :| n <= |src| && n <= 10 && Scan(src[..n]) == Some((|out|, n))
        && Reads(src[n..], Start(buffer, |out|), [], out);
      var buf := Start(buffer, |out|);
      assert Filled(buf, []) == buf;
      ReadsDecode(src[n..], buf, [], out);
      assert Filled(buf, out)[..|out|] == out;
    }
  }

  // ----- what the encoder spends -----

  /** A copy takes three bytes for every 64, and two for a remainder of four to eleven bytes
      from near by; a literal's tag takes no more bytes than its length needs. */
  lemma {:induction false} CopyLength(offset: nat, length: nat)
    requires offset < 0x8000
    ensures var rest := length % 64;
            |CopyChunks(offset, length)|
            == 3 * (length / 64) + if rest == 0 then 0 else if 4 <= rest < 12 && offset < 0x800 then 2 else 3
    decreases length
  {
    if length > 64 {
      CopyLength(offset, length - 64);
      assert (length - 64) % 64 == length % 64 && (length - 64) / 64 == length / 64 - 1;
    } else if length > 0 {
      assert CopyChunks(offset, 0) == [];
    }
  }

  lemma TagLength(n: nat)
    requires n < 0x1_0000_0000
    ensures |LiteralTag(n)| == if n < 60 then 1 else if n < 0x100 then 2 else if n < 0x1_0000 then 3
                               else if n < 0x100_0000 then 4 else 5
  {
  }

  // ----- the caller's buffer -----

  /** No copy of b has an offset of zero. */
  predicate NoZeroOffset(b: seq<byte>)
    decreases |b|
  {
    b == []
    || match Front(b)
       case None => true
       case Some((n, e)) => (e.Back? ==> e.offset > 0) && NoZeroOffset(b[n..])
  }

  lemma {:induction false} RepeatExtends(buf: seq<byte>, text: seq<byte>, offset: nat, length: nat)
    requires offset <= |text| && |text| + length <= |buf|
    ensures Repeat(buf, text, offset, length)[..|text|] == text
    ensures offset == 0 < length ==> Repeat(buf, text, offset, length)[|text|] == buf[|text|]
    decreases length
  {
    if length > 0 {
      var more := text + [if offset == 0 then buf[|text|] else text[|text| - offset]];
      RepeatExtends(buf, more, offset, length - 1);
      var r := Repeat(buf, more, offset, length - 1);
      assert r[..|text|] == r[..|more|][..|text|];
      assert r[|text|] == r[..|more|][|text|];
    }
  }

  lemma OneExtends(buf: seq<byte>, text: seq<byte>, e: Element)
    requires Legal(buf, text, e)
    ensures |text| <= |Extended(buf, text, e)| && Extended(buf, text, e)[..|text|] == text
  {
    if e.Back? { RepeatExtends(buf, text, e.offset, e.length); }
  }

  lemma {:induction false} ReadsExtends(b: seq<byte>, buf: seq<byte>, text: seq<byte>, out: seq<byte>)
    requires Reads(b, buf, text, out)
    ensures |text| <= |out| && out[..|text|] == text
    decreases |b|
  {
    if b != [] {
      var n: nat, e :| 0 < n <= |b| && Spells(b[..n], e) && Legal(buf, text, e)
        && Reads(b[n..], buf, Extended(buf, text, e), out);
      var more := Extended(buf, text, e);
      OneExtends(buf, text, e);
      hide Spells, Legal, Extended;
      ReadsExtends(b[n..], buf, more, out);
      assert out[..|text|] == out[..|more|][..|text|];
    }
  }

  lemma {:induction false} RepeatSame(buf: seq<byte>, buf': seq<byte>, text: seq<byte>, offset: nat, length: nat)
    requires 0 < offset <= |text| && |text| + length <= |buf| && |text| + length <= |buf'|
    ensures Repeat(buf, text, offset, length) == Repeat(buf', text, offset, length)
    decreases length
  {
    if length > 0 { RepeatSame(buf, buf', text + [text[|text| - offset]], offset, length - 1); }
  }

  /** Another buffer that is large enough: the block is read again, to a text of the same
      length, and to the same text if no copy shows what the buffer holds. */
  lemma {:induction false} ReadsAgain(b: seq<byte>, buf: seq<byte>, text: seq<byte>, out: seq<byte>,
                                      buf': seq<byte>, text': seq<byte>) returns (out': seq<byte>)
    requires Reads(b, buf, text, out) && |out| <= |buf'| && |text'| == |text|
    ensures Reads(b, buf', text', out') && |out'| == |out|
    ensures NoZeroOffset(b) && text' == text ==> out' == out
    decreases |b|
  {
    if b == [] {
      out' := text';
    } else {
      var n: nat, e :| 0 < n <= |b| && Spells(b[..n], e) && Legal(buf, text, e)
        && Reads(b[n..], buf, Extended(buf, text, e), out);
      SpellsFront(b, n, e);
      ReadsExtends(b[n..], buf, Extended(buf, text, e), out);
      assert Legal(buf', text', e);
      if e.Back? && e.offset > 0 && text' == text { RepeatSame(buf, buf', text, e.offset, e.length); }
      hide Spells, Front, Repeat;
      out' := ReadsAgain(b[n..], buf, Extended(buf, text, e), out, buf', Extended(buf', text', e));
    }
  }

  /** A copy with offset zero shows the first of the bytes that it keeps. */
  lemma {:induction false} ZeroShows(b: seq<byte>, buf: seq<byte>, text: seq<byte>, out: seq<byte>,
                                     buf': seq<byte>, text': seq<byte>, out': seq<byte>)
    requires Reads(b, buf, text, out) && Reads(b, buf', text', out') && |text| == |text'| && !NoZeroOffset(b)
    requires forall i :: 0 <= i < |buf| && i < |buf'| ==> buf[i] != buf'[i]
    ensures out != out'
    decreases |b|
  {
    var n: nat, e :| 0 < n <= |b| && Spells(b[..n], e) && Legal(buf, text, e)
      && Reads(b[n..], buf, Extended(buf, text, e), out);
    var n': nat, e' :| 0 < n' <= |b| && Spells(b[..n'], e') && Legal(buf', text', e')
      && Reads(b[n'..], buf', Extended(buf', text', e'), out');
    SpellsFront(b, n, e);
    SpellsFront(b, n', e');
    var more, more' := Extended(buf, text, e), Extended(buf', text', e);
    if e.Back? && e.offset == 0 {
      RepeatExtends(buf, text, 0, e.length);
      RepeatExtends(buf', text', 0, e.length);
      ReadsExtends(b[n..], buf, more, out);
      ReadsExtends(b[n..], buf', more', out');
      assert out[..|more|][|text|] != out'[..|more'|][|text|];
    } else {
      ZeroShows(b[n..], buf, more, out, buf', more', out');
    }
  }

  function Ones(n: nat): (b: seq<byte>)
    ensures |b| == n
  {
    seq(n, _ => 1)
  }

  /** The chunks behind the length of a block that decodes. */
  function Body(src: seq<byte>): seq<byte>
    requires Decode([], src).Ok?
  {
    UvarintRead(src);
    src[DecodedLen(src).value.1..]
  }

  lemma BodyReads(buffer: seq<byte>, src: seq<byte>)
    requires Decode(buffer, src).Ok? && Decode([], src).Ok?
    ensures var out := Decode(buffer, src).value; Reads(Body(src), Start(buffer, |out|), [], out)
  {
    var out := Decode(buffer, src).value;
    DecodesExactly(buffer, src, out);
    HeaderIs(src);
    hide DecodedLen, Decode, Scan;
  }

  /** Whether a block decodes, and to how many bytes, does not depend on the buffer. */
  lemma DecodesAnywhere(buffer: seq<byte>, buffer': seq<byte>, src: seq<byte>)
    requires Decode(buffer, src).Ok?
    ensures Decode(buffer', src).Ok? && |Decode(buffer', src).value| == |Decode(buffer, src).value|
  {
    var out := Decode(buffer, src).value;
    DecodesExactly(buffer, src, out);
    var n: nat :| n <= |src| && n <= 10 && Scan(src[..n]) == Some((|out|, n))
      && Reads(src[n..], Start(buffer, |out|), [], out);
    hide Decode, Scan;
    var out' := ReadsAgain(src[n..], Start(buffer, |out|), [], out, Start(buffer', |out|), []);
    DecodesExactly(buffer', src, out');
  }

  /** What a block decodes to is the same for every buffer if and only if none of its copies
      has an offset of zero. The encoder writes none; the decoder does not refuse them. */
  lemma BufferShows(src: seq<byte>)
    requires Decode([], src).Ok?
    ensures (forall buffer: seq<byte> :: Decode(buffer, src) == Decode([], src)) <==> NoZeroOffset(Body(src))
  {
    var out := Decode([], src).value;
    BodyReads([], src);
    hide Decode, NoZeroOffset, Reads;
    if NoZeroOffset(Body(src)) {
      forall buffer: seq<byte>
        ensures Decode(buffer, src) == Decode([], src)
      {
        DecodesAnywhere([], buffer, src);
        BodyReads(buffer, src);
        var out' := ReadsAgain(Body(src), Start([], |out|), [], out, Start(buffer, |out|), []);
        ReadsOnce(Body(src), Start(buffer, |out|), [], out', Decode(buffer, src).value);
      }
    } else {
      var buffer := Ones(|out|);
      DecodesAnywhere([], buffer, src);
      BodyReads(buffer, src);
      ZeroShows(Body(src), Start([], |out|), [], out, buffer, [], Decode(buffer, src).value);
    }
  }

  lemma FourDecoded(buffer: seq<byte>, buf: seq<byte>)
    requires |buf| == 4 && Start(buffer, 4) == buf
    ensures Decode(buffer, [4, 1, 0]) == Ok(buf)
  {
    var src: seq<byte>, n: nat := [4, 1, 0], 1;
    assert Scan(src[..n]) == Some((4, n)) && src[n..] == [1, 0];
    FourKept(buf);
    hide Decode, Reads, Scan;
    DecodesExactly(buffer, src, buf);
  }

  /** Four bytes, by a copy of four from offset zero at the very start. */
  lemma ZeroOffsetExample()
    ensures Decode([], [4, 1, 0]) == Ok([0, 0, 0, 0])
    ensures Decode([7, 7, 7, 7], [4, 1, 0]) == Ok([7, 7, 7, 7])
  {
    assert Zeros(4) == [0, 0, 0, 0];
    hide Decode;
    FourDecoded([], [0, 0, 0, 0]);
    FourDecoded([7, 7, 7, 7], [7, 7, 7, 7]);
  }

  lemma {:induction false} AllKept(buf: seq<byte>, k: nat)
    requires k <= |buf|
    ensures Repeat(buf, buf[..k], 0, |buf| - k) == buf
    decreases |buf| - k
  {
    if k == |buf| {
      assert buf[..k] == buf;
    } else {
      assert buf[..k] + [buf[k]] == buf[..k + 1];
      AllKept(buf, k + 1);
    }
  }

  lemma ReadsOne(b: seq<byte>, buf: seq<byte>, text: seq<byte>, e: Element)
    requires Spells(b, e) && Legal(buf, text, e)
    ensures Reads(b, buf, text, Extended(buf, text, e))
  {
    assert b != [];
    var n: nat, out := |b|, Extended(buf, text, e);
    ReadsNothing(buf, out);
    hide Spells, Legal, Extended;
    assert b[..n] == b && b[n..] == [];
    assert Spells(b[..n], e) && Reads(b[n..], buf, Extended(buf, text, e), out);
  }

  lemma ReadsNothing(buf: seq<byte>, text: seq<byte>)
    ensures Reads([], buf, text, text)
  {
  }

  lemma FourKept(buf: seq<byte>)
    requires |buf| == 4
    ensures Reads([1, 0], buf, [], buf)
  {
    AllKept(buf, 0);
    assert buf[..0] == [];
    hide Repeat, Reads;
    ReadsOne([1, 0], buf, [], Back(0, 4));
  }

  lemma ReadsOnce(b: seq<byte>, buf: seq<byte>, text: seq<byte>, out: seq<byte>, out': seq<byte>)
    requires |text| <= |buf| && Reads(b, buf, text, out) && Reads(b, buf, text, out')
    ensures out == out'
  {
    ReadsDecode(b, buf, text, out);
    ReadsDecode(b, buf, text, out');
    assert Filled(buf, out)[..|out|] == out && Filled(buf, out')[..|out'|] == out';
  }
}
