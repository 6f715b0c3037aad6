/** A header block may reach the HPACK decoder in any pieces: what successive calls of Write
    emit and leave behind is what one call with the whole block does. */
module HpackFragments {
  import opened Wrappers
  import opened Base128
  import opened Hpack
  import opened HpackLockStep
  import Huffman

  // ----- more bytes never change an answer already given -----

  /** r with q behind what it leaves. */
  function Longer<T>(r: Parse<T>, q: seq<byte>): Parse<T>
    requires !r.NeedMore?
  {
    if r.Done? then Done(r.value, r.rest + q) else r
  }

  lemma ScanLater(b: seq<byte>, c: seq<byte>)
    requires Scan(b).None? && Scan(b + c).Some?
    ensures Scan(b + c).value.1 > |b|
  {
    ScanNone(b);
    ScanShape(b + c);
    assert forall i :: 0 <= i < |b| ==> (b + c)[i] == b[i] >= 128;
  }

  lemma VarIntLonger(n: nat, p: seq<byte>, q: seq<byte>)
    requires 1 <= n <= 7 && !ReadVarInt(n, p).NeedMore?
    ensures ReadVarInt(n, p + q) == Longer(ReadVarInt(n, p), q)
  {
    hide Pow2, Scan;
    var b := p[1..];
    assert (p + q)[0] == p[0] && (p + q)[1..] == b + q;
    if p[0] % Pow2(n) == Pow2(n) - 1 {
      if Scan(b).Some? {
        ScanPrefix(b, q);
        var c := Scan(b).value.1;
        assert (p + q)[1 + c..] == p[1 + c..] + q;
      } else if Scan(b + q).Some? {
        ScanLater(b, q);
      }
    }
  }

  lemma Around(a: seq<byte>, b: seq<byte>, n: nat)
    ensures n <= |a| ==> (a + b)[..n] == a[..n] && (a + b)[n..] == a[n..] + b
  {
  }

  lemma StringLonger(t: Tables, p: seq<byte>, q: seq<byte>)
    requires !ReadString(t, p).NeedMore?
    ensures ReadString(t, p + q) == Longer(ReadString(t, p), q)
  {
    VarIntLonger(7, p, q);
    hide ReadVarInt, Huffman.Decode;
    var r := ReadVarInt(7, p);
    if r.Done? {
      Around(r.rest, q, r.value);
      assert (p + q)[0] == p[0];
    }
  }

  lemma NameLonger(t: Tables, d: Decoder, n: nat, p: seq<byte>, q: seq<byte>)
    requires 1 <= n <= 7 && !ParseName(t, d, n, p).NeedMore?
    ensures ParseName(t, d, n, p + q) == Longer(ParseName(t, d, n, p), q)
  {
    VarIntLonger(n, p, q);
    hide ReadVarInt, ReadString;
    var r := ReadVarInt(n, p);
    if r.Done? && r.value == 0 { StringLonger(t, r.rest, q); }
  }

  lemma LiteralLonger(t: Tables, d: Decoder, n: nat, indexed: bool, sensitive: bool, p: seq<byte>, q: seq<byte>)
    requires 1 <= n <= 7 && !ParseLiteral(t, d, n, indexed, sensitive, p).NeedMore?
    ensures ParseLiteral(t, d, n, indexed, sensitive, p + q) == Longer(ParseLiteral(t, d, n, indexed, sensitive, p), q)
  {
    NameLonger(t, d, n, p, q);
    hide ParseName, ReadString, Evict;
    var r := ParseName(t, d, n, p);
    if r.Done? { StringLonger(t, r.rest, q); }
  }

  lemma OneLonger(t: Tables, d: Decoder, p: seq<byte>, q: seq<byte>)
    requires p != [] && !ParseOne(t, d, p).NeedMore?
    ensures ParseOne(t, d, p + q) == Longer(ParseOne(t, d, p), q)
  {
    var b := p[0];
    assert (p + q)[0] == b;
    hide ParseLiteral, ReadVarInt, Evict, At;
    if b >= 128 {
      VarIntLonger(7, p, q);
    } else if b >= 64 {
      LiteralLonger(t, d, 6, true, false, p, q);
    } else if b < 16 {
      LiteralLonger(t, d, 4, false, false, p, q);
    } else if b < 32 {
      LiteralLonger(t, d, 4, false, true, p, q);
    } else {
      VarIntLonger(5, p, q);
    }
  }

  // ----- the loop, cut in two -----

  /** What is saved is the beginning of one representation, or nothing. */
  predicate Resting(t: Tables, d: Decoder) {
    d.saved == [] || ParseOne(t, d, d.saved).NeedMore?
  }

  lemma SavedUnparsed(t: Tables, d: Decoder, p: seq<byte>, saved: seq<byte>)
    requires p != []
    ensures ParseOne(t, d.(saved := saved), p) == ParseOne(t, d, p)
  {
    hide ReadVarInt, ReadString, At, Evict;
  }

  lemma {:induction false} SavedUnread(t: Tables, d: Decoder, p: seq<byte>, saved: seq<byte>)
    ensures Process(t, d, p) == Process(t, d.(saved := saved), p)
    decreases |p|
  {
    hide ParseOne;
    if p != [] {
      SavedUnparsed(t, d, p, saved);
      var r := ParseOne(t, d, p);
      if r.Done? {
        SavedUnread(t, d.(ents := r.value.ents, max := r.value.max), r.rest, saved);
      }
    }
  }

  lemma {:induction false} ProcessRests(t: Tables, d: Decoder, p: seq<byte>)
    ensures Resting(t, Process(t, d, p).decoder)
    decreases |p|
  {
    hide ParseOne;
    if p != [] {
      SavedUnparsed(t, d, p, p);
      var r := ParseOne(t, d, p);
      if r.Done? {
        ProcessRests(t, d.(ents := r.value.ents, max := r.value.max), r.rest);
      }
    }
  }

  /** Processing a and then the rest with what a left over, or stopping at a's error. */
  lemma {:induction false} ProcessCut(t: Tables, d: Decoder, a: seq<byte>, b: seq<byte>)
    ensures
      var w := Process(t, d, a);
      Process(t, d, a + b) == if w.error.Some? then w else Also(w.emitted, Process(t, w.decoder, w.decoder.saved + b))
    decreases |a|
  {
    hide ParseOne;
    if a == [] {
      assert a + b == b && [] + b == b;
      SavedUnread(t, d, b, []);
      AlsoAlso([], [], Process(t, d, b));
    } else {
      var r := ParseOne(t, d, a);
      if r.NeedMore? {
        SavedUnread(t, d, a + b, a);
        AlsoAlso([], [], Process(t, d, a + b));
      } else {
        OneLonger(t, d, a, b);
        if r.Done? {
          var d' := d.(ents := r.value.ents, max := r.value.max);
          ProcessCut(t, d', r.rest, b);
          var w := Process(t, d', r.rest);
          if w.error.None? {
            AlsoAlso(r.value.emitted, w.emitted, Process(t, w.decoder, w.decoder.saved + b));
          }
        }
      }
    }
  }

  // ----- calls of Write -----

  /** Successive calls of Write, up to the first error. */
  function WriteAll(t: Tables, d: Decoder, pieces: seq<seq<byte>>): Written
    decreases |pieces|
  {
    if pieces == [] then Written(d, [], None)
    else
      var w := Write(t, d, pieces[0]);
      if w.error.Some? then w else Also(w.emitted, WriteAll(t, w.decoder, pieces[1..]))
  }

  /** A decoder at rest does nothing with no more bytes. */
  lemma ProcessSaved(t: Tables, d: Decoder)
    requires Resting(t, d)
    ensures Process(t, d, d.saved) == Written(d, [], None)
  {
    assert d.(saved := d.saved) == d;
  }

  lemma WriteCut(t: Tables, d: Decoder, a: seq<byte>, b: seq<byte>)
    requires Resting(t, d)
    ensures
      var w := Write(t, d, a);
      && Resting(t, w.decoder)
      && Write(t, d, a + b) == if w.error.Some? then w else Also(w.emitted, Write(t, w.decoder, b))
  {
    hide Process, ParseOne;
    var w := Write(t, d, a);
    if a == [] {
      assert a + b == b;
      AlsoAlso([], [], Write(t, d, b));
    } else {
      ProcessRests(t, d, d.saved + a);
      ProcessCut(t, d, d.saved + a, b);
      assert d.saved + a + b == d.saved + (a + b);
      if b == [] {
        assert w.decoder.saved + b == w.decoder.saved;
        ProcessSaved(t, w.decoder);
      }
    }
  }

  /** Fragmentation independence: the same fields, dynamic table, remainder and first error
      whatever the pieces, empty ones included. */
  lemma {:induction false} PiecesDoNotMatter(t: Tables, d: Decoder, pieces: seq<seq<byte>>)
    requires Resting(t, d)
    ensures WriteAll(t, d, pieces) == Write(t, d, Concat(pieces))
    decreases |pieces|
  {
    if pieces != [] {
      hide Write, Resting;
      WriteCut(t, d, pieces[0], Concat(pieces[1..]));
      var w := Write(t, d, pieces[0]);
      if w.error.None? { PiecesDoNotMatter(t, w.decoder, pieces[1..]); }
    }
  }

  /** With the lock step: what the encoder wrote, cut anywhere, is what the decoder emits, and
      nothing is left over. */
  lemma PiecesOfWhatWasWritten(t: Tables, e: Encoder, d: Decoder, ops: seq<Op>, pieces: seq<seq<byte>>)
    requires GoodTables(t) && Follows(e, d)
    requires forall op :: op in ops ==> Allowed(op, d)
    requires Concat(pieces) == Calls(t, e, ops).0
    ensures
      var w := WriteAll(t, d, pieces);
      w.error == None && w.emitted == Fields(ops) && w.decoder.saved == []
  {
    hide GoodTables, Follows, Write, WriteAll, Calls, Fields, Allowed, ParseOne;
    FollowsLinked(e, d);
    PiecesDoNotMatter(t, d, pieces);
    EmitsWhatWasWritten(t, e, d, ops);
    CodesSize(t);
    FollowsLinked(Calls(t, e, ops).1, Write(t, d, Calls(t, e, ops).0).decoder);
  }
}
