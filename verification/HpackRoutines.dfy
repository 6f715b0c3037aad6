/** HPACK as it runs: a table that evicts in a loop, searches that scan from the newest entry,
    printers that append, and a decoder that works off a buffer. Each routine is tied to the
    function of the same step in Hpack. */
module HpackRoutines {
  import opened Wrappers
  import opened Base128
  import opened Hpack
  import Huffman
  import HuffmanRoutines
  import HpackChoices
  import HpackLockStep
  import HpackFragments

  // ----- searching -----

  /** First of a whole, by the part it falls in. */
  lemma {:induction false} FirstJoin(a: seq<Field>, b: seq<Field>, f: Field, both: bool)
    ensures First(a + b, f, both)
         == var r := First(a, f, both);
            if r.Some? then r
            else
              var q := First(b, f, both);
              if q.Some? then Some(q.value + |a|) else None
  {
    if a == [] {
      assert a + b == b;
    } else {
      assert (a + b)[1..] == a[1..] + b;
      FirstJoin(a[1..], b, f, both);
    }
  }

  lemma SearchJoin(a: seq<Field>, b: seq<Field>, f: Field)
    ensures
      var (i, both) := Search(a, f);
      var (j, exact) := Search(b, f);
      Search(a + b, f)
      == if both then (i, true) else if exact || (i == 0 && j != 0) then (j + |a|, exact) else (i, false)
  {
    FirstJoin(a, b, f, true);
    FirstJoin(a, b, f, false);
    hide First;
  }

  /** One more entry, behind those already searched. */
  lemma SearchNext(a: seq<Field>, e: Field, f: Field)
    ensures
      var (i, both) := Search(a, f);
      Search(a + [e], f)
      == if both then (i, true)
         else if !f.sensitive && SameBoth(e, f) then (|a| + 1, true)
         else if i == 0 && SameName(e, f) then (|a| + 1, false)
         else (i, false)
  {
    SearchJoin(a, [e], f);
    assert [e][1..] == [];
    assert Search([e], f)
        == if !f.sensitive && SameBoth(e, f) then (1, true) else if SameName(e, f) then (1, false) else (0, false);
    hide First, Search;
  }

  /** An exact match ends the search. */
  lemma SearchStops(a: seq<Field>, b: seq<Field>, f: Field)
    requires Search(a, f).1
    ensures Search(a + b, f) == Search(a, f)
  {
    SearchJoin(a, b, f);
  }

  lemma SearchStopsIn(statics: seq<Field>, k: nat, ents: seq<Field>, f: Field)
    requires k <= |statics| && Search(statics[..k], f).1
    ensures Search(Space(statics, ents), f) == Search(statics[..k], f)
  {
    hide Search;
    SearchStops(statics[..k], statics[k..] + Reversed(ents), f);
    assert statics[..k] + (statics[k..] + Reversed(ents)) == Space(statics, ents);
  }

  lemma SearchNone(f: Field)
    ensures Search([], f) == (0, false)
  {
  }

  lemma ReversedSplits(ents: seq<Field>, j: nat)
    requires j < |ents|
    ensures Reversed(ents[j..]) == Reversed(ents[j + 1..]) + [ents[j]]
    ensures Reversed(ents) == Reversed(ents[j..]) + Reversed(ents[..j])
  {
  }

  class DynamicTable {
    var ents: seq<Field>
    var size: nat
    var maxSize: uint32
    var allowedMaxSize: uint32

    ghost predicate Valid()
      reads this
    {
      size == Sum(ents)
    }

    constructor ()
      ensures Valid() && ents == [] && maxSize == 0 && allowedMaxSize == 0
    {
      ents, size, maxSize, allowedMaxSize := [], 0, 0, 0;
    }

    method SetMaxSize(v: uint32)
      requires Valid()
      modifies this
      ensures Valid() && ents == Evict(old(ents), v) && maxSize == v && allowedMaxSize == old(allowedMaxSize)
    {
      maxSize := v;
      EvictOld();
    }

    method Add(f: Field)
      requires Valid()
      modifies this
      ensures Valid() && ents == Evict(old(ents) + [f], maxSize)
      ensures maxSize == old(maxSize) && allowedMaxSize == old(allowedMaxSize)
    {
      HpackLockStep.SumAdd(ents, f);
      ents := ents + [f];
      size := size + Size(f);
      EvictOld();
    }

    method EvictOld()
      requires Valid()
      modifies this
      ensures Valid() && ents == Evict(old(ents), maxSize)
      ensures maxSize == old(maxSize) && allowedMaxSize == old(allowedMaxSize)
    {
      while size > maxSize
        invariant size == Sum(ents) && Evict(ents, maxSize) == Evict(old(ents), maxSize)
        invariant maxSize == old(maxSize) && allowedMaxSize == old(allowedMaxSize)
        decreases |ents|
      {
        size := size - Size(ents[0]);
        ents := ents[1..];
      }
    }

    /** Newest first: 1-based, 0 for no match. */
    method SearchNewest(f: Field) returns (i: nat, both: bool)
      ensures (i, both) == Search(Reversed(ents), f)
    {
      var l := |ents|;
      var j := l;
      i, both := 0, false;
      assert Reversed(ents[l..]) == [];
      while j > 0
        invariant 0 <= j <= l && !both && (i, false) == Search(Reversed(ents[j..]), f)
      {
        j := j - 1;
        ReversedSplits(ents, j);
        var ent := ents[j];
        SearchNext(Reversed(ents[j + 1..]), ent, f);
        if ent.name != f.name { continue; }
        if i == 0 { i := l - j; }
        if f.sensitive { continue; }
        if ent.value != f.value { continue; }
        SearchStops(Reversed(ents[j..]), Reversed(ents[..j]), f);
        return l - j, true;
      }
      assert ents[0..] == ents;
    }
  }

  // ----- printing -----

  method AppendVarInt(dst0: seq<byte>, n: nat, i0: nat) returns (dst: seq<byte>)
    requires 1 <= n <= 7
    requires Pow2(n) <= 256
    ensures dst == dst0 + VarInt(n, i0, 0)
  {
    var k := Pow2(n) - 1;
    if i0 < k { return dst0 + [i0]; }
    dst := dst0 + [k];
    var i: nat := i0 - k;
    while i >= 128
      invariant dst + Encode(i) == dst0 + [k] + Encode(i0 - k)
    {
      assert dst + [i % 128 + 128] + Encode(i / 128) == dst + ([i % 128 + 128] + Encode(i / 128));
      dst, i := dst + [i % 128 + 128], i / 128;
    }
    dst := dst + [i];
    assert dst0 + [k] + Encode(i0 - k) == dst0 + ([k] + Encode(i0 - k));
  }

  /** dst[first] |= flag, on bits that are clear. */
  function Flagged(dst: seq<byte>, first: nat, flag: nat): seq<byte>
    requires first < |dst| && dst[first] + flag < 256
  {
    dst[first := dst[first] + flag]
  }

  lemma FlagVarInt(dst: seq<byte>, n: nat, i: nat, flag: nat)
    requires 1 <= n <= 7 && flag % Pow2(n) == 0 && flag + Pow2(n) <= 256
    ensures VarInt(n, i, 0)[0] + flag < 256
    ensures Flagged(dst + VarInt(n, i, 0), |dst|, flag) == dst + VarInt(n, i, flag)
  {
    hide Pow2;
    assert VarInt(n, i, flag)[1..] == VarInt(n, i, 0)[1..];
  }

  method AppendHpackString(t: Tables, dst0: seq<byte>, s: seq<byte>) returns (dst: seq<byte>)
    requires Huffman.ValidCodes(t.codes)
    ensures dst == dst0 + HpackString(t.codes, s)
    ensures |s| < 0x8000_0000_0000_0000 ==> dst0 <= dst && HpackChoices.StringIs(t.codes, s, dst[|dst0|..])
  {
    hide HpackChoices.StringIs;
    assert Pow2(7) == 0x80;
    hide Pow2, VarInt;
    var huffmanLength := HuffmanRoutines.HuffmanEncodeLength(t.codes, s);
    ghost var h := HuffmanRoutines.EncodeString(t.codes, s);
    if huffmanLength < |s| {
      var first := |dst0|;
      dst := AppendVarInt(dst0, 7, huffmanLength);
      dst := HuffmanRoutines.AppendHuffmanString(t.codes, dst, s);
      FlagVarInt(dst0, 7, huffmanLength, 0x80);
      dst := Flagged(dst, first, 0x80);
      assert dst == Flagged(dst0 + VarInt(7, |h|, 0), |dst0|, 0x80) + h;
      assert dst == dst0 + (VarInt(7, |h|, 0x80) + h);
    } else {
      dst := AppendVarInt(dst0, 7, |s|);
      dst := dst + s;
      assert dst == dst0 + (VarInt(7, |s|, 0) + s);
    }
    assert dst == dst0 + HpackString(t.codes, s);
    hide HpackString;
    if |s| < 0x8000_0000_0000_0000 {
      assert dst[|dst0|..] == HpackString(t.codes, s);
      HpackChoices.StringChoice(t.codes, s);
    }
  }

  method AppendIndexed(dst0: seq<byte>, i: nat) returns (dst: seq<byte>)
    ensures dst == dst0 + Indexed(i)
  {
    assert Pow2(7) == 0x80;
    hide Pow2, VarInt;
    dst := AppendVarInt(dst0, 7, i);
    FlagVarInt(dst0, 7, i, 0x80);
    dst := Flagged(dst, |dst0|, 0x80);
  }

  method AppendNewName(t: Tables, dst0: seq<byte>, f: Field, indexing: bool) returns (dst: seq<byte>)
    requires Huffman.ValidCodes(t.codes)
    ensures dst == dst0 + NewName(t.codes, f, indexing)
  {
    hide HpackString;
    dst := dst0 + [TypeByte(indexing, f.sensitive)];
    dst := AppendHpackString(t, dst, f.name);
    dst := AppendHpackString(t, dst, f.value);
    HpackLockStep.Regroup(dst0, [TypeByte(indexing, f.sensitive)], HpackString(t.codes, f.name),
        HpackString(t.codes, f.value));
    Joined([TypeByte(indexing, f.sensitive)], HpackString(t.codes, f.name), HpackString(t.codes, f.value));
  }

  method AppendIndexedName(t: Tables, dst0: seq<byte>, f: Field, i: nat, indexing: bool) returns (dst: seq<byte>)
    requires Huffman.ValidCodes(t.codes) && !(indexing && f.sensitive)
    ensures dst == dst0 + IndexedName(t.codes, f, i, indexing)
  {
    assert Pow2(4) == 16 && Pow2(6) == 64;
    hide Pow2, VarInt, HpackString, Huffman.ValidCodes;
    var n := if indexing then 6 else 4;
    dst := AppendVarInt(dst0, n, i);
    var flag := TypeByte(indexing, f.sensitive);
    FlagVarInt(dst0, n, i, flag);
    dst := Flagged(dst, |dst0|, flag);
    dst := AppendHpackString(t, dst, f.value);
    Joined(dst0, VarInt(n, i, flag), HpackString(t.codes, f.value));
  }

  method AppendTableSize(dst0: seq<byte>, v: nat) returns (dst: seq<byte>)
    ensures dst == dst0 + TableSize(v)
  {
    assert Pow2(5) == 32;
    hide Pow2, VarInt;
    dst := AppendVarInt(dst0, 5, v);
    FlagVarInt(dst0, 5, v, 0x20);
    dst := Flagged(dst, |dst0|, 0x20);
  }

  // ----- the encoder -----

  class HeaderEncoder {
    const tables: Tables
    const dynTab: DynamicTable
    var minSize: uint32
    var maxSizeLimit: uint32
    var tableSizeUpdate: bool
    /** What was handed to the writer. */
    var written: seq<byte>

    ghost predicate Valid()
      reads this, dynTab
    {
      dynTab.Valid() && Huffman.ValidCodes(tables.codes)
    }

    ghost function State(): Encoder
      reads this, dynTab
    {
      Encoder(dynTab.ents, dynTab.maxSize, minSize, maxSizeLimit, tableSizeUpdate)
    }

    constructor (t: Tables)
      requires Huffman.ValidCodes(t.codes)
      ensures Valid() && State() == NEW_ENCODER && written == [] && tables == t && fresh(dynTab)
    {
      tables, minSize, maxSizeLimit, tableSizeUpdate, written := t, UINT32_MAX, INITIAL_TABLE_SIZE, false, [];
      var dt := new DynamicTable();
      dynTab := dt;
      new;
      dynTab.SetMaxSize(INITIAL_TABLE_SIZE);
    }

    method SearchTable(f: Field) returns (i: nat, both: bool)
      ensures (i, both) == Search(Space(tables.statics, dynTab.ents), f)
    {
      hide Search;
      i, both := 0, false;
      var statics := tables.statics;
      SearchNone(f);
      for idx := 0 to |statics|
        invariant !both && (i, false) == Search(statics[..idx], f)
      {
        var hf := statics[idx];
        SearchNext(statics[..idx], hf, f);
        assert statics[..idx + 1] == statics[..idx] + [hf];
        if hf.name != f.name { continue; }
        if i == 0 { i := idx + 1; }
        if f.sensitive { continue; }
        if hf.value != f.value { continue; }
        SearchStopsIn(statics, idx + 1, dynTab.ents, f);
        return idx + 1, true;
      }
      assert statics[..|statics|] == statics;
      SearchJoin(statics, Reversed(dynTab.ents), f);
      var j;
      j, both := dynTab.SearchNewest(f);
      if both || (i == 0 && j != 0) { i := j + |statics|; }
    }

    method Write(f: Field)
      requires Valid()
      modifies this, dynTab
      ensures Valid()
      ensures State() == WriteField(tables, old(State()), f).1
      ensures written == old(written) + WriteField(tables, old(State()), f).0
    {
      hide Evict, Search, Indexed, NewName, IndexedName, TableSize, Huffman.ValidCodes;
      var buf: seq<byte> := [];
      if tableSizeUpdate {
        tableSizeUpdate := false;
        if minSize < dynTab.maxSize { buf := AppendTableSize(buf, minSize); }
        minSize := UINT32_MAX;
        buf := AppendTableSize(buf, dynTab.maxSize);
      }
      ghost var e1 := State();
      assert buf == Updates(old(State())).0 && e1 == Updates(old(State())).1;
      var idx, both := SearchTable(f);
      if both {
        buf := AppendIndexed(buf, idx);
      } else {
        var indexing := !f.sensitive && Size(f) <= dynTab.maxSize;
        if indexing { dynTab.Add(f); }
        if idx == 0 {
          buf := AppendNewName(tables, buf, f, indexing);
        } else {
          buf := AppendIndexedName(tables, buf, f, idx, indexing);
        }
      }
      written := written + buf;
    }

    method SetMaxDynamicTableSize(v0: uint32)
      requires Valid()
      modifies this, dynTab
      ensures Valid() && State() == SetMax(old(State()), v0) && written == old(written)
    {
      var v := v0;
      if v > maxSizeLimit { v := maxSizeLimit; }
      if v < minSize { minSize := v; }
      tableSizeUpdate := true;
      dynTab.SetMaxSize(v);
    }

    method SetMaxDynamicTableSizeLimit(v: uint32)
      requires Valid()
      modifies this, dynTab
      ensures Valid() && State() == SetLimit(old(State()), v) && written == old(written)
    {
      maxSizeLimit := v;
      if dynTab.maxSize > v {
        tableSizeUpdate := true;
        dynTab.SetMaxSize(v);
      }
    }
  }

  // ----- the decoder -----

  method ReadVarIntBytes(n: nat, p: seq<byte>) returns (r: Parse<nat>)
    requires 1 <= n <= 7
    ensures r == ReadVarInt(n, p)
  {
    if p == [] { return NeedMore; }
    var i: nat := p[0] % Pow2(n);
    if i < Pow2(n) - 1 { return Done(i, p[1..]); }
    ghost var k := 0;
    ghost var q0 := p[1..];
    var q, m := p[1..], 0;
    assert q0[0..] == q0;
    hide Pow2, Scan, Groups, Part;
    GroupsNone(q0);
    while q != []
      invariant k <= 8 && k <= |q0| && q == q0[k..] && m == 7 * k
      invariant forall j :: 0 <= j < k ==> q0[j] >= 128
      invariant i == Pow2(n) - 1 + Groups(q0, k)
      decreases |q|
    {
      ScanAt(q0, k);
      var b := q[0];
      q := q[1..];
      i := i + Part(m, b);
      if b < 128 {
        assert p[1 + (k + 1)..] == q;
        return Done(i, q);
      }
      m, k := m + 7, k + 1;
      if m >= 63 {
        return Bad(Overflow);
      }
    }
    ScanNone(q0);
    return NeedMore;
  }

  method ReadStringBytes(t: Tables, p: seq<byte>) returns (r: Parse<seq<byte>>)
    ensures r == ReadString(t, p)
  {
    if p == [] { return NeedMore; }
    var isHuff := p[0] >= 128;
    var len := ReadVarIntBytes(7, p);
    hide ReadVarInt, Huffman.Decode;
    match len {
      case NeedMore => return NeedMore;
      case Bad(e) => return Bad(e);
      case Done(strLen, q) =>
        if |q| < strLen { return NeedMore; }
        if !isHuff { return Done(q[..strLen], q[strLen..]); }
        var s := HuffmanRoutines.HuffmanDecode(t.trie, q[..strLen]);
        return if s.None? then Bad(BadHuffman) else Done(s.value, q[strLen..]);
    }
  }

  /** The loop of Write, one representation further. */
  lemma ProcessOne(t: Tables, d: Decoder, p: seq<byte>)
    requires p != []
    ensures
      var r := ParseOne(t, d, p);
      Process(t, d, p)
      == if r.NeedMore? then Written(d.(saved := p), [], None)
         else if r.Bad? then Written(d.(saved := []), [], Some(r.error))
         else Also(r.value.emitted, Process(t, d.(ents := r.value.ents, max := r.value.max), r.rest))
  {
    hide ParseOne;
  }

  lemma AlsoNothing(emitted: seq<Field>, w: Written)
    requires w.emitted == []
    ensures Also(emitted, w) == Written(w.decoder, emitted, w.error)
  {
  }

  datatype Status = Good | Short | Failed(error: Error)

  class HeaderDecoder {
    const tables: Tables
    const dynTab: DynamicTable
    var buf: seq<byte>
    var saveBuf: seq<byte>
    /** The fields handed to the emit function. */
    var emitted: seq<Field>

    ghost predicate Valid()
      reads this, dynTab
    {
      dynTab.Valid()
    }

    ghost function State(): Decoder
      reads this, dynTab
    {
      Decoder(dynTab.ents, dynTab.maxSize, dynTab.allowedMaxSize, saveBuf)
    }

    constructor (t: Tables, maxSize: uint32)
      ensures Valid() && State() == NewDecoder(maxSize) && emitted == [] && tables == t && fresh(dynTab)
    {
      tables, buf, saveBuf, emitted := t, [], [], [];
      var dt := new DynamicTable();
      dynTab := dt;
      new;
      dynTab.allowedMaxSize := maxSize;
      dynTab.SetMaxSize(maxSize);
    }

    /** What a parse with result r does to the decoder: it consumes its bytes, changes the
        table and emits exactly when it is done, and leaves everything alone otherwise. */
    ghost predicate Took(r: Parse<Effect>, was: Decoder, buf0: seq<byte>, emitted0: seq<Field>, status: Status)
      reads this, dynTab
    {
      if r.Done? then
        && status == Good && buf == r.rest && emitted == emitted0 + r.value.emitted
        && State() == was.(ents := r.value.ents, max := r.value.max)
      else
        && status == (if r.NeedMore? then Short else Failed(r.error))
        && buf == buf0 && emitted == emitted0 && State() == was
    }

    method Entry(i: nat) returns (r: Option<Field>)
      ensures r == At(tables.statics, dynTab.ents, i)
    {
      if i < 1 { return None; }
      if i > |dynTab.ents| + |tables.statics| { return None; }
      if i <= |tables.statics| { return Some(tables.statics[i - 1]); }
      var dents := dynTab.ents;
      return Some(dents[|dents| - (i - |tables.statics|)]);
    }

    method ParseFieldIndexed() returns (status: Status)
      requires Valid()
      modifies this, dynTab
      ensures Valid()
      ensures Took(ParseIndexed(tables, old(State()), old(buf)), old(State()), old(buf), old(emitted), status)
    {
      hide ReadVarInt, At;
      var r := ReadVarIntBytes(7, buf);
      match r {
        case NeedMore => return Short;
        case Bad(e) => return Failed(e);
        case Done(idx, rest) =>
          var hf := Entry(idx);
          if hf.None? { return Failed(InvalidIndex); }
          emitted := emitted + [Field(hf.value.name, hf.value.value, false)];
          buf := rest;
          return Good;
      }
    }

    method ParseFieldLiteral(n: nat, indexed: bool, sensitive: bool) returns (status: Status)
      requires Valid() && 1 <= n <= 7
      modifies this, dynTab
      ensures Valid()
      ensures Took(ParseLiteral(tables, old(State()), n, indexed, sensitive, old(buf)),
                   old(State()), old(buf), old(emitted), status)
    {
      hide ReadVarInt, ReadString, At, Evict;
      var r := ReadVarIntBytes(n, buf);
      if r.NeedMore? { return Short; }
      if r.Bad? { return Failed(r.error); }
      var name: seq<byte>, rest := [], r.rest;
      if r.value > 0 {
        var ihf := Entry(r.value);
        if ihf.None? { return Failed(InvalidIndex); }
        name := ihf.value.name;
      } else {
        var s := ReadStringBytes(tables, rest);
        if s.NeedMore? { return Short; }
        if s.Bad? { return Failed(s.error); }
        name, rest := s.value, s.rest;
      }
      assert ParseName(tables, old(State()), n, old(buf)) == Done(name, rest);
      var v := ReadStringBytes(tables, rest);
      if v.NeedMore? { return Short; }
      if v.Bad? { return Failed(v.error); }
      buf := v.rest;
      if indexed { dynTab.Add(Field(name, v.value, false)); }
      emitted := emitted + [Field(name, v.value, sensitive)];
      return Good;
    }

    method ParseDynamicTableSizeUpdate() returns (status: Status)
      requires Valid()
      modifies this, dynTab
      ensures Valid() && Took(ParseSize(old(State()), old(buf)), old(State()), old(buf), old(emitted), status)
    {
      hide ReadVarInt, Evict;
      var r := ReadVarIntBytes(5, buf);
      match r {
        case NeedMore => return Short;
        case Bad(e) => return Failed(e);
        case Done(size, rest) =>
          if size > dynTab.allowedMaxSize { return Failed(SizeTooLarge); }
          dynTab.SetMaxSize(size);
          buf := rest;
          return Good;
      }
    }

    method ParseHeaderFieldRepr() returns (status: Status)
      requires Valid() && buf != []
      modifies this, dynTab
      ensures Valid() && Took(ParseOne(tables, old(State()), old(buf)), old(State()), old(buf), old(emitted), status)
    {
      hide Took, ParseIndexed, ParseLiteral, ParseSize;
      var b := buf[0];
      if b >= 128 {
        status := ParseFieldIndexed();
      } else if b >= 64 {
        status := ParseFieldLiteral(6, true, false);
      } else if b < 16 {
        status := ParseFieldLiteral(4, false, false);
      } else if b < 32 {
        status := ParseFieldLiteral(4, false, true);
      } else {
        status := ParseDynamicTableSizeUpdate();
      }
    }

    method WriteBytes(p: seq<byte>) returns (error: Option<Error>)
      requires Valid()
      modifies this, dynTab
      ensures Valid()
      ensures
        var w := Write(tables, old(State()), p);
        State() == w.decoder && emitted == old(emitted) + w.emitted && error == w.error
    {
      hide ParseOne, Process, Also;
      if p == [] { return None; }
      if saveBuf == [] {
        buf := p;
        assert old(saveBuf) + p == p;
      } else {
        buf := saveBuf + p;
        saveBuf := [];
      }
      ghost var d0 := old(State());
      ghost var goal := Process(tables, d0, buf);
      HpackFragments.SavedUnread(tables, d0, buf, []);
      ghost var sent: seq<Field> := [];
      HpackLockStep.AlsoAlso([], [], goal);
      error := None;
      while buf != []
        invariant Valid() && saveBuf == [] && error == None
        invariant goal == Also(sent, Process(tables, State(), buf)) && emitted == old(emitted) + sent
        decreases |buf|
      {
        ghost var d, buf0 := State(), buf;
        ghost var r := ParseOne(tables, d, buf);
        ProcessOne(tables, d, buf);
        var status := ParseHeaderFieldRepr();
        if status == Good {
          HpackLockStep.AlsoAlso(sent, r.value.emitted, Process(tables, State(), buf));
          sent := sent + r.value.emitted;
        } else {
          AlsoNothing(sent, Process(tables, d, buf0));
          if status.Failed? { return Some(status.error); }
          saveBuf := buf;
          return None;
        }
      }
      HpackLockStep.ProcessNothing(tables, State());
      AlsoNothing(sent, Process(tables, State(), []));
    }
  }
}
