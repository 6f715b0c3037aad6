/** Compressed messages over both passes of encode. A message keeps what its compressor gave on
    one visit and uses it up on the next, so that the sizing and the writing pass may see the
    same payload although nothing is known about the compressor. */
module KafkaPasses {
  import opened Wrappers
  import opened Base128
  import opened KafkaWire
  import opened KafkaMessage
  import opened KafkaRoutines

  class Message {
    const codec: int8
    const key: Option<seq<byte>>
    const value: Option<seq<byte>>
    var compressedCache: Option<seq<byte>>

    constructor (codec: int8, key: Option<seq<byte>>, value: Option<seq<byte>>)
      ensures this.codec == codec && this.key == key && this.value == value && compressedCache == None
    {
      this.codec, this.key, this.value, compressedCache := codec, key, value, None;
    }

    /** `sizing` tells the encoder: the sizing one refuses byte slices that are too long. A key
        that it refuses leaves the cache alone, a payload that it refuses does not. */
    method Encode(sizing: bool, compressed: seq<byte>) returns (r: Result<Node, Error>)
      modifies this
      ensures
        var p := Payload(codec, value, old(compressedCache), compressed);
        if (sizing && Excess(key)) || p.Err? then r == Err(EncodingError) && compressedCache == old(compressedCache)
        else
          && compressedCache == p.value.1
          && r == if sizing && Excess(p.value.0) then Err(EncodingError) else Ok(MessageNode(codec, key, p.value.0))
    {
      if sizing && Excess(key) { return Err(EncodingError); }
      var payload;
      if compressedCache.Some? {
        payload := compressedCache;
        compressedCache := None;
      } else if codec == 0 {
        payload := value;
      } else if codec == 1 || codec == 2 {
        compressedCache := Some(compressed);
        payload := compressedCache;
      } else {
        return Err(EncodingError);
      }
      if sizing && Excess(payload) { return Err(EncodingError); }
      return Ok(MessageNode(codec, key, payload));
    }
  }

  datatype Entry = Entry(offset: int64, msg: Message)

  /** What the compressor gives for the message at each place of a pass: nothing is known about
      it, not even that it gives the same bytes for the same value twice. */
  type Compressor = nat -> seq<byte>

  /** The messages that hold a cache, and what they hold. */
  type Caches = map<Message, seq<byte>>

  predicate Excess(b: Option<seq<byte>>) {
    b.Some? && |b.value| > MAX_INT32
  }

  predicate Compresses(m: Message) {
    m.codec == 1 || m.codec == 2
  }

  // ----- a pass -----

  /** The payload of a message and what its cache holds then. */
  function Payload(codec: int8, value: Option<seq<byte>>, cache: Option<seq<byte>>, compressed: seq<byte>)
    : (r: Result<(Option<seq<byte>>, Option<seq<byte>>), Error>)
  {
    if cache.Some? then Ok((cache, None))
    else if codec == 0 then Ok((value, None))
    else if codec == 1 || codec == 2 then Ok((Some(compressed), Some(compressed)))
    else Err(EncodingError)
  }

  function CacheOf(caches: Caches, m: Message): Option<seq<byte>> {
    if m in caches then Some(caches[m]) else None
  }

  function WithCache(caches: Caches, m: Message, cache: Option<seq<byte>>): (r: Caches)
    ensures CacheOf(r, m) == cache
  {
    if cache.Some? then caches[m := cache.value] else caches - {m}
  }

  datatype Passed = Passed(nodes: seq<Node>, caches: Caches, refused: bool)

  /** One message block, on top of what came before it. */
  function Visit(sizing: bool, e: Entry, compressed: seq<byte>, p: Passed): Passed {
    var m := e.msg;
    var r := Payload(m.codec, m.value, CacheOf(p.caches, m), compressed);
    if p.refused || (sizing && Excess(m.key)) || r.Err? then p.(refused := true)
    else
      Passed(p.nodes + BlockNodes(e.offset, MessageNode(m.codec, m.key, r.value.0)),
             WithCache(p.caches, m, r.value.1),
             sizing && Excess(r.value.0))
  }

  /** The first n blocks of a set, visited by the sizing or by the writing encoder. */
  function Pass(sizing: bool, entries: seq<Entry>, outs: Compressor, n: nat, caches: Caches): Passed
    requires n <= |entries|
  {
    if n == 0 then Passed([], caches, false)
    else Visit(sizing, entries[n - 1], outs(n - 1), Pass(sizing, entries, outs, n - 1, caches))
  }

  function Sizing(entries: seq<Entry>, outs: Compressor, caches: Caches): Passed {
    Pass(true, entries, outs, |entries|, caches)
  }

  /** The writing pass starts from the caches that the sizing pass has left. */
  function Writing(entries: seq<Entry>, outs: Compressor, again: Compressor, caches: Caches): Passed {
    Pass(false, entries, again, |entries|, Sizing(entries, outs, caches).caches)
  }

  /** What the sizing pass accepts, the writing pass asks for again. */
  predicate Agree(entries: seq<Entry>, outs: Compressor, again: Compressor, caches: Caches) {
    var first, second := Sizing(entries, outs, caches), Writing(entries, outs, again, caches);
    first.refused || (!second.refused && second.nodes == first.nodes)
  }

  ghost predicate AlwaysAgree(entries: seq<Entry>, caches: Caches) {
    forall outs: Compressor, again: Compressor :: Agree(entries, outs, again, caches)
  }

  // ----- when the passes agree -----

  predicate FirstAt(entries: seq<Entry>, i: nat)
    requires i < |entries|
  {
    forall j :: 0 <= j < i ==> entries[j].msg != entries[i].msg
  }

  predicate Alone(entries: seq<Entry>, i: nat)
    requires i < |entries|
  {
    forall j :: 0 <= j < |entries| && j != i ==> entries[j].msg != entries[i].msg
  }

  /** A compressed message object stands once in the set and holds no cache. (No other message
      gets a cache from encode; one that has got one anyway must hold its own value.) */
  predicate SettledAt(entries: seq<Entry>, caches: Caches, i: nat)
    requires i < |entries|
  {
    var m := entries[i].msg;
    if Compresses(m) then m !in caches && Alone(entries, i)
    else m.codec == 0 && (m in caches ==> Some(caches[m]) == m.value)
  }

  predicate Settled(entries: seq<Entry>, caches: Caches) {
    forall i :: 0 <= i < |entries| ==> SettledAt(entries, caches, i)
  }

  /** The sizing pass cannot get past this message: its key or its ready payload is too long, or
      its codec is unknown. */
  predicate RefusedAt(entries: seq<Entry>, caches: Caches, i: nat)
    requires i < |entries|
  {
    var m := entries[i].msg;
    || Excess(m.key)
    || if m in caches && FirstAt(entries, i) then |caches[m]| > MAX_INT32
       else !Compresses(m) && (m.codec != 0 || Excess(m.value))
  }

  predicate Hopeless(entries: seq<Entry>, caches: Caches) {
    exists i :: 0 <= i < |entries| && RefusedAt(entries, caches, i)
  }

  /** The payload that the message at i gets, if it gets one. */
  function PayloadAt(sizing: bool, entries: seq<Entry>, outs: Compressor, caches: Caches, i: nat): Option<seq<byte>>
    requires i < |entries|
  {
    var m := entries[i].msg;
    var r := Payload(m.codec, m.value, CacheOf(Pass(sizing, entries, outs, i, caches).caches, m), outs(i));
    if r.Ok? then r.value.0 else None
  }

  lemma {:induction false} RefusedStays(sizing: bool, entries: seq<Entry>, outs: Compressor, caches: Caches, i: nat,
                                        n: nat)
    requires i <= n <= |entries| && Pass(sizing, entries, outs, i, caches).refused
    ensures Pass(sizing, entries, outs, n, caches) == Pass(sizing, entries, outs, i, caches)
  {
    if i < n { RefusedStays(sizing, entries, outs, caches, i, n - 1); }
  }

  /** A message's cache changes only where the message stands. */
  lemma {:induction false} Untouched(sizing: bool, entries: seq<Entry>, outs: Compressor, caches: Caches, m: Message,
                                     i: nat, n: nat)
    requires i <= n <= |entries| && forall j :: i <= j < n ==> entries[j].msg != m
    ensures CacheOf(Pass(sizing, entries, outs, n, caches).caches, m)
         == CacheOf(Pass(sizing, entries, outs, i, caches).caches, m)
  {
    if i < n { Untouched(sizing, entries, outs, caches, m, i, n - 1); }
  }

  /** A message that is not compressed never gets a cache. */
  lemma {:induction false} PlainStays(sizing: bool, entries: seq<Entry>, outs: Compressor, caches: Caches,
                                      m: Message, i: nat, n: nat)
    requires i <= n <= |entries| && !Compresses(m)
    requires CacheOf(Pass(sizing, entries, outs, i, caches).caches, m) == None
    ensures CacheOf(Pass(sizing, entries, outs, n, caches).caches, m) == None
  {
    if i < n { PlainStays(sizing, entries, outs, caches, m, i, n - 1); }
  }

  lemma EarlierAccepted(sizing: bool, entries: seq<Entry>, outs: Compressor, caches: Caches, i: nat, n: nat)
    requires i <= n <= |entries| && !Pass(sizing, entries, outs, n, caches).refused
    ensures !Pass(sizing, entries, outs, i, caches).refused
  {
    if Pass(sizing, entries, outs, i, caches).refused { RefusedStays(sizing, entries, outs, caches, i, n); }
  }

  /** What one accepted visit gives and leaves. */
  lemma Visited(sizing: bool, entries: seq<Entry>, outs: Compressor, caches: Caches, i: nat)
    requires i < |entries| && !Pass(sizing, entries, outs, i + 1, caches).refused
    ensures
      var m := entries[i].msg;
      var cache := CacheOf(Pass(sizing, entries, outs, i, caches).caches, m);
      var r := Payload(m.codec, m.value, cache, outs(i));
      && r.Ok? && PayloadAt(sizing, entries, outs, caches, i) == r.value.0
      && CacheOf(Pass(sizing, entries, outs, i + 1, caches).caches, m) == r.value.1
  {
    hide BlockNodes, MessageNode, Payload, CacheOf;
  }

  lemma Grows(sizing: bool, entries: seq<Entry>, outs: Compressor, caches: Caches, i: nat)
    requires i < |entries| && !Pass(sizing, entries, outs, i + 1, caches).refused
    ensures
      var e, payload := entries[i], PayloadAt(sizing, entries, outs, caches, i);
      Pass(sizing, entries, outs, i + 1, caches).nodes
      == Pass(sizing, entries, outs, i, caches).nodes
         + BlockNodes(e.offset, MessageNode(e.msg.codec, e.msg.key, payload))
  {
    hide BlockNodes, MessageNode, CacheOf, WithCache;
  }

  /** Where the payload of the message at i is found among the nodes. */
  lemma {:induction false} NodeAt(sizing: bool, entries: seq<Entry>, outs: Compressor, caches: Caches, i: nat, n: nat)
    requires i < n <= |entries| && !Pass(sizing, entries, outs, n, caches).refused
    ensures
      var nodes := Pass(sizing, entries, outs, n, caches).nodes;
      var m := entries[i].msg;
      && |nodes| == 2 * n
      && nodes[2 * i + 1] == Length([MessageNode(m.codec, m.key, PayloadAt(sizing, entries, outs, caches, i))])
  {
    if i < n - 1 {
      NodeAt(sizing, entries, outs, caches, i, n - 1);
    } else if i > 0 {
      NodeAt(sizing, entries, outs, caches, i - 1, n - 1);
    }
  }

  lemma SamePayload(entries: seq<Entry>, outs: Compressor, again: Compressor, caches: Caches, i: nat)
    requires i < |entries| && Agree(entries, outs, again, caches) && !Sizing(entries, outs, caches).refused
    ensures PayloadAt(true, entries, outs, caches, i)
         == PayloadAt(false, entries, again, Sizing(entries, outs, caches).caches, i)
  {
    hide Pass, PayloadAt, MessageNode;
    var left := Sizing(entries, outs, caches).caches;
    NodeAt(true, entries, outs, caches, i, |entries|);
    NodeAt(false, entries, again, left, i, |entries|);
    var m := entries[i].msg;
    PayloadTold(m, PayloadAt(true, entries, outs, caches, i), PayloadAt(false, entries, again, left, i));
  }

  lemma PayloadTold(m: Message, a: Option<seq<byte>>, b: Option<seq<byte>>)
    requires Length([MessageNode(m.codec, m.key, a)]) == Length([MessageNode(m.codec, m.key, b)])
    ensures a == b
  {
    var x, y := [MessageNode(m.codec, m.key, a)], [MessageNode(m.codec, m.key, b)];
    assert x[0] == y[0];
    assert x[0].fields[3] == y[0].fields[3];
  }

  /** The first visit of a message finds the cache that it came with. */
  lemma FirstFinds(sizing: bool, entries: seq<Entry>, outs: Compressor, caches: Caches, i: nat)
    requires i < |entries| && FirstAt(entries, i)
    ensures CacheOf(Pass(sizing, entries, outs, i, caches).caches, entries[i].msg) == CacheOf(caches, entries[i].msg)
  {
    Untouched(sizing, entries, outs, caches, entries[i].msg, 0, i);
  }

  /** A message that stands alone keeps, to the end of the pass, what its visit has left. */
  lemma LastLeaves(sizing: bool, entries: seq<Entry>, outs: Compressor, caches: Caches, i: nat)
    requires i < |entries| && forall j :: i < j < |entries| ==> entries[j].msg != entries[i].msg
    ensures CacheOf(Pass(sizing, entries, outs, |entries|, caches).caches, entries[i].msg)
         == CacheOf(Pass(sizing, entries, outs, i + 1, caches).caches, entries[i].msg)
  {
    Untouched(sizing, entries, outs, caches, entries[i].msg, i + 1, |entries|);
  }

  /** Where a message that is not compressed has been visited, it holds no cache. */
  lemma PlainSeen(sizing: bool, entries: seq<Entry>, outs: Compressor, caches: Caches, i: nat, n: nat)
    requires i < n <= |entries| && !Compresses(entries[i].msg)
    requires !Pass(sizing, entries, outs, n, caches).refused
    ensures CacheOf(Pass(sizing, entries, outs, n, caches).caches, entries[i].msg) == None
  {
    EarlierAccepted(sizing, entries, outs, caches, i + 1, n);
    PlainStays(sizing, entries, outs, caches, entries[i].msg, i + 1, n);
  }

  /** An earlier place of the message at i. */
  ghost function Earlier(entries: seq<Entry>, i: nat): (j: nat)
    requires i < |entries| && !FirstAt(entries, i)
    ensures j < i && entries[j].msg == entries[i].msg
  {
    var j :| 0 <= j < i && entries[j].msg == entries[i].msg;
    j
  }

  // ----- sets that are settled -----

  /** On the sizing pass a settled message gets its value, or what its compressor gives. */
  lemma SettledFirst(entries: seq<Entry>, outs: Compressor, caches: Caches, i: nat)
    requires i < |entries| && SettledAt(entries, caches, i)
    requires !Sizing(entries, outs, caches).refused
    ensures
      var m := entries[i].msg;
      var made := if Compresses(m) then Some(outs(i)) else m.value;
      && PayloadAt(true, entries, outs, caches, i) == made
      && CacheOf(Sizing(entries, outs, caches).caches, m) == if Compresses(m) then made else None
  {
    var m := entries[i].msg;
    EarlierAccepted(true, entries, outs, caches, i, |entries|);
    EarlierAccepted(true, entries, outs, caches, i + 1, |entries|);
    if FirstAt(entries, i) {
      FirstFinds(true, entries, outs, caches, i);
    } else {
      PlainSeen(true, entries, outs, caches, Earlier(entries, i), i);
    }
    if Compresses(m) {
      LastLeaves(true, entries, outs, caches, i);
    } else {
      PlainSeen(true, entries, outs, caches, i, |entries|);
    }
  }

  /** On the writing pass it finds just that, and no cache is left. */
  lemma SettledSecond(entries: seq<Entry>, again: Compressor, left: Caches, i: nat, made: Option<seq<byte>>)
    requires i < |entries| && CacheOf(left, entries[i].msg) == if Compresses(entries[i].msg) then made else None
    requires if Compresses(entries[i].msg) then made.Some? && Alone(entries, i)
             else entries[i].msg.codec == 0 && made == entries[i].msg.value
    requires !Pass(false, entries, again, i, left).refused
    ensures !Pass(false, entries, again, i + 1, left).refused && PayloadAt(false, entries, again, left, i) == made
    ensures CacheOf(Pass(false, entries, again, |entries|, left).caches, entries[i].msg) == None
  {
    var m := entries[i].msg;
    if Compresses(m) {
      FirstFinds(false, entries, again, left, i);
      LastLeaves(false, entries, again, left, i);
    } else {
      PlainStays(false, entries, again, left, m, 0, i);
      PlainStays(false, entries, again, left, m, 0, |entries|);
    }
  }

  lemma SettledSame(entries: seq<Entry>, outs: Compressor, again: Compressor, caches: Caches, i: nat)
    requires i < |entries| && SettledAt(entries, caches, i) && !Sizing(entries, outs, caches).refused
    requires !Pass(false, entries, again, i, Sizing(entries, outs, caches).caches).refused
    ensures
      var left := Sizing(entries, outs, caches).caches;
      && !Pass(true, entries, outs, i + 1, caches).refused && !Pass(false, entries, again, i + 1, left).refused
      && PayloadAt(true, entries, outs, caches, i) == PayloadAt(false, entries, again, left, i)
  {
    hide Pass, PayloadAt;
    SettledFirst(entries, outs, caches, i);
    EarlierAccepted(true, entries, outs, caches, i + 1, |entries|);
    SettledSecond(entries, again, Sizing(entries, outs, caches).caches, i, PayloadAt(true, entries, outs, caches, i));
  }

  lemma {:induction false} SettledNodes(entries: seq<Entry>, outs: Compressor, again: Compressor, caches: Caches,
                                        n: nat)
    requires n <= |entries| && Settled(entries, caches) && !Sizing(entries, outs, caches).refused
    ensures
      var second := Pass(false, entries, again, n, Sizing(entries, outs, caches).caches);
      !second.refused && second.nodes == Pass(true, entries, outs, n, caches).nodes
  {
    hide Visit, PayloadAt, SettledAt, BlockNodes, MessageNode;
    if n > 0 {
      var i, left := n - 1, Sizing(entries, outs, caches).caches;
      SettledNodes(entries, outs, again, caches, i);
      assert SettledAt(entries, caches, i);
      SettledSame(entries, outs, again, caches, i);
      Grows(true, entries, outs, caches, i);
      Grows(false, entries, again, left, i);
    }
  }

  /** In a settled set the passes agree whatever the compressor gives, and no message of the set
      holds a cache when both are done; after the sizing pass alone the compressed ones do. */
  lemma SettledAgree(entries: seq<Entry>, outs: Compressor, again: Compressor, caches: Caches)
    requires Settled(entries, caches) && !Sizing(entries, outs, caches).refused
    ensures Agree(entries, outs, again, caches)
    ensures forall e :: e in entries ==> (e.msg in Sizing(entries, outs, caches).caches <==> Compresses(e.msg))
    ensures forall e :: e in entries ==> e.msg !in Writing(entries, outs, again, caches).caches
  {
    SettledNodes(entries, outs, again, caches, |entries|);
    var left := Sizing(entries, outs, caches).caches;
    forall i | 0 <= i < |entries|
      ensures entries[i].msg in left <==> Compresses(entries[i].msg)
      ensures entries[i].msg !in Writing(entries, outs, again, caches).caches
    {
      assert SettledAt(entries, caches, i);
      SettledFirst(entries, outs, caches, i);
      EarlierAccepted(false, entries, again, left, i, |entries|);
      SettledSecond(entries, again, left, i, PayloadAt(true, entries, outs, caches, i));
    }
  }

  // ----- sets that the sizing pass refuses -----

  lemma HopelessRefused(entries: seq<Entry>, outs: Compressor, caches: Caches)
    requires Hopeless(entries, caches)
    ensures Sizing(entries, outs, caches).refused
  {
    var i :| 0 <= i < |entries| && RefusedAt(entries, caches, i);
    if !Sizing(entries, outs, caches).refused {
      EarlierAccepted(true, entries, outs, caches, i, |entries|);
      EarlierAccepted(true, entries, outs, caches, i + 1, |entries|);
      if FirstAt(entries, i) {
        FirstFinds(true, entries, outs, caches, i);
      } else if !Compresses(entries[i].msg) {
        PlainSeen(true, entries, outs, caches, Earlier(entries, i), i);
      }
      assert false;
    }
  }

  const NOTHING: Compressor := _ => []

  /** With a compressor that gives nothing, a compressed message that has been visited holds
      the empty cache or none. */
  lemma {:induction false} EmptySeen(entries: seq<Entry>, caches: Caches, i: nat, n: nat)
    requires i < n <= |entries| && !Pass(true, entries, NOTHING, n, caches).refused
    ensures
      var cache := CacheOf(Pass(true, entries, NOTHING, n, caches).caches, entries[i].msg);
      cache == None || cache == Some([])
  {
    EarlierAccepted(true, entries, NOTHING, caches, n - 1, n);
    if i < n - 1 { EmptySeen(entries, caches, i, n - 1); }
  }

  lemma {:induction false} NothingAccepted(entries: seq<Entry>, caches: Caches, n: nat)
    requires n <= |entries| && !Hopeless(entries, caches)
    ensures !Pass(true, entries, NOTHING, n, caches).refused
  {
    if n > 0 {
      var i := n - 1;
      NothingAccepted(entries, caches, i);
      assert !RefusedAt(entries, caches, i);
      if FirstAt(entries, i) {
        FirstFinds(true, entries, NOTHING, caches, i);
      } else {
        EmptySeen(entries, caches, Earlier(entries, i), i);
        if !Compresses(entries[i].msg) { PlainSeen(true, entries, NOTHING, caches, Earlier(entries, i), i); }
      }
    }
  }

  // ----- sets that are not settled -----

  /** The first place of the message at i. */
  ghost function First(entries: seq<Entry>, i: nat): (f: nat)
    requires i < |entries|
    ensures f <= i && entries[f].msg == entries[i].msg && FirstAt(entries, f)
  {
    if FirstAt(entries, i) then i else First(entries, Earlier(entries, i))
  }

  predicate NextAt(entries: seq<Entry>, f: nat, g: nat)
    requires f < g < |entries|
  {
    entries[g].msg == entries[f].msg && forall j :: f < j < g ==> entries[j].msg != entries[f].msg
  }

  /** The next place of the message at f, given a later one. */
  lemma {:induction false} Next(entries: seq<Entry>, f: nat, later: nat) returns (g: nat)
    requires f < later < |entries| && entries[later].msg == entries[f].msg
    ensures f < g < |entries| && NextAt(entries, f, g)
    decreases later
  {
    if j :| f < j < later && entries[j].msg == entries[f].msg {
      g := Next(entries, f, j);
    } else {
      g := later;
    }
  }

  /** A message without compression that came with another value in its cache. */
  lemma PlainDiffers(entries: seq<Entry>, caches: Caches, i: nat)
    requires i < |entries| && !Compresses(entries[i].msg) && !SettledAt(entries, caches, i)
             && !Hopeless(entries, caches)
    ensures !Agree(entries, NOTHING, NOTHING, caches)
  {
    if Agree(entries, NOTHING, NOTHING, caches) {
      var f, left := First(entries, i), Sizing(entries, NOTHING, caches).caches;
      NothingAccepted(entries, caches, |entries|);
      FirstFinds(true, entries, NOTHING, caches, f);
      PlainSeen(true, entries, NOTHING, caches, f, |entries|);
      FirstFinds(false, entries, NOTHING, left, f);
      EarlierAccepted(false, entries, NOTHING, left, f + 1, |entries|);
      SamePayload(entries, NOTHING, NOTHING, caches, f);
      assert false;
    }
  }

  /** When the sizing pass has left no cache, the writing pass compresses again at once. */
  lemma FirstDiffers(entries: seq<Entry>, caches: Caches, f: nat, b: seq<byte>)
    requires f < |entries| && FirstAt(entries, f) && Compresses(entries[f].msg) && !Hopeless(entries, caches)
    requires b != [] && Some(b) != CacheOf(caches, entries[f].msg)
    requires entries[f].msg !in Sizing(entries, NOTHING, caches).caches
    ensures !Agree(entries, NOTHING, _ => b, caches)
  {
    var again: Compressor := _ => b;
    if Agree(entries, NOTHING, again, caches) {
      NothingAccepted(entries, caches, |entries|);
      FirstFinds(true, entries, NOTHING, caches, f);
      FirstFinds(false, entries, again, Sizing(entries, NOTHING, caches).caches, f);
      SamePayload(entries, NOTHING, again, caches, f);
      assert false;
    }
  }

  /** When it has left one, the writing pass uses it up and compresses again at the next place. */
  lemma NextDiffers(entries: seq<Entry>, caches: Caches, f: nat, g: nat, b: seq<byte>)
    requires f < g < |entries| && FirstAt(entries, f) && NextAt(entries, f, g)
    requires Compresses(entries[f].msg) && !Hopeless(entries, caches)
    requires b != [] && entries[f].msg in Sizing(entries, NOTHING, caches).caches
    ensures !Agree(entries, NOTHING, _ => b, caches)
  {
    hide Pass, PayloadAt, Hopeless;
    var again: Compressor := _ => b;
    if Agree(entries, NOTHING, again, caches) {
      NothingAccepted(entries, caches, |entries|);
      EmptyNext(entries, caches, f, g);
      UsedUp(entries, again, Sizing(entries, NOTHING, caches).caches, f, g);
      SamePayload(entries, NOTHING, again, caches, g);
      assert false;
    }
  }

  lemma EmptyNext(entries: seq<Entry>, caches: Caches, f: nat, g: nat)
    requires f < g < |entries| && NextAt(entries, f, g) && Compresses(entries[f].msg)
    requires !Sizing(entries, NOTHING, caches).refused
    ensures PayloadAt(true, entries, NOTHING, caches, g) == Some([])
  {
    hide Pass, PayloadAt;
    EarlierAccepted(true, entries, NOTHING, caches, g, |entries|);
    EarlierAccepted(true, entries, NOTHING, caches, g + 1, |entries|);
    EmptySeen(entries, caches, f, g);
    Visited(true, entries, NOTHING, caches, g);
  }

  lemma UsedUp(entries: seq<Entry>, again: Compressor, left: Caches, f: nat, g: nat)
    requires f < g < |entries| && FirstAt(entries, f) && NextAt(entries, f, g) && Compresses(entries[f].msg)
    requires entries[f].msg in left && !Pass(false, entries, again, |entries|, left).refused
    ensures PayloadAt(false, entries, again, left, g) == Some(again(g))
  {
    hide Pass, PayloadAt;
    EarlierAccepted(false, entries, again, left, f + 1, |entries|);
    EarlierAccepted(false, entries, again, left, g + 1, |entries|);
    FirstFinds(false, entries, again, left, f);
    Visited(false, entries, again, left, f);
    Untouched(false, entries, again, left, entries[f].msg, f + 1, g);
    Visited(false, entries, again, left, g);
  }

  lemma CompressedDiffers(entries: seq<Entry>, caches: Caches, i: nat, b: seq<byte>)
    requires i < |entries| && Compresses(entries[i].msg) && !SettledAt(entries, caches, i) && !Hopeless(entries, caches)
    requires b != [] && Some(b) != CacheOf(caches, entries[i].msg)
    ensures !Agree(entries, NOTHING, _ => b, caches)
  {
    hide Pass, Agree, Hopeless;
    var f := First(entries, i);
    if entries[f].msg !in Sizing(entries, NOTHING, caches).caches {
      FirstDiffers(entries, caches, f, b);
    } else {
      var later := Later(entries, caches, f, i);
      var g := Next(entries, f, later);
      NextDiffers(entries, caches, f, g, b);
    }
  }

  /** An unsettled message that the sizing pass leaves with a cache stands twice. */
  lemma Later(entries: seq<Entry>, caches: Caches, f: nat, i: nat) returns (later: nat)
    requires f <= i < |entries| && FirstAt(entries, f) && entries[f].msg == entries[i].msg
    requires Compresses(entries[i].msg) && !SettledAt(entries, caches, i) && !Hopeless(entries, caches)
    requires entries[f].msg in Sizing(entries, NOTHING, caches).caches
    ensures f < later < |entries| && entries[later].msg == entries[f].msg
  {
    if j :| f < j < |entries| && entries[j].msg == entries[f].msg {
      later := j;
    } else {
      NothingAccepted(entries, caches, f + 1);
      FirstFinds(true, entries, NOTHING, caches, f);
      LastLeaves(true, entries, NOTHING, caches, f);
      assert Alone(entries, i);
      assert false;
    }
  }

  /** Both passes of encode see the same payloads, whatever the compressor gives on each, if and
      only if every compressed message object stands once in the set and has no cache when encode
      is called, unless the set holds a message that the sizing pass refuses in any case. */
  lemma PassesAgree(entries: seq<Entry>, caches: Caches)
    ensures AlwaysAgree(entries, caches) <==> Settled(entries, caches) || Hopeless(entries, caches)
  {
    hide SettledAt, RefusedAt, Pass;
    if Hopeless(entries, caches) {
      forall outs: Compressor, again: Compressor
        ensures Agree(entries, outs, again, caches)
      {
        HopelessRefused(entries, outs, caches);
      }
    } else if Settled(entries, caches) {
      forall outs: Compressor, again: Compressor
        ensures Agree(entries, outs, again, caches)
      {
        if !Sizing(entries, outs, caches).refused { SettledAgree(entries, outs, again, caches); }
      }
    } else {
      var i :| 0 <= i < |entries| && !SettledAt(entries, caches, i);
      if Compresses(entries[i].msg) {
        CompressedDiffers(entries, caches, i, if CacheOf(caches, entries[i].msg) == Some([1]) then [2] else [1]);
      } else {
        PlainDiffers(entries, caches, i);
      }
    }
  }

  /** What the block of one message comes to, and what in it can be too long. */
  lemma BlockSize(offset: int64, codec: int8, key: Option<seq<byte>>, payload: Option<seq<byte>>)
    ensures
      var block := BlockNodes(offset, MessageNode(codec, key, payload));
      && SizeAll(block) == 18 + Size(Bytes(key)) + Size(Bytes(payload))
      && AnyTooLong(block) == (Excess(key) || Excess(payload))
  {
    var content := [Int8(0), Int8(codec % 4), Bytes(key), Bytes(payload)];
    ContentSize(codec, key, payload);
    PairSize(Int64(offset), Length([Crc(content)]));
    WrapSize(offset, content);
    hide Size, SizeAll, AnyTooLong;
  }

  lemma ContentSize(codec: int8, key: Option<seq<byte>>, payload: Option<seq<byte>>)
    ensures
      var content := [Int8(0), Int8(codec % 4), Bytes(key), Bytes(payload)];
      && SizeAll(content) == 2 + Size(Bytes(key)) + Size(Bytes(payload))
      && AnyTooLong(content) == (TooLong(Bytes(key)) || TooLong(Bytes(payload)))
  {
    var front, values := [Int8(0), Int8(codec % 4)], [Bytes(key), Bytes(payload)];
    assert [Int8(0), Int8(codec % 4), Bytes(key), Bytes(payload)] == front + values;
    PairSize(Int8(0), Int8(codec % 4));
    PairSize(Bytes(key), Bytes(payload));
    SizeJoin(front, values);
  }

  lemma WrapSize(offset: int64, content: seq<Node>)
    ensures Size(Int64(offset)) == 8 && !TooLong(Int64(offset))
    ensures Size(Length([Crc(content)])) == 8 + SizeAll(content)
    ensures TooLong(Length([Crc(content)])) == AnyTooLong(content)
  {
    assert [Crc(content)][1..] == [];
    assert SizeAll([Crc(content)]) == 4 + SizeAll(content) && AnyTooLong([Crc(content)]) == AnyTooLong(content);
  }

  lemma PairSize(a: Node, b: Node)
    ensures SizeAll([a, b]) == Size(a) + Size(b)
    ensures AnyTooLong([a, b]) == (TooLong(a) || TooLong(b))
  {
    assert [a, b][1..] == [b] && [b][1..] == [];
    assert SizeAll([b]) == Size(b) && AnyTooLong([b]) == TooLong(b);
  }

  lemma {:induction false} SizeJoin(a: seq<Node>, b: seq<Node>)
    ensures SizeAll(a + b) == SizeAll(a) + SizeAll(b)
    ensures AnyTooLong(a + b) == (AnyTooLong(a) || AnyTooLong(b))
  {
    if a == [] {
      assert a + b == b;
    } else {
      assert (a + b)[1..] == a[1..] + b;
      SizeJoin(a[1..], b);
    }
  }

  /** One object twice: the writing pass compresses once more, and then asks for more bytes than
      the buffer has. */
  lemma TwiceOverflows(m: Message, again: Compressor)
    requires Compresses(m) && m.key == None && |again(0)| > 0
    ensures
      var entries := [Entry(0, m), Entry(0, m)];
      var first, second := Sizing(entries, NOTHING, map[]), Writing(entries, NOTHING, again, map[]);
      !first.refused && !second.refused && SizeAll(second.nodes) > SizeAll(first.nodes)
  {
    hide BlockNodes, MessageNode;
    var entries := [Entry(0, m), Entry(0, m)];
    var nothing := BlockNodes(0, MessageNode(m.codec, None, Some([])));
    var more := BlockNodes(0, MessageNode(m.codec, None, Some(again(0))));
    assert Pass(true, entries, NOTHING, 1, map[]) == Passed(nothing, map[m := []], false);
    assert Sizing(entries, NOTHING, map[]) == Passed(nothing + nothing, map[], false);
    assert Pass(false, entries, again, 1, map[]) == Passed(more, map[m := again(0)], false);
    assert Writing(entries, NOTHING, again, map[]) == Passed(more + more, map[], false);
    BlockSize(0, m.codec, None, Some([]));
    BlockSize(0, m.codec, None, Some(again(0)));
    SizeJoin(nothing, nothing);
    SizeJoin(more, more);
  }

  /** So it does for one object once, with a cache left from an earlier call. */
  lemma StaleOverflows(m: Message, again: Compressor)
    requires Compresses(m) && m.key == None && |again(0)| > 0
    ensures
      var entries := [Entry(0, m)];
      var first, second := Sizing(entries, NOTHING, map[m := []]), Writing(entries, NOTHING, again, map[m := []]);
      !first.refused && !second.refused && SizeAll(second.nodes) > SizeAll(first.nodes)
  {
    hide BlockNodes, MessageNode;
    var entries := [Entry(0, m)];
    var nothing := BlockNodes(0, MessageNode(m.codec, None, Some([])));
    var more := BlockNodes(0, MessageNode(m.codec, None, Some(again(0))));
    assert Pass(true, entries, NOTHING, 0, map[m := []]) == Passed([], map[m := []], false);
    assert Sizing(entries, NOTHING, map[m := []]) == Passed(nothing, map[], false);
    assert Pass(false, entries, again, 0, map[]) == Passed([], map[], false);
    assert Writing(entries, NOTHING, again, map[m := []]) == Passed(more, map[m := again(0)], false);
    BlockSize(0, m.codec, None, Some([]));
    BlockSize(0, m.codec, None, Some(again(0)));
  }

  // ----- compressors that repeat themselves -----

  /** Every cache is what the compressor makes of its message, and no other message has one. */
  ghost predicate Faithful(caches: Caches, made: Message -> seq<byte>) {
    forall m :: m in caches ==> Compresses(m) && caches[m] == made(m)
  }

  lemma RepeatedVisit(sizing: bool, e: Entry, p: Passed, made: Message -> seq<byte>)
    requires Faithful(p.caches, made)
    ensures
      var m := e.msg;
      var p' := Visit(sizing, e, made(m), p);
      && Faithful(p'.caches, made)
      && (!p'.refused ==>
            var payload := if Compresses(m) then Some(made(m)) else m.value;
            m.codec in {0, 1, 2} && p'.nodes == p.nodes + BlockNodes(e.offset, MessageNode(m.codec, m.key, payload)))
  {
    hide BlockNodes, MessageNode;
  }

  /** The writing encoder refuses nothing, so that only an unknown codec stops it. */
  lemma WritingAccepts(e: Entry, compressed: seq<byte>, p: Passed)
    requires !p.refused && e.msg.codec in {0, 1, 2}
    ensures !Visit(false, e, compressed, p).refused
  {
  }

  lemma {:induction false} RepeatedCaches(sizing: bool, entries: seq<Entry>, outs: Compressor, caches: Caches,
                                          made: Message -> seq<byte>, n: nat)
    requires n <= |entries| && Faithful(caches, made)
    requires forall i :: 0 <= i < |entries| ==> outs(i) == made(entries[i].msg)
    ensures Faithful(Pass(sizing, entries, outs, n, caches).caches, made)
  {
    if n > 0 {
      hide Visit, Faithful;
      RepeatedCaches(sizing, entries, outs, caches, made, n - 1);
      RepeatedVisit(sizing, entries[n - 1], Pass(sizing, entries, outs, n - 1, caches), made);
    }
  }

  /** With a compressor that gives the same bytes for the same message each time, messages may
      stand in a set more than once and may hold caches. */
  lemma RepeatedAgree(entries: seq<Entry>, outs: Compressor, again: Compressor, caches: Caches,
                      made: Message -> seq<byte>)
    requires Faithful(caches, made)
    requires forall i :: 0 <= i < |entries| ==> outs(i) == again(i) == made(entries[i].msg)
    ensures Agree(entries, outs, again, caches)
  {
    if !Sizing(entries, outs, caches).refused {
      RepeatedNodes(entries, outs, again, caches, made, |entries|);
    }
  }

  /** What both passes add for one message. */
  lemma RepeatedStep(entries: seq<Entry>, outs: Compressor, again: Compressor, caches: Caches,
                     made: Message -> seq<byte>, i: nat)
    requires i < |entries| && Faithful(caches, made) && !Sizing(entries, outs, caches).refused
    requires forall i :: 0 <= i < |entries| ==> outs(i) == again(i) == made(entries[i].msg)
    requires !Pass(false, entries, again, i, Sizing(entries, outs, caches).caches).refused
    ensures
      var e, p := entries[i], Pass(false, entries, again, i, Sizing(entries, outs, caches).caches);
      var payload := if Compresses(e.msg) then Some(made(e.msg)) else e.msg.value;
      var block := BlockNodes(e.offset, MessageNode(e.msg.codec, e.msg.key, payload));
      && Pass(true, entries, outs, i + 1, caches).nodes == Pass(true, entries, outs, i, caches).nodes + block
      && !Visit(false, e, again(i), p).refused && Visit(false, e, again(i), p).nodes == p.nodes + block
  {
    hide Visit, Faithful, BlockNodes, MessageNode;
    var left := Sizing(entries, outs, caches).caches;
    EarlierAccepted(true, entries, outs, caches, i + 1, |entries|);
    RepeatedCaches(true, entries, outs, caches, made, i);
    RepeatedCaches(true, entries, outs, caches, made, |entries|);
    RepeatedCaches(false, entries, again, left, made, i);
    RepeatedVisit(true, entries[i], Pass(true, entries, outs, i, caches), made);
    RepeatedVisit(false, entries[i], Pass(false, entries, again, i, left), made);
    WritingAccepts(entries[i], again(i), Pass(false, entries, again, i, left));
  }

  lemma {:induction false} RepeatedNodes(entries: seq<Entry>, outs: Compressor, again: Compressor, caches: Caches,
                                         made: Message -> seq<byte>, n: nat)
    requires n <= |entries| && Faithful(caches, made) && !Sizing(entries, outs, caches).refused
    requires forall i :: 0 <= i < |entries| ==> outs(i) == again(i) == made(entries[i].msg)
    ensures
      var second := Pass(false, entries, again, n, Sizing(entries, outs, caches).caches);
      !second.refused && second.nodes == Pass(true, entries, outs, n, caches).nodes
  {
    hide Visit, Faithful, BlockNodes, MessageNode;
    if n > 0 {
      RepeatedNodes(entries, outs, again, caches, made, n - 1);
      RepeatedStep(entries, outs, again, caches, made, n - 1);
    }
  }
}
