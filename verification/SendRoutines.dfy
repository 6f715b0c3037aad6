/** The send scheduler as it runs: flow-control windows with a shared connection window, one
    queue per busy stream, and a pool of empty queues for reuse. */
module SendRoutines {
  import opened Wrappers
  import opened SendSchedule

  const MAX_WINDOW := 0x7fff_ffff

  /** 32-bit wrap-around. */
  function Wrapped(v: int): int32 {
    (v + 0x8000_0000) % 0x1_0000_0000 - 0x8000_0000
  }

  /** flow.add on a window: None for a refusal. */
  function AddTo(window: int32, n: int32): Option<int32> {
    if n > Wrapped(MAX_WINDOW - window) then None else Some(Wrapped(window + n))
  }

  /** The sum as it should be, refused exactly when it passes 2^31-1. */
  function ExactSum(window: int32, n: int32): Option<int> {
    if window + n > MAX_WINDOW then None else Some(window + n)
  }

  function AsInt(o: Option<int32>): Option<int> {
    if o.None? then None else Some(o.value)
  }

  /** flow.add is exact precisely on windows that are not negative: on a negative one what is
      left to 2^31-1 wraps around, and every answer is wrong. */
  lemma AddIsExact(window: int32, n: int32)
    ensures AsInt(AddTo(window, n)) == ExactSum(window, n) <==> window >= 0
  {
    assert window >= 0 ==> Wrapped(MAX_WINDOW - window) == MAX_WINDOW - window;
    assert window < 0 ==> Wrapped(MAX_WINDOW - window) == MAX_WINDOW - window - 0x1_0000_0000;
  }

  class Flow {
    var n: int32
    var conn: Flow?

    constructor (n: int32)
      ensures this.n == n && conn == null
    {
      this.n, conn := n, null;
    }

    method SetConnFlow(cf: Flow?)
      modifies this
      ensures conn == cf && n == old(n)
    {
      conn := cf;
    }

    function Available(): int32
      reads this, conn
    {
      if conn != null && conn.n < n then conn.n else n
    }

    /** More than is available, or less than nothing, is a panic or worse. */
    method Take(amount: int32)
      requires 0 <= amount <= Available() && conn != this
      modifies {this} + if conn == null then {} else {conn}
      ensures n == old(n) - amount && conn == old(conn)
      ensures conn != null ==> conn.n == old(conn.n) - amount && conn.conn == old(conn.conn)
    {
      n := n - amount;
      if conn != null { conn.n := conn.n - amount; }
    }

    method Add(amount: int32) returns (ok: bool)
      modifies this`n
      ensures ok == AddTo(old(n), amount).Some?
      ensures n == if ok then AddTo(old(n), amount).value else old(n)
    {
      var remain := Wrapped(MAX_WINDOW - n);
      if amount > remain { return false; }
      n := Wrapped(n + amount);
      return true;
    }
  }

  class Stream {
    const id: nat
    const flow: Flow

    constructor (id: nat, flow: Flow)
      ensures this.id == id && this.flow == flow
    {
      this.id, this.flow := id, flow;
    }
  }

  datatype Msg = Msg(item: Item, stream: Stream?)

  function Items(ms: seq<Msg>): (r: seq<Item>)
    ensures |r| == |ms| && forall i :: 0 <= i < |ms| ==> r[i] == ms[i].item
  {
    if ms == [] then [] else [ms[0].item] + Items(ms[1..])
  }

  lemma ItemsNone()
    ensures Items([]) == []
  {
  }

  lemma ItemsOne(m: Msg)
    ensures Items([] + [m]) == [m.item] && [] + [m] == [m]
  {
  }

  lemma ItemsAppend(ms: seq<Msg>, m: Msg)
    ensures Items(ms + [m]) == Items(ms) + [m.item]
  {
  }

  lemma ItemsRest(ms: seq<Msg>)
    requires ms != []
    ensures Items(ms[1..]) == Items(ms)[1..] && Items(ms)[0] == ms[0].item
  {
  }

  /** A pointer to a queue. */
  type Ref = nat

  predicate NoRepeats(qs: seq<Ref>) {
    forall i, j :: 0 <= i < j < |qs| ==> qs[i] != qs[j]
  }

  predicate AllOf(ms: seq<Msg>, st: Stream) {
    forall m :: m in ms ==> m.stream == st
  }

  predicate Allocated(cells: map<Ref, seq<Msg>>, next: Ref) {
    forall q :: q in cells ==> q < next
  }

  function Contents(sq: map<nat, Ref>, cells: map<Ref, seq<Msg>>): (w: map<nat, seq<Item>>)
    ensures w.Keys == sq.Keys
    ensures forall id :: id in sq && sq[id] in cells ==> w[id] == Items(cells[sq[id]])
  {
    map id | id in sq :: if sq[id] in cells then Items(cells[sq[id]]) else []
  }

  lemma SameMap<T>(a: map<nat, T>, b: map<nat, T>)
    requires a.Keys == b.Keys && forall k :: k in a ==> a[k] == b[k]
    ensures a == b
  {
  }

  predicate Pooled(pool: seq<Ref>, cells: map<Ref, seq<Msg>>) {
    forall q :: q in pool ==> q in cells && cells[q] == []
  }

  predicate Injective(sq: map<nat, Ref>) {
    forall i, j :: i in sq && j in sq && i != j ==> sq[i] != sq[j]
  }

  ghost predicate Busy(sq: map<nat, Ref>, pool: seq<Ref>, cells: map<Ref, seq<Msg>>, streams: map<nat, Stream>, id: nat)
    requires id in sq
  {
    sq[id] in cells && sq[id] !in pool && cells[sq[id]] != [] && id in streams && AllOf(cells[sq[id]], streams[id])
  }

  lemma Overwritten(cells: map<Ref, seq<Msg>>, q: Ref, a: seq<Msg>, b: seq<Msg>)
    ensures cells[q := a][q := b] == cells[q := b]
  {
  }

  /** The queues of the scheduler: those in use by stream, those in the pool, and what each of
      them holds. No queue serves two purposes; pooled queues are empty, queues in use are
      not, and hold frames of their stream only. */
  ghost predicate QueuesValid(sq: map<nat, Ref>, pool: seq<Ref>, cells: map<Ref, seq<Msg>>, streams: map<nat, Stream>) {
    && NoRepeats(pool) && Pooled(pool, cells) && Injective(sq)
    && forall id :: id in sq ==> Busy(sq, pool, cells, streams, id)
  }

  /** One stream has a queue q that now holds ms; no other stream has that queue. */
  lemma ContentsSet(sq: map<nat, Ref>, cells: map<Ref, seq<Msg>>, id: nat, q: Ref, ms: seq<Msg>)
    requires forall k :: k in sq ==> sq[k] in cells && (k != id ==> sq[k] != q)
    ensures Contents(sq[id := q], cells[q := ms]) == Contents(sq, cells)[id := Items(ms)]
  {
    hide Items;
    SameMap(Contents(sq[id := q], cells[q := ms]), Contents(sq, cells)[id := Items(ms)]);
  }

  lemma InUse(sq: map<nat, Ref>, pool: seq<Ref>, cells: map<Ref, seq<Msg>>, streams: map<nat, Stream>)
    requires QueuesValid(sq, pool, cells, streams)
    ensures forall k :: k in sq ==> sq[k] in cells
    ensures forall k :: k in sq ==> sq[k] !in pool
    ensures forall q :: q in pool ==> q in cells && cells[q] == []
  {
    forall k | k in sq ensures sq[k] in cells && sq[k] !in pool {
      assert Busy(sq, pool, cells, streams, k);
    }
  }

  /** The queue of a busy stream holds other frames of the stream now. */
  lemma HeadKeeps(sq: map<nat, Ref>, pool: seq<Ref>, cells: map<Ref, seq<Msg>>, streams: map<nat, Stream>, id: nat,
                  ms: seq<Msg>)
    requires QueuesValid(sq, pool, cells, streams) && id in sq && ms != [] && AllOf(ms, streams[id])
    ensures
      var cells' := cells[sq[id] := ms];
      QueuesValid(sq, pool, cells', streams) && Contents(sq, cells') == Contents(sq, cells)[id := Items(ms)]
  {
    hide Items, NoRepeats, AllOf;
    InUse(sq, pool, cells, streams);
    ContentsSet(sq, cells, id, sq[id], ms);
    assert sq[id := sq[id]] == sq;
    var cells' := cells[sq[id] := ms];
    forall k | k in sq ensures Busy(sq, pool, cells', streams, k) {
      assert Busy(sq, pool, cells, streams, k);
    }
  }

  /** A frame joins the queue of a busy stream. */
  lemma PushKeeps(sq: map<nat, Ref>, pool: seq<Ref>, cells: map<Ref, seq<Msg>>, streams: map<nat, Stream>, id: nat,
                  m: Msg)
    requires QueuesValid(sq, pool, cells, streams) && id in sq && m.stream == streams[id]
    ensures
      var cells' := cells[sq[id] := cells[sq[id]] + [m]];
      QueuesValid(sq, pool, cells', streams)
      && Contents(sq, cells') == Contents(sq, cells)[id := Contents(sq, cells)[id] + [m.item]]
  {
    ItemsAppend(cells[sq[id]], m);
    assert Busy(sq, pool, cells, streams, id);
    assert AllOf(cells[sq[id]] + [m], streams[id]);
    hide Items, QueuesValid;
    HeadKeeps(sq, pool, cells, streams, id, cells[sq[id]] + [m]);
  }

  lemma PoolLast(pool: seq<Ref>)
    requires NoRepeats(pool) && pool != []
    ensures NoRepeats(pool[..|pool| - 1]) && pool[|pool| - 1] !in pool[..|pool| - 1]
  {
  }

  /** An idle stream gets a queue of its own, new or from the pool. */
  lemma NewQueueKeeps(sq: map<nat, Ref>, pool: seq<Ref>, cells: map<Ref, seq<Msg>>, streams: map<nat, Stream>,
                      id: nat, m: Msg, q: Ref, pool': seq<Ref>)
    requires QueuesValid(sq, pool, cells, streams) && id !in sq && id in streams && m.stream == streams[id]
    requires if pool == [] then q !in cells && pool' == [] else q == pool[|pool| - 1] && pool' == pool[..|pool| - 1]
    ensures
      var sq', cells' := sq[id := q], cells[q := [m]];
      QueuesValid(sq', pool', cells', streams) && Contents(sq', cells') == Contents(sq, cells)[id := [m.item]]
  {
    ItemsOne(m);
    assert AllOf([m], streams[id]);
    InUse(sq, pool, cells, streams);
    if pool != [] { PoolLast(pool); }
    assert NoRepeats(pool') && q !in pool' && forall p :: p in pool' ==> p in pool;
    assert Pooled(pool', cells);
    hide Items, NoRepeats, AllOf, QueuesValid, Pooled;
    ContentsSet(sq, cells, id, q, [m]);
    InstallKeeps(sq, pool, cells, streams, id, [m], q, pool');
  }

  lemma InstallKeeps(sq: map<nat, Ref>, pool: seq<Ref>, cells: map<Ref, seq<Msg>>, streams: map<nat, Stream>,
                     id: nat, ms: seq<Msg>, q: Ref, pool': seq<Ref>)
    requires QueuesValid(sq, pool, cells, streams) && id in streams && ms != [] && AllOf(ms, streams[id])
    requires NoRepeats(pool') && Pooled(pool', cells) && q !in pool' && (forall p :: p in pool' ==> p in pool)
    requires forall k :: k in sq ==> sq[k] != q
    ensures QueuesValid(sq[id := q], pool', cells[q := ms], streams)
  {
    hide NoRepeats, AllOf;
    var sq', cells' := sq[id := q], cells[q := ms];
    forall k | k in sq' ensures Busy(sq', pool', cells', streams, k) {
      if k != id { assert Busy(sq, pool, cells, streams, k); }
    }
  }

  /** A queue leaves the map, emptied, for the pool. */
  lemma RetireKeeps(sq: map<nat, Ref>, pool: seq<Ref>, cells: map<Ref, seq<Msg>>, streams: map<nat, Stream>, id: nat)
    requires QueuesValid(sq, pool, cells, streams) && id in sq
    ensures
      var sq', cells' := sq - {id}, cells[sq[id] := []];
      QueuesValid(sq', pool + [sq[id]], cells', streams) && Contents(sq', cells') == Contents(sq, cells) - {id}
  {
    InUse(sq, pool, cells, streams);
    var sq', cells', pool' := sq - {id}, cells[sq[id] := []], pool + [sq[id]];
    assert NoRepeats(pool');
    hide Items, NoRepeats, AllOf;
    assert Pooled(pool', cells');
    SameMap(Contents(sq', cells'), Contents(sq, cells) - {id});
    forall k | k in sq' ensures Busy(sq', pool', cells', streams, k) {
      assert Busy(sq, pool, cells, streams, k);
    }
  }

  /** takeFrom on values, case by case. */
  lemma TakeIs(s: Sched, id: nat)
    requires id in s.queues && s.queues[id] != [] && id in s.windows
    ensures
      var q, n := s.queues[id], Allowed(s, id);
      var i := q[0];
      var rest := if q[1..] == [] then s.queues - {id} else s.queues[id := q[1..]];
      && (Costless(i) ==> TakeFrom(s, id) == (i, s.(queues := rest)))
      && (!Costless(i) && 0 < n < |i.p| ==>
            TakeFrom(s, id) == (Data(i.p[..n], false, false),
                                s.(queues := s.queues[id := [i.(p := i.p[n..])] + q[1..]],
                                   windows := s.windows[id := s.windows[id] - n], conn := s.conn - n)))
      && (!Costless(i) && 0 < n && |i.p| <= n ==>
            TakeFrom(s, id) == (i, s.(queues := rest, windows := s.windows[id := s.windows[id] - |i.p|],
                                      conn := s.conn - |i.p|)))
  {
  }

  ghost function FlowsOf(conn: Flow, streams: map<nat, Stream>): set<Flow> {
    {conn} + (set id | id in streams :: streams[id].flow)
  }

  /** Streams share the connection's window and nothing else. */
  ghost predicate FlowsValid(conn: Flow, streams: map<nat, Stream>)
    reads FlowsOf(conn, streams)
  {
    && conn.conn == null
    && (forall id :: id in streams ==>
          streams[id].id == id && streams[id].flow != conn && streams[id].flow.conn == conn)
    && (forall i, j :: i in streams && j in streams && i != j ==> streams[i].flow != streams[j].flow)
  }

  ghost function Windows(streams: map<nat, Stream>): (w: map<nat, int>)
    reads set id | id in streams :: streams[id].flow
    ensures w.Keys == streams.Keys && forall id :: id in streams ==> w[id] == streams[id].flow.n
  {
    map id | id in streams :: streams[id].flow.n
  }

  lemma BusyStill(sq: map<nat, Ref>, pool: seq<Ref>, cells: map<Ref, seq<Msg>>, streams: map<nat, Stream>,
                  streams': map<nat, Stream>)
    requires QueuesValid(sq, pool, cells, streams)
    requires forall id :: id in streams ==> id in streams' && streams'[id] == streams[id]
    ensures QueuesValid(sq, pool, cells, streams')
  {
    forall k | k in sq ensures Busy(sq, pool, cells, streams', k) {
      assert Busy(sq, pool, cells, streams, k);
    }
  }

  lemma StepsAre(s: Sched, id: nat, item: Item)
    ensures Step(s, AddZero(item), s.(zero := s.zero + [item]))
    ensures id in s.windows ==> Step(s, Add(id, item), s.(queues := s.queues[id := QueueOf(s, id) + [item]]))
    ensures Step(s, Forget(id), s.(queues := s.queues - {id}))
  {
  }

  class WriteScheduler {
    var zero: seq<Msg>
    var maxFrameSize: nat
    var sq: map<nat, Ref>
    var queuePool: seq<Ref>
    /** What the queues hold. */
    var cells: map<Ref, seq<Msg>>
    /** The next pointer that new would give. */
    var nextRef: Ref
    /** The connection's window, and the streams that may queue frames. */
    ghost const conn: Flow
    ghost var streams: map<nat, Stream>

    ghost predicate Valid()
      reads this, FlowsOf(conn, streams)
    {
      && 0 < maxFrameSize <= 0xff_ffff && FlowsValid(conn, streams)
      && QueuesValid(sq, queuePool, cells, streams) && Allocated(cells, nextRef)
    }

    ghost function View(): Sched
      requires Valid()
      reads this, FlowsOf(conn, streams)
    {
      Sched(Items(zero), Contents(sq, cells), Windows(streams), conn.n, maxFrameSize)
    }

    constructor (ghost connFlow: Flow, size: nat)
      requires connFlow.conn == null && 0 < size <= 0xff_ffff
      ensures Valid() && View() == Sched([], map[], map[], connFlow.n, size) && conn == connFlow
    {
      conn := connFlow;
      zero, maxFrameSize, sq, queuePool, cells, nextRef, streams := [], size, map[], [], map[], 0, map[];
      new;
      SameMap(Contents(sq, cells), map[]);
      SameMap(Windows(streams), map[]);
    }

    /** A stream with a window of its own, tied to the connection's, may now queue frames. */
    ghost method OpenStream(st: Stream)
      requires Valid() && st.id !in streams && st.id !in sq
      requires st.flow != conn && st.flow.conn == conn && st.flow !in FlowsOf(conn, streams)
      modifies this`streams
      ensures Valid() && streams == old(streams)[st.id := st]
      ensures Step(old(View()), Open(st.id, st.flow.n), View())
    {
      hide Items, Contents;
      streams := streams[st.id := st];
      SameMap(Windows(streams), old(Windows(streams))[st.id := st.flow.n]);
      BusyStill(sq, queuePool, cells, old(streams), streams);
      hide QueuesValid;
    }

    method PutEmptyQueue(q: Ref)
      requires q in cells && cells[q] == []
      modifies this`queuePool
      ensures queuePool == old(queuePool) + [q]
    {
      queuePool := queuePool + [q];
    }

    /** The queue added to the pool last, or a new one. */
    method GetEmptyQueue() returns (q: Ref)
      requires (forall p :: p in queuePool ==> p in cells) && Allocated(cells, nextRef)
      modifies this`queuePool, this`cells, this`nextRef
      ensures Allocated(cells, nextRef)
      ensures if old(queuePool) == [] then q !in old(cells) && cells == old(cells)[q := []] && queuePool == []
              else && q == old(queuePool)[|old(queuePool)| - 1] && queuePool == old(queuePool)[..|old(queuePool)| - 1]
                   && cells == old(cells)
    {
      var ln := |queuePool|;
      if ln == 0 {
        q := nextRef;
        nextRef := nextRef + 1;
        cells := cells[q := []];
        return;
      }
      q := queuePool[ln - 1];
      queuePool := queuePool[..ln - 1];
    }

    method PushZero(wm: Msg)
      modifies this`zero
      ensures zero == old(zero) + [wm]
    {
      zero := zero + [wm];
    }

    /** streamQueue, for a stream that has no queue yet. */
    method StreamQueue(id: nat, ghost wm: Msg) returns (q: Ref)
      requires QueuesValid(sq, queuePool, cells, streams) && Allocated(cells, nextRef)
      requires id !in sq && id in streams && wm.stream == streams[id]
      modifies this`sq, this`queuePool, this`cells, this`nextRef
      ensures sq == old(sq)[id := q] && q in cells && cells[q] == [] && Allocated(cells, nextRef)
      ensures
        var cells' := cells[q := [wm]];
        && QueuesValid(sq, queuePool, cells', streams)
        && Contents(sq, cells') == old(Contents(sq, cells))[id := [wm.item]]
    {
      hide QueuesValid, Contents;
      ghost var pool, cells0 := queuePool, cells;
      InUse(sq, pool, cells, streams);
      q := GetEmptyQueue();
      Overwritten(cells0, q, [], [wm]);
      NewQueueKeeps(sq, pool, cells0, streams, id, wm, q, queuePool);
      sq := sq[id := q];
      assert cells[q := [wm]] == cells0[q := [wm]];
    }

    /** The frame goes to the queue of its stream. */
    method PushStream(id: nat, wm: Msg)
      requires QueuesValid(sq, queuePool, cells, streams) && Allocated(cells, nextRef)
      requires id in streams && wm.stream == streams[id]
      modifies this`sq, this`queuePool, this`cells, this`nextRef
      ensures QueuesValid(sq, queuePool, cells, streams) && Allocated(cells, nextRef)
      ensures
        var w := old(Contents(sq, cells));
        Contents(sq, cells) == w[id := (if id in w then w[id] else []) + [wm.item]]
    {
      hide QueuesValid, Contents, Items;
      InUse(sq, queuePool, cells, streams);
      if id in sq {
        PushKeeps(sq, queuePool, cells, streams, id, wm);
        cells := cells[sq[id] := cells[sq[id]] + [wm]];
      } else {
        var q := StreamQueue(id, wm);
        assert [] + [wm] == [wm] && [] + [wm.item] == [wm.item];
        cells := cells[q := cells[q] + [wm]];
      }
    }

    /** add */
    method AddFrame(wm: Msg)
      requires Valid()
      requires wm.stream != null ==> wm.stream.id in streams && streams[wm.stream.id] == wm.stream
      modifies this`zero, this`sq, this`queuePool, this`cells, this`nextRef
      ensures Valid() && streams == old(streams)
      ensures Step(old(View()), if wm.stream == null then AddZero(wm.item) else Add(wm.stream.id, wm.item), View())
    {
      hide QueuesValid, Items, Contents, Step;
      StepsAre(View(), if wm.stream == null then 0 else wm.stream.id, wm.item);
      if wm.stream == null {
        ItemsAppend(zero, wm);
        PushZero(wm);
      } else {
        PushStream(wm.stream.id, wm);
      }
    }

    /** The stream's queue leaves the map, emptied, for the pool. */
    method Retire(id: nat)
      requires QueuesValid(sq, queuePool, cells, streams) && Allocated(cells, nextRef) && id in sq
      modifies this`sq, this`queuePool, this`cells
      ensures QueuesValid(sq, queuePool, cells, streams) && Allocated(cells, nextRef)
      ensures Contents(sq, cells) == old(Contents(sq, cells)) - {id}
    {
      hide QueuesValid, Contents;
      InUse(sq, queuePool, cells, streams);
      RetireKeeps(sq, queuePool, cells, streams, id);
      var q := sq[id];
      sq := sq - {id};
      cells := cells[q := []];
      PutEmptyQueue(q);
    }

    method ForgetStream(id: nat)
      requires Valid()
      modifies this`sq, this`queuePool, this`cells
      ensures Valid() && streams == old(streams) && Step(old(View()), Forget(id), View())
    {
      hide Items, Step, Contents, QueuesValid;
      InUse(sq, queuePool, cells, streams);
      StepsAre(View(), id, Control(0, false));
      if id !in sq {
        SameMap(Contents(sq, cells) - {id}, Contents(sq, cells));
        return;
      }
      Retire(id);
    }

    /** streamWritableBytes: how many DATA bytes could go from this queue, whose head is DATA. */
    function StreamWritableBytes(q: Ref): (ret: int)
      requires q in cells && cells[q] != [] && cells[q][0].item.Data? && cells[q][0].stream != null
      reads this, cells[q][0].stream, cells[q][0].stream.flow, cells[q][0].stream.flow.conn
    {
      var wm := cells[q][0];
      var available := wm.stream.flow.Available();
      if available == 0 then 0
      else
        var n := if maxFrameSize < available then maxFrameSize else available;
        if |wm.item.p| < n then |wm.item.p| else n
    }

    /** The windows pay for DATA of one stream. */
    method Spend(st: Stream, amount: int32)
      requires FlowsValid(conn, streams) && st.id in streams && streams[st.id] == st
      requires 0 <= amount <= st.flow.Available()
      modifies st.flow, conn
      ensures FlowsValid(conn, streams) && conn.n == old(conn.n) - amount
      ensures Windows(streams) == old(Windows(streams))[st.id := old(Windows(streams))[st.id] - amount]
    {
      st.flow.Take(amount);
      SameMap(Windows(streams), old(Windows(streams))[st.id := old(Windows(streams))[st.id] - amount]);
    }

    /** The head of a queue is gone; a queue that is empty then goes back to the pool. */
    method Shift(id: nat)
      requires QueuesValid(sq, queuePool, cells, streams) && Allocated(cells, nextRef) && id in sq
      requires sq[id] in cells && cells[sq[id]] != []
      modifies this`sq, this`queuePool, this`cells
      ensures QueuesValid(sq, queuePool, cells, streams) && Allocated(cells, nextRef)
      ensures
        var w := old(Contents(sq, cells));
        id in w && w[id] != [] && Contents(sq, cells) == if w[id][1..] == [] then w - {id} else w[id := w[id][1..]]
    {
      var q := sq[id];
      var rest := cells[q][1..];
      ItemsRest(cells[q]);
      InUse(sq, queuePool, cells, streams);
      if rest == [] {
        hide QueuesValid, Contents, Items;
        Retire(id);
      } else {
        assert Busy(sq, queuePool, cells, streams, id);
        assert AllOf(rest, streams[id]);
        HeadKeeps(sq, queuePool, cells, streams, id, rest);
        hide QueuesValid, Contents, Items;
        cells := cells[q := rest];
      }
    }

    /** The head of a queue gives up its first n bytes. */
    method CutHead(id: nat, n: nat) returns (chunk: Item)
      requires QueuesValid(sq, queuePool, cells, streams) && Allocated(cells, nextRef) && id in sq
      requires sq[id] in cells && cells[sq[id]] != []
      requires cells[sq[id]][0].item.Data? && n < |cells[sq[id]][0].item.p|
      modifies this`cells
      ensures QueuesValid(sq, queuePool, cells, streams) && Allocated(cells, nextRef)
      ensures chunk == Data(old(cells[sq[id]][0].item.p)[..n], false, false)
      ensures
        var w := old(Contents(sq, cells));
        id in w && w[id] != [] && w[id][0] == old(cells[sq[id]][0].item)
        && Contents(sq, cells) == w[id := [w[id][0].(p := w[id][0].p[n..])] + w[id][1..]]
    {
      var q := sq[id];
      var ms := cells[q];
      var wm := ms[0];
      ItemsRest(ms);
      InUse(sq, queuePool, cells, streams);
      assert Busy(sq, queuePool, cells, streams, id);
      chunk := Data(wm.item.p[..n], false, false);
      var left := [Msg(wm.item.(p := wm.item.p[n..]), wm.stream)] + ms[1..];
      assert left[1..] == ms[1..];
      assert AllOf(left, streams[id]);
      HeadKeeps(sq, queuePool, cells, streams, id, left);
      hide QueuesValid, Contents;
      cells := cells[q := left];
    }

    /** The window pays, if there is anything to pay, and the head is gone. */
    method PayAndShift(id: nat, st: Stream, amount: int32)
      requires FlowsValid(conn, streams) && id in streams && streams[id] == st
      requires QueuesValid(sq, queuePool, cells, streams) && Allocated(cells, nextRef) && id in sq
      requires sq[id] in cells && cells[sq[id]] != []
      requires amount != 0 ==> 0 <= amount <= st.flow.Available()
      modifies this`sq, this`queuePool, this`cells, st.flow, conn
      ensures FlowsValid(conn, streams) && conn.n == old(conn.n) - amount
      ensures Windows(streams) == if amount == 0 then old(Windows(streams))
                                  else old(Windows(streams))[id := old(Windows(streams))[id] - amount]
      ensures QueuesValid(sq, queuePool, cells, streams) && Allocated(cells, nextRef)
      ensures
        var w := old(Contents(sq, cells));
        id in w && w[id] != [] && Contents(sq, cells) == if w[id][1..] == [] then w - {id} else w[id := w[id][1..]]
    {
      hide QueuesValid, Contents, Items;
      if amount != 0 {
        Spend(st, amount);
      } else {
        SameMap(Windows(streams), old(Windows(streams)));
      }
      Shift(id);
    }

    /** The window pays for a chunk, and the head gives it up. */
    method PayAndCut(id: nat, st: Stream, n: int32) returns (chunk: Item)
      requires FlowsValid(conn, streams) && id in streams && streams[id] == st
      requires QueuesValid(sq, queuePool, cells, streams) && Allocated(cells, nextRef) && id in sq
      requires sq[id] in cells && cells[sq[id]] != []
      requires 0 <= n <= st.flow.Available()
      requires cells[sq[id]][0].item.Data? && n < |cells[sq[id]][0].item.p|
      modifies this`cells, st.flow, conn
      ensures FlowsValid(conn, streams) && conn.n == old(conn.n) - n
      ensures Windows(streams) == old(Windows(streams))[id := old(Windows(streams))[id] - n]
      ensures QueuesValid(sq, queuePool, cells, streams) && Allocated(cells, nextRef)
      ensures chunk == Data(old(cells[sq[id]][0].item.p)[..n], false, false)
      ensures
        var w := old(Contents(sq, cells));
        id in w && w[id] != [] && w[id][0] == old(cells[sq[id]][0].item)
        && Contents(sq, cells) == w[id := [w[id][0].(p := w[id][0].p[n..])] + w[id][1..]]
    {
      hide QueuesValid, Contents, Items;
      Spend(st, n);
      chunk := CutHead(id, n);
    }

    /** takeFrom. It is called on queues whose window is not negative. */
    method TakeHead(id: nat, q: Ref) returns (wm: Msg, ok: bool)
      requires Valid() && id in sq && q == sq[id] && id in streams && View().queues[id] != []
      requires Costless(View().queues[id][0]) || Min(View().windows[id], View().conn) >= 0
      modifies this`sq, this`queuePool, this`cells, streams[id].flow, conn
      ensures Valid() && streams == old(streams)
      ensures
        var s := old(View());
        if Costless(s.queues[id][0]) || Allowed(s, id) > 0 then
          ok && (wm.item, View()) == TakeFrom(s, id) && wm.stream == streams[id]
        else
          !ok && View() == s
    {
      hide QueuesValid, Items, Contents, FlowsValid, Windows, TakeFrom;
      TakeIs(View(), id);
      HeadIs(sq, queuePool, cells, streams, id);
      wm := cells[q][0];
      if wm.item.Data? && |wm.item.p| > 0 {
        StreamIs(conn, streams, id);
        var allowed: int := wm.stream.flow.Available();
        if allowed == 0 { return wm, false; }
        if maxFrameSize < allowed { allowed := maxFrameSize; }
        if |wm.item.p| > allowed {
          var chunk := PayAndCut(id, wm.stream, allowed);
          return Msg(chunk, wm.stream), true;
        }
        PayAndShift(id, wm.stream, |wm.item.p|);
      } else {
        PayAndShift(id, wm.stream, 0);
      }
      return wm, true;
    }

    /** The first loop of take: a stream whose head costs nothing, in whatever order the map
        gives them. */
    method FindCostless() returns (id: nat, found: bool)
      requires Valid()
      ensures found ==> id in sq && Costless(View().queues[id][0])
      ensures !found ==> forall k :: k in sq ==> !Costless(View().queues[k][0])
    {
      hide Items, Contents, FlowsValid, Windows;
      AllHeads(sq, queuePool, cells, streams);
      hide QueuesValid;
      id, found := 0, false;
      var todo := sq.Keys;
      while todo != {}
        invariant todo <= sq.Keys
        invariant forall k :: k in sq && k !in todo ==> !Costless(View().queues[k][0])
        decreases |todo|
      {
        var k :| k in todo;
        var head := cells[sq[k]][0];
        if !head.item.Data? || |head.item.p| == 0 { return k, true; }
        todo := todo - {k};
      }
    }

    /** A head that costs something can go in part exactly when something is allowed. */
    lemma Writable(k: nat)
      requires Valid() && k in sq && k in View().windows && View().queues[k] != [] && !Costless(View().queues[k][0])
      ensures sq[k] in cells && cells[sq[k]] != [] && cells[sq[k]][0].item.Data? && cells[sq[k]][0].stream != null
      ensures StreamWritableBytes(sq[k]) > 0 <==> Allowed(View(), k) > 0
    {
      hide Items, Contents, FlowsValid, Windows, QueuesValid;
      HeadIs(sq, queuePool, cells, streams, k);
      StreamIs(conn, streams, k);
    }

    /** The second loop: the queues that could send something now, with their streams. */
    method CollectSendable() returns (qs: seq<Ref>, ghost ids: seq<nat>)
      requires Valid() && forall k :: k in sq ==> !Costless(View().queues[k][0])
      ensures |qs| == |ids| && forall i :: 0 <= i < |ids| ==> ids[i] in sq && qs[i] == sq[ids[i]]
      ensures forall k :: k in sq && k in View().windows ==> (k in ids <==> Allowed(View(), k) > 0)
    {
      hide QueuesValid, Contents, Items, FlowsValid, Windows, Allocated, Costless, Allowed;
      AllHeads(sq, queuePool, cells, streams);
      ghost var s := View();
      assert forall k :: k in sq ==> k in s.windows && s.queues[k] != [] && !Costless(s.queues[k][0]);
      hide View, Valid, StreamWritableBytes;
      qs, ids := [], [];
      var todo := sq.Keys;
      while todo != {}
        invariant Valid() && View() == s
        invariant todo <= sq.Keys && |qs| == |ids|
        invariant forall i :: 0 <= i < |ids| ==> ids[i] in sq && ids[i] !in todo && qs[i] == sq[ids[i]]
        invariant forall k :: k in sq && k !in todo ==> (k in ids <==> Allowed(s, k) > 0)
        decreases |todo|
      {
        var k :| k in todo;
        Writable(k);
        if StreamWritableBytes(sq[k]) > 0 {
          qs, ids := qs + [sq[k]], ids + [k];
        }
        todo := todo - {k};
      }
    }

    method PopZero() returns (wm: Msg)
      requires Valid() && zero != []
      modifies this`zero
      ensures Valid() && View() == old(View()).(zero := old(View()).zero[1..])
      ensures old(View()).zero != [] && wm.item == old(View()).zero[0]
    {
      ItemsRest(zero);
      hide Items, Contents, QueuesValid;
      wm := zero[0];
      zero := zero[1..];
    }

    /** The part of take that looks at streams. */
    method TakeFromStream() returns (wm: Msg, ok: bool)
      requires Valid() && zero == []
      modifies this`sq, this`queuePool, this`cells, FlowsOf(conn, streams)
      ensures Valid() && streams == old(streams) && zero == []
      ensures
        var s := old(View());
        if !ok then NothingToTake(s) && View() == s
        else wm.stream != null && MayTake(s, wm.stream.id) && (wm.item, View()) == TakeFrom(s, wm.stream.id)
    {
      hide Items, Contents, FlowsValid, Windows, TakeFrom, QueuesValid, Allocated;
      AllHeads(sq, queuePool, cells, streams);
      ItemsNone();
      wm, ok := Msg(Control(0, false), null), false;
      if |sq| == 0 { return; }
      var id, found := FindCostless();
      if found {
        StreamIs(conn, streams, id);
        wm, ok := TakeHead(id, sq[id]);
        return;
      }
      ghost var ids;
      var qs;
      qs, ids := CollectSendable();
      if qs == [] { return; }
      var q := qs[0];
      id := cells[q][0].stream.id;
      StreamIs(conn, streams, ids[0]);
      assert id == ids[0];
      assert ids[0] in ids;
      wm, ok := TakeHead(id, q);
    }

    /** take. (The list of candidates is local; the source keeps one slice for it, which it
        leaves empty.) */
    method TakeNext() returns (wm: Msg, ok: bool)
      requires Valid()
      modifies this`zero, this`sq, this`queuePool, this`cells, FlowsOf(conn, streams)
      ensures Valid() && streams == old(streams)
      ensures
        var s := old(View());
        if !ok then Step(s, TakeNothing, View())
        else if s.zero != [] then Step(s, TakeZero(wm.item), View())
        else wm.stream != null && Step(s, Take(wm.stream.id, wm.item), View())
    {
      hide Items, Contents, FlowsValid, Windows, TakeFrom, QueuesValid, MayTake, NothingToTake, Allocated;
      ItemsNone();
      if zero != [] {
        wm := PopZero();
        return wm, true;
      }
      wm, ok := TakeFromStream();
    }
  }

  lemma AllHeads(sq: map<nat, Ref>, pool: seq<Ref>, cells: map<Ref, seq<Msg>>, streams: map<nat, Stream>)
    requires QueuesValid(sq, pool, cells, streams)
    ensures forall k :: k in sq ==>
              && sq[k] in cells && cells[sq[k]] != [] && k in streams && cells[sq[k]][0].stream == streams[k]
              && Contents(sq, cells)[k] != [] && Contents(sq, cells)[k][0] == cells[sq[k]][0].item
  {
    hide QueuesValid, Contents, Items;
    forall k | k in sq
      ensures sq[k] in cells && cells[sq[k]] != [] && k in streams && cells[sq[k]][0].stream == streams[k]
      ensures Contents(sq, cells)[k] != [] && Contents(sq, cells)[k][0] == cells[sq[k]][0].item
    {
      HeadIs(sq, pool, cells, streams, k);
    }
  }

  lemma HeadIs(sq: map<nat, Ref>, pool: seq<Ref>, cells: map<Ref, seq<Msg>>, streams: map<nat, Stream>, id: nat)
    requires QueuesValid(sq, pool, cells, streams) && id in sq
    ensures sq[id] in cells && cells[sq[id]] != [] && id in streams && cells[sq[id]][0].stream == streams[id]
    ensures forall k :: k in sq ==> sq[k] in cells
    ensures Contents(sq, cells)[id] != [] && Contents(sq, cells)[id][0] == cells[sq[id]][0].item
  {
    InUse(sq, pool, cells, streams);
    assert Busy(sq, pool, cells, streams, id);
    ItemsRest(cells[sq[id]]);
    hide Items;
    assert cells[sq[id]][0] in cells[sq[id]];
  }

  lemma StreamIs(conn: Flow, streams: map<nat, Stream>, id: nat)
    requires FlowsValid(conn, streams) && id in streams
    ensures streams[id].id == id && streams[id].flow != conn && streams[id].flow.conn == conn
    ensures streams[id].flow.Available() == Min(Windows(streams)[id], conn.n)
  {
  }
}
