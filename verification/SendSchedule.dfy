/** The HTTP/2 send scheduler as a step system on values: frames wait in a queue per stream,
    DATA is cut to fit the flow-control windows and the frame size (section 6.9 of RFC 7540),
    and nothing is lost, reordered or invented on the way. */
module SendSchedule {
  import opened Wrappers
  import opened Base128

  /** A frame to write. `done` says that somebody waits for it to be written. */
  datatype Item = Data(p: seq<byte>, endStream: bool, done: bool) | Control(what: nat, done: bool)

  /** Queues of waiting frames, send windows (which may be negative), and the largest DATA
      frame. */
  datatype Sched = Sched(
    zero: seq<Item>, queues: map<nat, seq<Item>>, windows: map<nat, int>, conn: int, maxFrameSize: nat)

  datatype Event =
    | Open(id: nat, window: int)
    | Add(id: nat, item: Item)
    | AddZero(item: Item)
    | TakeZero(item: Item)
    | Take(id: nat, item: Item)
    | TakeNothing
    | Forget(id: nat)
    | Grow(id: nat, n: int)
    | GrowConn(n: int)
    | SetMaxFrameSize(size: nat)

  function QueueOf(s: Sched, id: nat): seq<Item> {
    if id in s.queues then s.queues[id] else []
  }

  predicate Costless(i: Item) {
    i.Data? ==> i.p == []
  }

  /** What stream id may send now. */
  function Allowed(s: Sched, id: nat): int
    requires id in s.windows
  {
    Min(Min(s.windows[id], s.conn), s.maxFrameSize)
  }

  function Drop(s: Sched, id: nat): Sched
    requires id in s.queues && s.queues[id] != []
  {
    var rest := s.queues[id][1..];
    s.(queues := if rest == [] then s.queues - {id} else s.queues[id := rest])
  }

  function Spend(s: Sched, id: nat, n: int): Sched
    requires id in s.windows
  {
    s.(windows := s.windows[id := s.windows[id] - n], conn := s.conn - n)
  }

  /** takeFrom on a queue whose head may go: what is written, and what is left. */
  function TakeFrom(s: Sched, id: nat): (Item, Sched)
    requires id in s.queues && s.queues[id] != [] && id in s.windows
    requires Costless(s.queues[id][0]) || Allowed(s, id) > 0
  {
    var q := s.queues[id];
    var i := q[0];
    if Costless(i) then (i, Drop(s, id))
    else
      var n := Allowed(s, id);
      if |i.p| > n then
        (Data(i.p[..n], false, false), Spend(s, id, n).(queues := s.queues[id := [i.(p := i.p[n..])] + q[1..]]))
      else
        (i, Spend(Drop(s, id), id, |i.p|))
  }

  /** take may choose this stream: free frames go before DATA, DATA only into open windows. */
  ghost predicate MayTake(s: Sched, id: nat) {
    && s.zero == [] && id in s.queues && s.queues[id] != [] && id in s.windows
    && (Costless(s.queues[id][0])
        || (Allowed(s, id) > 0 && forall k :: k in s.queues && s.queues[k] != [] ==> !Costless(s.queues[k][0])))
  }

  ghost predicate NothingToTake(s: Sched) {
    && s.zero == []
    && forall k :: k in s.queues && s.queues[k] != [] ==>
         k in s.windows ==> !Costless(s.queues[k][0]) && Allowed(s, k) <= 0
  }

  ghost predicate Step(s: Sched, e: Event, s': Sched) {
    match e
    case Open(id, window) => id !in s.queues && s' == s.(windows := s.windows[id := window])
    case Add(id, item) => id in s.windows && s' == s.(queues := s.queues[id := QueueOf(s, id) + [item]])
    case AddZero(item) => s' == s.(zero := s.zero + [item])
    case TakeZero(item) => s.zero != [] && item == s.zero[0] && s' == s.(zero := s.zero[1..])
    case Take(id, item) => MayTake(s, id) && (item, s') == TakeFrom(s, id)
    case TakeNothing => NothingToTake(s) && s' == s
    case Forget(id) => s' == s.(queues := s.queues - {id})
    case Grow(id, n) => id in s.windows && s' == s.(windows := s.windows[id := s.windows[id] + n])
    case GrowConn(n) => s' == s.(conn := s.conn + n)
    case SetMaxFrameSize(size) => size > 0 && s' == s.(maxFrameSize := size)
  }

  ghost predicate Run(ss: seq<Sched>, es: seq<Event>) {
    && |ss| == |es| + 1 && ss[0].zero == [] && ss[0].queues == map[] && ss[0].windows == map[]
    && forall i :: 0 <= i < |es| ==> Step(ss[i], es[i], ss[i + 1])
  }

  // ----- the books of a run -----

  /** What was added to the queue of a stream since it was last forgotten. */
  function AddedTo(es: seq<Event>, id: nat): seq<Item> {
    if es == [] then []
    else
      var e, before := es[|es| - 1], AddedTo(es[..|es| - 1], id);
      if e.Add? && e.id == id then before + [e.item] else if e.Forget? && e.id == id then [] else before
  }

  function TakenFrom(es: seq<Event>, id: nat): seq<Item> {
    if es == [] then []
    else
      var e, before := es[|es| - 1], TakenFrom(es[..|es| - 1], id);
      if e.Take? && e.id == id then before + [e.item] else if e.Forget? && e.id == id then [] else before
  }

  function Cost(i: Item): nat {
    if i.Data? then |i.p| else 0
  }

  /** DATA bytes taken from a stream since it was opened, and the window it was given. */
  function Spent(es: seq<Event>, id: nat): int {
    if es == [] then 0
    else
      var e, before := es[|es| - 1], Spent(es[..|es| - 1], id);
      if e.Take? && e.id == id then before + Cost(e.item) else if e.Open? && e.id == id then 0 else before
  }

  function Granted(es: seq<Event>, id: nat): int {
    if es == [] then 0
    else
      var e, before := es[|es| - 1], Granted(es[..|es| - 1], id);
      if e.Grow? && e.id == id then before + e.n else if e.Open? && e.id == id then e.window else before
  }

  function SpentInAll(es: seq<Event>): int {
    if es == [] then 0
    else
      var e := es[|es| - 1];
      SpentInAll(es[..|es| - 1]) + if e.Take? then Cost(e.item) else 0
  }

  function GrantedInAll(es: seq<Event>): int {
    if es == [] then 0
    else
      var e := es[|es| - 1];
      GrantedInAll(es[..|es| - 1]) + if e.GrowConn? then e.n else 0
  }

  /** got is the frames of added, in order, some DATA frames cut into nonempty pieces: only the
      last piece of a frame ends the stream and is waited for. */
  ghost predicate SplitOf(added: seq<Item>, got: seq<Item>)
    decreases |got|
  {
    if got == [] then added == []
    else
      && added != []
      && (|| (got[0] == added[0] && SplitOf(added[1..], got[1..]))
          || (PieceOf(added[0], got[0]) && SplitOf([After(added[0], got[0])] + added[1..], got[1..])))
  }

  /** c is the beginning of the DATA frame i, but not all of it. */
  predicate PieceOf(i: Item, c: Item) {
    i.Data? && c.Data? && !c.endStream && !c.done && 0 < |c.p| < |i.p| && c.p == i.p[..|c.p|]
  }

  function After(i: Item, c: Item): Item
    requires PieceOf(i, c)
  {
    i.(p := i.p[|c.p|..])
  }

  lemma {:induction false} SplitAppend(added: seq<Item>, got: seq<Item>, x: Item)
    requires SplitOf(added, got)
    ensures SplitOf(added + [x], got + [x])
    decreases |got|
  {
    if got == [] {
      assert [x][1..] == [];
    } else {
      assert (got + [x])[1..] == got[1..] + [x];
      if got[0] == added[0] && SplitOf(added[1..], got[1..]) {
        SplitAppend(added[1..], got[1..], x);
        assert (added + [x])[1..] == added[1..] + [x];
      } else {
        var later := [After(added[0], got[0])] + added[1..];
        SplitAppend(later, got[1..], x);
        assert [After(added[0], got[0])] + (added + [x])[1..] == later + [x];
      }
    }
  }

  /** Cutting one more DATA frame, wherever it is. */
  lemma {:induction false} SplitCut(added: seq<Item>, before: seq<Item>, i: Item, c: Item, behind: seq<Item>)
    requires PieceOf(i, c) && SplitOf(added, before + [i] + behind)
    ensures SplitOf(added, before + [c] + ([After(i, c)] + behind))
    decreases |before|
  {
    var got, got' := before + [i] + behind, before + [c] + ([After(i, c)] + behind);
    if before == [] {
      var rest := [After(i, c)] + behind;
      assert got[0] == i && got[1..] == behind;
      assert got'[0] == c && got'[1..] == rest && rest[0] == After(i, c) && rest[1..] == behind;
      if i == added[0] && SplitOf(added[1..], behind) {
        var a := [After(i, c)] + added[1..];
        assert a[1..] == added[1..];
        assert SplitOf(a, rest);
      } else {
        var x := added[0];
        CutAgain(x, i, c);
        var a := [After(x, c)] + added[1..];
        assert a[1..] == added[1..];
        assert SplitOf(a, rest);
      }
    } else {
      assert got[0] == before[0] == got'[0];
      assert got[1..] == before[1..] + [i] + behind;
      assert got'[1..] == before[1..] + [c] + ([After(i, c)] + behind);
      if got[0] == added[0] && SplitOf(added[1..], got[1..]) {
        SplitCut(added[1..], before[1..], i, c, behind);
      } else {
        SplitCut([After(added[0], got[0])] + added[1..], before[1..], i, c, behind);
      }
    }
  }

  lemma CutAgain(x: Item, i: Item, c: Item)
    requires PieceOf(x, i) && PieceOf(i, c)
    ensures PieceOf(x, c) && PieceOf(After(x, c), After(i, c)) && After(After(x, c), After(i, c)) == After(x, i)
  {
    assert x.p[|c.p|..][..|i.p| - |c.p|] == i.p[|c.p|..];
    assert x.p[|c.p|..][|i.p| - |c.p|..] == x.p[|i.p|..];
  }

  // ----- conservation -----

  ghost predicate Balanced(s: Sched, es: seq<Event>, id: nat) {
    && SplitOf(AddedTo(es, id), TakenFrom(es, id) + QueueOf(s, id))
    && (id in s.windows ==> s.windows[id] + Spent(es, id) == Granted(es, id))
  }

  predicate Touches(e: Event, id: nat) {
    (e.Add? || e.Take? || e.Forget?) && e.id == id
  }

  lemma OthersKeep(s: Sched, e: Event, s': Sched, id: nat)
    requires Step(s, e, s') && !Touches(e, id)
    ensures QueueOf(s', id) == QueueOf(s, id)
  {
    hide Allowed;
  }

  lemma QueueBalances(s: Sched, e: Event, s': Sched, es: seq<Event>, id: nat)
    requires Step(s, e, s') && SplitOf(AddedTo(es, id), TakenFrom(es, id) + QueueOf(s, id))
    ensures SplitOf(AddedTo(es + [e], id), TakenFrom(es + [e], id) + QueueOf(s', id))
  {
    assert (es + [e])[..|es|] == es;
    var added, taken, queue := AddedTo(es, id), TakenFrom(es, id), QueueOf(s, id);
    if !Touches(e, id) {
      OthersKeep(s, e, s', id);
      hide Step, SplitOf;
    } else if e.Add? {
      SplitAppend(added, taken + queue, e.item);
      assert taken + (queue + [e.item]) == (taken + queue) + [e.item];
    } else if e.Forget? {
      assert QueueOf(s', id) == [];
    } else {
      TakeBalances(s, e, s', added, taken, id);
      hide Step, SplitOf;
    }
  }

  lemma WindowBalances(s: Sched, e: Event, s': Sched, es: seq<Event>, id: nat)
    requires Step(s, e, s') && (id in s.windows ==> s.windows[id] + Spent(es, id) == Granted(es, id))
    ensures id in s'.windows ==> s'.windows[id] + Spent(es + [e], id) == Granted(es + [e], id)
  {
    assert (es + [e])[..|es|] == es;
  }

  lemma StepBalances(s: Sched, e: Event, s': Sched, es: seq<Event>, id: nat)
    requires Step(s, e, s') && Balanced(s, es, id)
    ensures Balanced(s', es + [e], id)
  {
    hide Step, SplitOf, AddedTo, TakenFrom, Spent, Granted;
    QueueBalances(s, e, s', es, id);
    WindowBalances(s, e, s', es, id);
  }

  lemma TakeBalances(s: Sched, e: Event, s': Sched, added: seq<Item>, taken: seq<Item>, id: nat)
    requires e.Take? && e.id == id && Step(s, e, s')
    requires SplitOf(added, taken + QueueOf(s, id))
    ensures SplitOf(added, taken + [e.item] + QueueOf(s', id))
    ensures s'.windows[id] == s.windows[id] - Cost(e.item)
  {
    var q := s.queues[id];
    var i := q[0];
    assert q == [i] + q[1..];
    if !Costless(i) && |i.p| > Allowed(s, id) {
      assert taken + q == taken + [i] + q[1..];
      SplitCut(added, taken, i, e.item, q[1..]);
    } else {
      assert QueueOf(s', id) == q[1..];
      assert taken + [i] + q[1..] == taken + q;
    }
  }

  /** Over every run, for every stream: what was taken and what still waits are exactly what
      was added, in order, DATA possibly cut; and the window and the bytes sent add up. */
  lemma {:induction false} StreamsConserved(ss: seq<Sched>, es: seq<Event>, id: nat)
    requires Run(ss, es)
    ensures Balanced(ss[|es|], es, id)
    decreases |es|
  {
    if es == [] {
      assert QueueOf(ss[0], id) == [];
    } else {
      var n := |es| - 1;
      assert es == es[..n] + [es[n]];
      StreamsConserved(ss[..n + 1], es[..n], id);
      StepBalances(ss[n], es[n], ss[n + 1], es[..n], id);
    }
  }

  /** The connection's window and all bytes sent add up as well. */
  lemma {:induction false} ConnectionConserved(ss: seq<Sched>, es: seq<Event>)
    requires Run(ss, es)
    ensures ss[|es|].conn + SpentInAll(es) == ss[0].conn + GrantedInAll(es)
    decreases |es|
  {
    if es != [] {
      var n := |es| - 1;
      ConnectionConserved(ss[..n + 1], es[..n]);
      assert Step(ss[n], es[n], ss[n + 1]);
    }
  }

  /** Every DATA frame taken fits the frame size and both windows as they were. */
  lemma FrameFits(s: Sched, e: Event, s': Sched)
    requires Step(s, e, s') && e.Take?
    ensures Cost(e.item) > 0 ==>
              && Cost(e.item) <= Allowed(s, e.id) <= s.maxFrameSize
              && Cost(e.item) <= s.windows[e.id] && Cost(e.item) <= s.conn
    ensures Cost(e.item) > 0 ==> 0 <= s'.windows[e.id] && 0 <= s'.conn
  {
  }

  /** n is the least of the stream's window, the connection's and the frame size. */
  predicate LeastOfThree(n: int, window: int, conn: int, size: int) {
    n <= window && n <= conn && n <= size && (n == window || n == conn || n == size)
  }

  /** What is taken from a stream: its whole head if that is no DATA, is empty, or fits both
      windows and the frame size; else exactly as much of it as all three allow, the rest
      staying first in the queue with its end and its waiting writer. Both windows pay. */
  lemma TakesWhatFits(s: Sched, e: Event, s': Sched)
    requires Step(s, e, s') && e.Take?
    ensures e.id in s.queues && s.queues[e.id] != [] && e.id in s.windows
    ensures
      var h, rest, w := s.queues[e.id][0], s.queues[e.id][1..], s.windows[e.id];
      var n := Cost(e.item);
      && (if !h.Data? || h.p == [] || (|h.p| <= w && |h.p| <= s.conn && |h.p| <= s.maxFrameSize) then
            e.item == h && QueueOf(s', e.id) == rest
          else
            && 0 < n < |h.p| && LeastOfThree(n, w, s.conn, s.maxFrameSize)
            && e.item == Data(h.p[..n], false, false)
            && QueueOf(s', e.id) == [Data(h.p[n..], h.endStream, h.done)] + rest)
      && e.id in s'.windows && s'.windows[e.id] == w - n && s'.conn == s.conn - n
      && (forall k :: k in s.queues && k != e.id ==> k in s'.queues && s'.queues[k] == s.queues[k])
      && s.zero == [] && (n > 0 ==> forall k :: k in s.queues && s.queues[k] != [] ==> Cost(s.queues[k][0]) > 0)
  {
    assert Cost(s.queues[e.id][0]) > 0 <==> !Costless(s.queues[e.id][0]);
  }

  /** Nothing is taken only if nothing may go: every head is DATA, and for each of them one of
      the two windows is used up, or there is no frame size. */
  lemma NothingFits(s: Sched, s': Sched, id: nat)
    requires Step(s, TakeNothing, s') && id in s.queues && s.queues[id] != [] && id in s.windows
    ensures s.zero == [] && s.queues[id][0].Data? && s.queues[id][0].p != []
    ensures s.windows[id] <= 0 || s.conn <= 0 || s.maxFrameSize == 0
  {
  }

  // ----- what a split means -----

  function Payload(items: seq<Item>): seq<byte> {
    if items == [] then [] else (if items[0].Data? then items[0].p else []) + Payload(items[1..])
  }

  function Ends(items: seq<Item>): nat {
    if items == [] then 0 else (if items[0].Data? && items[0].endStream then 1 else 0) + Ends(items[1..])
  }

  /** The DATA payload is the same, and so is the number of frames that end the stream. */
  lemma {:induction false} SplitKeepsPayload(added: seq<Item>, got: seq<Item>)
    requires SplitOf(added, got)
    ensures Payload(got) == Payload(added) && Ends(got) == Ends(added)
    decreases |got|
  {
    if got != [] {
      if got[0] == added[0] && SplitOf(added[1..], got[1..]) {
        SplitKeepsPayload(added[1..], got[1..]);
      } else {
        var a := [After(added[0], got[0])] + added[1..];
        SplitKeepsPayload(a, got[1..]);
        assert a[1..] == added[1..];
        var c, rest := got[0].p, After(added[0], got[0]).p;
        assert c + rest == added[0].p;
        assert c + (rest + Payload(added[1..])) == (c + rest) + Payload(added[1..]);
      }
    }
  }

  /** When the last frame added is the one that ends the stream, the last byte comes with or
      before the end: a piece that ends the stream has nothing behind it. */
  lemma {:induction false} EndComesLast(added: seq<Item>, got: seq<Item>, k: nat)
    requires SplitOf(added, got) && k < |got| && got[k].Data? && got[k].endStream
    requires forall i :: 0 <= i < |added| - 1 ==> !(added[i].Data? && added[i].endStream)
    ensures k == |got| - 1
    decreases |got|
  {
    if got[0] == added[0] && SplitOf(added[1..], got[1..]) {
      if k == 0 {
        assert |added| == 1;
      } else {
        EndComesLast(added[1..], got[1..], k - 1);
      }
    } else {
      var a := [After(added[0], got[0])] + added[1..];
      assert forall i :: 1 <= i < |a| ==> a[i] == added[i];
      EndComesLast(a, got[1..], k - 1);
    }
  }

  lemma {:induction false} PayloadJoin(a: seq<Item>, b: seq<Item>)
    ensures Payload(a + b) == Payload(a) + Payload(b) && Ends(a + b) == Ends(a) + Ends(b)
  {
    if a == [] {
      assert a + b == b;
    } else {
      assert (a + b)[1..] == a[1..] + b;
      PayloadJoin(a[1..], b);
    }
  }

  /** Over every run, for every stream: the DATA bytes taken, followed by those that still wait,
      are the DATA bytes added, and no end of the stream is lost or repeated. */
  lemma PayloadConserved(ss: seq<Sched>, es: seq<Event>, id: nat)
    requires Run(ss, es)
    ensures Payload(TakenFrom(es, id)) + Payload(QueueOf(ss[|es|], id)) == Payload(AddedTo(es, id))
    ensures Ends(TakenFrom(es, id)) + Ends(QueueOf(ss[|es|], id)) == Ends(AddedTo(es, id))
  {
    StreamsConserved(ss, es, id);
    hide Run, Step, SplitOf, AddedTo, TakenFrom, QueueOf, Payload, Ends;
    SplitKeepsPayload(AddedTo(es, id), TakenFrom(es, id) + QueueOf(ss[|es|], id));
    PayloadJoin(TakenFrom(es, id), QueueOf(ss[|es|], id));
  }
}
