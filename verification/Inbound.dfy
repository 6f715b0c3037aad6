/** Inbound flow control of the HTTP/2 server (section 6.9 of RFC 7540): request bodies arrive
    in fixed-size buffers, handlers read them, and window updates follow the reads. In every
    interleaving the windows account for what the buffers hold, so that no admitted byte ever
    finds its buffer full. */
module Inbound {
  import opened Wrappers
  import opened Base128

  /** The window that a stream and the connection start with, and the size of a body buffer. */
  const INITIAL_WINDOW := 65535

  const MAX_WINDOW := 0x7fff_ffff

  datatype State = Open | HalfClosedLocal | HalfClosedRemote | Closed

  /** A stream's inbound side. `unreported` counts bytes that the handler has read and the
      serve loop has not heard of; the last two are the history of its body. */
  datatype Stream = Stream(
    state: State, window: int, unread: seq<byte>, unreported: nat, bodyClosed: bool,
    declared: int, seen: nat, admitted: seq<byte>, readOut: seq<byte>)

  datatype Conn = Conn(window: int, streams: seq<Stream>)

  datatype Event =
    | OpenStream(declared: int, ended: bool)
    | DataArrives(id: nat, data: seq<byte>, ended: bool)
    | HandlerReads(id: nat, n: nat)
    | HandlerCloses(id: nat)
    | ReadNoted(id: nat, n: nat)
    | HandlerReturns(id: nat)
    | StreamCloses(id: nat)

  /** How an event ends. The last two are what must not happen: a full buffer, and a window
      update that passes the largest window. */
  datatype Outcome = Fine | StreamClosedError | FlowControlError | BufferFull | TooManyUpdates

  const NEW_STREAM := Stream(Open, INITIAL_WINDOW, [], 0, false, -1, 0, [], [])

  /** The end of a request body. */
  function Ended(s: Stream, ended: bool): Stream {
    if ended then s.(bodyClosed := true, state := HalfClosedRemote) else s
  }

  /** processData, on one stream and the connection's window. */
  function ProcessData(s: Stream, conn: int, data: seq<byte>, ended: bool): (Stream, int, Outcome) {
    if s.state != Open then (s, conn, StreamClosedError)
    else if s.declared != -1 && s.seen + |data| > s.declared then (s.(bodyClosed := true), conn, StreamClosedError)
    else if data == [] then (Ended(s, ended), conn, Fine)
    else if Min(s.window, conn) < |data| then (s, conn, FlowControlError)
    else
      var t := s.(window := s.window - |data|);
      if s.bodyClosed then (t, conn - |data|, StreamClosedError)
      else if |s.unread| + |data| > INITIAL_WINDOW then
        var room := if |s.unread| < INITIAL_WINDOW then INITIAL_WINDOW - |s.unread| else 0;
        (t.(unread := s.unread + data[..Min(|data|, room)]),
         conn - |data|, BufferFull)
      else
        (Ended(t.(unread := s.unread + data, seen := s.seen + |data|, admitted := s.admitted + data), ended),
         conn - |data|, Fine)
  }

  /** The handler reads up to n bytes; a closed body can still be read. */
  function BodyRead(s: Stream, n: nat): Stream {
    var k := Min(n, |s.unread|);
    s.(unread := s.unread[k..], unreported := s.unreported + k, readOut := s.readOut + s.unread[..k])
  }

  /** flow.add for windows that are not negative: None is the panic. */
  function AddWindow(window: int, n: nat): Option<int> {
    if window + n > MAX_WINDOW then None else Some(window + n)
  }

  /** noteBodyRead: the connection's window grows, and the stream's while the peer may send. */
  function NoteRead(s: Stream, conn: int, n: nat): (Stream, int, Outcome)
    requires n <= s.unreported
  {
    var t := s.(unreported := s.unreported - n);
    match AddWindow(conn, n)
    case None => (t, conn, TooManyUpdates)
    case Some(conn') =>
      if s.state == HalfClosedRemote || s.state == Closed then (t, conn', Fine)
      else
        match AddWindow(s.window, n)
        case None => (t, conn', TooManyUpdates)
        case Some(window) => (t.(window := window), conn', Fine)
  }

  predicate Enabled(c: Conn, e: Event) {
    match e
    case OpenStream(_, _) => true
    case DataArrives(id, data, _) => id < |c.streams|
    case HandlerReads(id, _) => id < |c.streams|
    case HandlerCloses(id) => id < |c.streams|
    case ReadNoted(id, n) => id < |c.streams| && n <= c.streams[id].unreported
    case HandlerReturns(id) => id < |c.streams|
    case StreamCloses(id) => id < |c.streams| && c.streams[id].state != Closed
  }

  function Step(c: Conn, e: Event): (Conn, Outcome)
    requires Enabled(c, e)
  {
    match e
    case OpenStream(declared, ended) =>
      var s := NEW_STREAM.(declared := declared, state := if ended then HalfClosedRemote else Open);
      (c.(streams := c.streams + [s]), Fine)
    case DataArrives(id, data, ended) =>
      var (s, conn, o) := ProcessData(c.streams[id], c.window, data, ended);
      (Conn(conn, c.streams[id := s]), o)
    case HandlerReads(id, n) => (c.(streams := c.streams[id := BodyRead(c.streams[id], n)]), Fine)
    case HandlerCloses(id) => (c.(streams := c.streams[id := c.streams[id].(bodyClosed := true)]), Fine)
    case ReadNoted(id, n) =>
      var (s, conn, o) := NoteRead(c.streams[id], c.window, n);
      (Conn(conn, c.streams[id := s]), o)
    case HandlerReturns(id) =>
      var s := c.streams[id];
      (c.(streams := c.streams[id := s.(state := if s.state == Open then HalfClosedLocal else s.state)]), Fine)
    case StreamCloses(id) => (c.(streams := c.streams[id := c.streams[id].(state := Closed, bodyClosed := true)]), Fine)
  }

  const START := Conn(INITIAL_WINDOW, [])

  ghost predicate Run(cs: seq<Conn>, es: seq<Event>, os: seq<Outcome>) {
    && |cs| == |es| + 1 == |os| + 1 && cs[0] == START
    && forall i :: 0 <= i < |es| ==> Enabled(cs[i], es[i]) && Step(cs[i], es[i]) == (cs[i + 1], os[i])
  }

  // ----- the invariant -----

  /** Bytes that were admitted and are still to be given back. */
  function Owed(s: Stream): nat {
    |s.unread| + s.unreported
  }

  function OwedInAll(ss: seq<Stream>): nat {
    if ss == [] then 0 else Owed(ss[0]) + OwedInAll(ss[1..])
  }

  predicate StreamSafe(s: Stream) {
    0 <= s.window && s.window + Owed(s) <= INITIAL_WINDOW && s.admitted == s.readOut + s.unread
  }

  ghost predicate Safe(c: Conn) {
    && 0 <= c.window && c.window + OwedInAll(c.streams) <= INITIAL_WINDOW
    && forall s :: s in c.streams ==> StreamSafe(s)
  }

  predicate Panics(o: Outcome) {
    o == BufferFull || o == TooManyUpdates
  }

  lemma {:induction false} OwedChanges(ss: seq<Stream>, id: nat, s: Stream)
    requires id < |ss|
    ensures OwedInAll(ss[id := s]) == OwedInAll(ss) - Owed(ss[id]) + Owed(s)
    ensures Owed(ss[id]) <= OwedInAll(ss)
  {
    if id > 0 {
      OwedChanges(ss[1..], id - 1, s);
      assert ss[id := s][1..] == ss[1..][id - 1 := s];
    }
  }

  lemma {:induction false} OwedAppend(ss: seq<Stream>, s: Stream)
    ensures OwedInAll(ss + [s]) == OwedInAll(ss) + Owed(s)
  {
    if ss == [] {
      assert [s][1..] == [];
    } else {
      assert (ss + [s])[1..] == ss[1..] + [s];
      OwedAppend(ss[1..], s);
    }
  }

  lemma DataSafe(s: Stream, conn: int, data: seq<byte>, ended: bool)
    requires StreamSafe(s)
    ensures
      var (t, conn', o) := ProcessData(s, conn, data, ended);
      && StreamSafe(t) && !Panics(o) && conn' + Owed(t) <= conn + Owed(s)
      && (0 <= conn ==> 0 <= conn')
  {
    assert s.admitted + data == s.readOut + (s.unread + data);
  }

  lemma ReadSafe(s: Stream, n: nat)
    requires StreamSafe(s)
    ensures StreamSafe(BodyRead(s, n)) && Owed(BodyRead(s, n)) == Owed(s)
  {
    var k := Min(n, |s.unread|);
    assert s.unread == s.unread[..k] + s.unread[k..];
    assert s.readOut + (s.unread[..k] + s.unread[k..]) == (s.readOut + s.unread[..k]) + s.unread[k..];
  }

  lemma NoteSafe(s: Stream, conn: int, n: nat)
    requires StreamSafe(s) && n <= s.unreported && 0 <= conn <= INITIAL_WINDOW - Owed(s)
    ensures
      var (t, conn', o) := NoteRead(s, conn, n);
      StreamSafe(t) && !Panics(o) && conn' == conn + n && Owed(t) == Owed(s) - n
  {
  }

  lemma StepSafe(c: Conn, e: Event)
    requires Safe(c) && Enabled(c, e)
    ensures Safe(Step(c, e).0) && !Panics(Step(c, e).1)
  {
    if e.OpenStream? {
      OwedAppend(c.streams, NEW_STREAM.(declared := e.declared, state := if e.ended then HalfClosedRemote else Open));
    } else {
      var s := c.streams[e.id];
      assert s in c.streams;
      var t := Step(c, e).0.streams[e.id];
      OwedChanges(c.streams, e.id, t);
      hide ProcessData, BodyRead, NoteRead, OwedInAll;
      match e
      case DataArrives(_, data, ended) => DataSafe(s, c.window, data, ended);
      case HandlerReads(_, n) => ReadSafe(s, n);
      case ReadNoted(_, n) => NoteSafe(s, c.window, n);
      case _ =>
    }
  }

  /** Inbound window safety: in every interleaving of data, reads and window updates, on any
      number of streams, the window, the unread bytes and the unreported bytes of a stream
      never pass 65535 together, nor do those of all streams with the connection's window.
      Every admitted byte fits its buffer, no window update is refused, and what the handler
      has read and can still read are exactly the admitted bytes, in order. */
  lemma {:induction false} AlwaysSafe(cs: seq<Conn>, es: seq<Event>, os: seq<Outcome>)
    requires Run(cs, es, os)
    ensures Safe(cs[|es|]) && forall o :: o in os ==> !Panics(o)
    decreases |es|
  {
    if es != [] {
      var n := |es| - 1;
      AlwaysSafe(cs[..n + 1], es[..n], os[..n]);
      StepSafe(cs[n], es[n]);
      assert os == os[..n] + [os[n]];
    }
  }

  /** Data within the windows is accepted while the body is open: the guard is exact. */
  lemma WithinWindowsIsAccepted(c: Conn, id: nat, data: seq<byte>, ended: bool)
    requires Safe(c) && id < |c.streams| && c.streams[id].state == Open && !c.streams[id].bodyClosed && data != []
    requires c.streams[id].declared == -1 || c.streams[id].seen + |data| <= c.streams[id].declared
    ensures Step(c, DataArrives(id, data, ended)).1 == Fine <==> |data| <= Min(c.streams[id].window, c.window)
  {
    assert c.streams[id] in c.streams;
  }

  /** What becomes of a DATA frame, in every case: its outcome, the stream's state, its body,
      and what leaves the windows. */
  lemma DataTells(c: Conn, id: nat, data: seq<byte>, ended: bool)
    requires Safe(c) && id < |c.streams|
    ensures
      var s, (d, o) := c.streams[id], Step(c, DataArrives(id, data, ended));
      var t, over := d.streams[id], s.declared != -1 && s.seen + |data| > s.declared;
      var fits := |data| <= s.window && |data| <= c.window;
      var taken := s.state == Open && !over && data != [] && fits;
      && (o == FlowControlError <==> s.state == Open && !over && data != [] && !fits)
      && (o == StreamClosedError <==> s.state != Open || over || (taken && s.bodyClosed))
      && (o == Fine || o == FlowControlError || o == StreamClosedError)
      && t.state == (if o == Fine && ended then HalfClosedRemote else s.state)
      && t.bodyClosed == (s.bodyClosed || (s.state == Open && over) || (o == Fine && ended))
      && t.unread == s.unread + (if o == Fine then data else [])
      && t.window == s.window - (if taken then |data| else 0) && d.window == c.window - (if taken then |data| else 0)
      && d.streams == c.streams[id := t]
  {
    assert c.streams[id] in c.streams;
  }

  /** The event ends what stream id may send, or what its handler will read. */
  predicate EndsInput(e: Event, o: Outcome, id: nat) {
    || e == HandlerReturns(id) || e == StreamCloses(id)
    || (e.DataArrives? && e.id == id && e.ended && o == Fine)
  }

  lemma {:induction false} StaysEnded(cs: seq<Conn>, es: seq<Event>, os: seq<Outcome>, id: nat, i: nat, j: nat)
    requires Run(cs, es, os) && i <= j <= |es| && id < |cs[i].streams| && cs[i].streams[id].state != Open
    ensures id < |cs[j].streams| && cs[j].streams[id].state != Open
    decreases j - i
  {
    if i < j {
      StaysEnded(cs, es, os, id, i, j - 1);
      assert Enabled(cs[j - 1], es[j - 1]) && Step(cs[j - 1], es[j - 1]) == (cs[j], os[j - 1]);
    }
  }

  /** After the end of the stream was accepted, its handler has returned or it was closed, no
      DATA of the stream is accepted again. */
  lemma NothingAfterEnd(cs: seq<Conn>, es: seq<Event>, os: seq<Outcome>, id: nat, i: nat, j: nat)
    requires Run(cs, es, os) && i < j < |es| && EndsInput(es[i], os[i], id)
    requires es[j].DataArrives? && es[j].id == id
    ensures os[j] == StreamClosedError && cs[j + 1] == cs[j]
  {
    assert Enabled(cs[i], es[i]) && Step(cs[i], es[i]) == (cs[i + 1], os[i]);
    StaysEnded(cs, es, os, id, i + 1, j);
    assert Enabled(cs[j], es[j]) && Step(cs[j], es[j]) == (cs[j + 1], os[j]);
    assert cs[j].streams[id := cs[j].streams[id]] == cs[j].streams;
  }

  // ----- what was taken is given back -----

  /** The bytes that a DATA frame takes from both windows for a body that nobody will read
      them from: they fit, but the body is closed. */
  function Discards(c: Conn, e: Event): nat {
    if e.DataArrives? && e.id < |c.streams| then
      var s := c.streams[e.id];
      if s.state == Open && s.bodyClosed && !(s.declared != -1 && s.seen + |e.data| > s.declared)
         && |e.data| <= s.window && |e.data| <= c.window
      then |e.data| else 0
    else 0
  }

  /** ... over a run, for one stream and for all. */
  function DiscardedBy(cs: seq<Conn>, es: seq<Event>, id: nat): nat
    requires |es| < |cs|
    decreases |es|
  {
    if es == [] then 0
    else
      var n := |es| - 1;
      DiscardedBy(cs[..|es|], es[..n], id)
      + if es[n].DataArrives? && es[n].id == id then Discards(cs[n], es[n]) else 0
  }

  function DiscardedInAll(cs: seq<Conn>, es: seq<Event>): nat
    requires |es| < |cs|
    decreases |es|
  {
    if es == [] then 0 else DiscardedInAll(cs[..|es|], es[..|es| - 1]) + Discards(cs[|es| - 1], es[|es| - 1])
  }

  /** The data of a stream's frames that were accepted. */
  function AcceptedBy(es: seq<Event>, os: seq<Outcome>, id: nat): seq<byte>
    requires |os| == |es|
    decreases |es|
  {
    if es == [] then []
    else
      var n := |es| - 1;
      AcceptedBy(es[..n], os[..n], id)
      + if es[n].DataArrives? && es[n].id == id && os[n] == Fine then es[n].data else []
  }

  /** The peer may still send on the stream. */
  predicate MaySend(s: Stream) {
    s.state == Open || s.state == HalfClosedLocal
  }

  lemma DataBalances(s: Stream, conn: int, data: seq<byte>, ended: bool)
    requires StreamSafe(s) && 0 <= conn
    ensures
      var (t, conn', o) := ProcessData(s, conn, data, ended);
      var d := Discards(Conn(conn, [s]), DataArrives(0, data, ended));
      && conn' + Owed(t) + d == conn + Owed(s)
      && t.window + Owed(t) + d == s.window + Owed(s)
      && (MaySend(t) ==> MaySend(s)) && (s.bodyClosed ==> t.bodyClosed) && (d > 0 ==> s.bodyClosed)
      && t.admitted == s.admitted + (if o == Fine then data else [])
      && (s.seen == |s.admitted| ==> t.seen == |t.admitted|) && t.declared == s.declared
      && (o == Fine && s.declared != -1 ==> s.seen + |data| <= s.declared)
  {
  }

  /** The bytes of a read come back to the connection at once, and to the stream while the
      peer may still send on it. */
  lemma NoteBalances(s: Stream, conn: int, n: nat)
    requires StreamSafe(s) && n <= s.unreported && 0 <= conn <= INITIAL_WINDOW - Owed(s)
    ensures
      var (t, conn', o) := NoteRead(s, conn, n);
      && o == Fine && conn' == conn + n && Owed(t) == Owed(s) - n
      && t.window == s.window + (if MaySend(s) then n else 0)
      && t.(unreported := s.unreported, window := s.window) == s
  {
  }

  /** From c to d, stream id keeps window and debt together but for what the event discards. */
  predicate Balances(c: Conn, e: Event, d: Conn, o: Outcome, id: nat)
    requires id < |c.streams| && id < |d.streams|
  {
    var s, t, mine := c.streams[id], d.streams[id], e.DataArrives? && e.id == id;
    && (MaySend(t) ==> MaySend(s) && t.window + Owed(t) + (if mine then Discards(c, e) else 0) == s.window + Owed(s))
    && (s.bodyClosed ==> t.bodyClosed)
    && (mine && Discards(c, e) > 0 ==> s.bodyClosed)
    && t.admitted == s.admitted + (if mine && o == Fine then e.data else [])
    && (s.seen == |s.admitted| ==> t.seen == |t.admitted|) && t.declared == s.declared
    && (mine && o == Fine && s.declared != -1 ==> s.seen + |e.data| <= s.declared)
  }

  lemma StepBalances(c: Conn, e: Event, id: nat)
    requires Safe(c) && Enabled(c, e) && id < |c.streams|
    ensures id < |Step(c, e).0.streams| && Balances(c, e, Step(c, e).0, Step(c, e).1, id)
  {
    var s := c.streams[id];
    assert s in c.streams;
    if !e.OpenStream? && e.id == id {
      OwedChanges(c.streams, id, s);
      match e
      case DataArrives(_, data, ended) => DataBalances(s, c.window, data, ended);
      case HandlerReads(_, n) => ReadSafe(s, n);
      case ReadNoted(_, n) => NoteBalances(s, c.window, n);
      case _ =>
    }
  }

  lemma StepBalancesAll(c: Conn, e: Event)
    requires Safe(c) && Enabled(c, e)
    ensures var d := Step(c, e).0;
            d.window + OwedInAll(d.streams) + Discards(c, e) == c.window + OwedInAll(c.streams)
  {
    if e.OpenStream? {
      OwedAppend(c.streams, NEW_STREAM.(declared := e.declared, state := if e.ended then HalfClosedRemote else Open));
    } else {
      var s := c.streams[e.id];
      assert s in c.streams;
      OwedChanges(c.streams, e.id, Step(c, e).0.streams[e.id]);
      hide OwedInAll;
      match e
      case DataArrives(_, data, ended) => DataBalances(s, c.window, data, ended);
      case HandlerReads(_, n) => ReadSafe(s, n);
      case ReadNoted(_, n) => NoteBalances(s, c.window, n);
      case _ =>
    }
  }

  /** What holds of stream id after a run. */
  ghost predicate Restored(cs: seq<Conn>, es: seq<Event>, os: seq<Outcome>, id: nat)
    requires |os| == |es| < |cs| && id < |cs[|es|].streams|
  {
    var s := cs[|es|].streams[id];
    && (MaySend(s) ==> s.window + Owed(s) + DiscardedBy(cs, es, id) == INITIAL_WINDOW)
    && (!s.bodyClosed ==> DiscardedBy(cs, es, id) == 0)
    && s.admitted == AcceptedBy(es, os, id)
    && s.seen == |s.admitted| && (s.declared >= 0 ==> |s.admitted| <= s.declared)
  }

  lemma {:induction false} UnusedSoFar(cs: seq<Conn>, es: seq<Event>, os: seq<Outcome>, id: nat)
    requires Run(cs, es, os) && |cs[|es|].streams| <= id
    ensures DiscardedBy(cs, es, id) == 0 && AcceptedBy(es, os, id) == []
    decreases |es|
  {
    if es != [] {
      var n := |es| - 1;
      assert Step(cs[n], es[n]) == (cs[n + 1], os[n]);
      UnusedSoFar(cs[..n + 1], es[..n], os[..n], id);
    }
  }

  /** Window conservation: in every run, while the peer may send on a stream, its window, what
      the handler has yet to read, what is yet to be reported and what was discarded make up
      the initial window - no byte is given back twice and none is kept. Handlers are given
      the data of the accepted frames, and never more than was declared. */
  lemma {:induction false} WindowRestored(cs: seq<Conn>, es: seq<Event>, os: seq<Outcome>, id: nat)
    requires Run(cs, es, os) && id < |cs[|es|].streams|
    ensures Restored(cs, es, os, id)
    decreases |es|
  {
    if es != [] {
      var n := |es| - 1;
      AlwaysSafe(cs[..n + 1], es[..n], os[..n]);
      assert Step(cs[n], es[n]) == (cs[n + 1], os[n]);
      hide Safe, ProcessData, NoteRead, BodyRead, Owed, Discards;
      if id < |cs[n].streams| {
        WindowRestored(cs[..n + 1], es[..n], os[..n], id);
        StepBalances(cs[n], es[n], id);
      } else {
        UnusedSoFar(cs[..n + 1], es[..n], os[..n], id);
        FreshOwes(cs[n], es[n], id);
      }
    }
  }

  lemma FreshOwes(c: Conn, e: Event, id: nat)
    requires Enabled(c, e) && |c.streams| <= id < |Step(c, e).0.streams|
    ensures var s := Step(c, e).0.streams[id];
            e.OpenStream? && s.window == INITIAL_WINDOW && Owed(s) == 0 && s.admitted == [] && s.seen == 0
  {
  }

  /** The same for the connection, over all its streams, closed ones included. */
  lemma {:induction false} ConnectionRestored(cs: seq<Conn>, es: seq<Event>, os: seq<Outcome>)
    requires Run(cs, es, os)
    ensures var c := cs[|es|];
            && c.window + OwedInAll(c.streams) + DiscardedInAll(cs, es) == INITIAL_WINDOW
            && (c.window == INITIAL_WINDOW <==> OwedInAll(c.streams) == 0 && DiscardedInAll(cs, es) == 0)
    decreases |es|
  {
    if es != [] {
      var n := |es| - 1;
      ConnectionRestored(cs[..n + 1], es[..n], os[..n]);
      AlwaysSafe(cs[..n + 1], es[..n], os[..n]);
      assert Step(cs[n], es[n]) == (cs[n + 1], os[n]);
      hide Safe, Step, OwedInAll, Discards;
      StepBalancesAll(cs[n], es[n]);
    }
  }

  /** A stream whose reads are all noted and whose body was never closed has its full window. */
  lemma FullAgain(cs: seq<Conn>, es: seq<Event>, os: seq<Outcome>, id: nat)
    requires Run(cs, es, os) && id < |cs[|es|].streams|
    requires var s := cs[|es|].streams[id]; MaySend(s) && !s.bodyClosed && s.unread == [] && s.unreported == 0
    ensures cs[|es|].streams[id].window == INITIAL_WINDOW
  {
    WindowRestored(cs, es, os, id);
  }
}
