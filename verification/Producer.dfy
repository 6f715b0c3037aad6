/** The asynchronous Kafka producer, seen from one topic-partition: the functions the
    goroutines apply to their own state, and the step system they form together.

    A message carries its submission number and its retry level. A chaser carries only a
    level. Channels are FIFO sequences; a request's outcome, the leader returned by a
    metadata refresh and the sizes of batches are all left to the environment. */
module Producer {
  import opened Wrappers

  datatype Msg = Data(id: nat, retries: nat) | Chaser(retries: nat)

  /** The message as it is put back on the retry channel. */
  function Up(m: Msg): Msg {
    m.(retries := m.retries + 1)
  }

  // ----- leaderDispatcher: one per partition -----

  /** `output` is the broker producer currently written to; None is the nil channel. */
  datatype Leader = Leader(hwm: nat, buf: seq<seq<Msg>>, awaits: seq<bool>, output: Option<nat>)

  /** What handling one message does: `toOld` is sent to the output held before the call,
      `toNew` to the output held after it, `failed` is returned as errors. Fault stands
      for an index out of range or a send on a nil channel. */
  datatype LeaderResult = Fault | Sent(leader: Leader, toOld: seq<Msg>, toNew: seq<Msg>, failed: seq<Msg>)

  predicate LeaderShape(l: Leader, max: nat) {
    && |l.buf| == |l.awaits| == max + 1
    && l.hwm <= max
  }

  function Acquire(l: Leader, brokers: seq<Option<nat>>): (r: Leader)
    requires l.hwm < |brokers|
  {
    if l.output.None? then l.(output := brokers[l.hwm]) else l
  }

  /** The flush loop: go down one level at a time, sending that level's backlog, until a
      level that still awaits its chaser, or level 0. */
  function Flush(l: Leader, brokers: seq<Option<nat>>): (r: LeaderResult)
    requires 0 < l.hwm < |l.buf| == |l.awaits| == |brokers|
    ensures r.Sent? && r.toOld == []
    ensures r.leader.hwm < l.hwm && LeaderShape(r.leader, |brokers| - 1)
    ensures l.output.Some? ==> r.leader.output == l.output
    decreases l.hwm
  {
    var h := l.hwm - 1;
    var l' := Acquire(l.(hwm := h, buf := l.buf[h := []]), brokers);
    var sent := if l'.output.Some? then l.buf[h] else [];
    var failed := if l'.output.Some? then [] else l.buf[h];
    if l.awaits[h] || h == 0 then
      Sent(l', [], sent, failed)
    else
      var rest := Flush(l', brokers);
      Sent(rest.leader, [], sent + rest.toNew, failed + rest.failed)
  }

  function PassThrough(l: Leader, toOld: seq<Msg>, msg: Msg, brokers: seq<Option<nat>>): LeaderResult
    requires l.hwm < |brokers|
  {
    var l' := Acquire(l, brokers);
    if l'.output.Some? then Sent(l', toOld, [msg], []) else Sent(l', toOld, [], [msg])
  }

  function Raise(l: Leader, level: nat): Leader
    requires level < |l.awaits|
  {
    l.(hwm := level, awaits := l.awaits[level := true], output := None)
  }

  /** One turn of the leader dispatcher's loop; `brokers[h]` answers the metadata refresh
      attempted while the high watermark is h. */
  function Dispatch(l: Leader, msg: Msg, brokers: seq<Option<nat>>): LeaderResult
    requires |brokers| > 0 && LeaderShape(l, |brokers| - 1)
  {
    if msg.retries >= |brokers| then
      Fault
    else if msg.retries > l.hwm then
      if l.output.None? then Fault
      else PassThrough(Raise(l, msg.retries), [Chaser(msg.retries - 1)], msg, brokers)
    else if l.hwm > 0 && msg.retries < l.hwm then
      if msg.Chaser? then
        Sent(l.(awaits := l.awaits[msg.retries := false]), [], [], [])
      else
        Sent(l.(buf := l.buf[msg.retries := l.buf[msg.retries] + [msg]]), [], [], [])
    else if l.hwm > 0 && msg.Chaser? then
      Flush(l.(awaits := l.awaits[l.hwm := false]), brokers)
    else
      PassThrough(l, [], msg, brokers)
  }

  // ----- flusher: one per broker producer -----

  /** What the flusher does with the messages it has claimed for the current request. */
  datatype Mode = Scanning | Acking | Retrying | Failing

  /** `queue` holds what was sent to this broker producer and not looked at yet, `claimed`
      the messages grouped into the current request. `failing` is the partition's entry in
      currentRetries, `closing` the flusher's closing error. */
  datatype Flusher = Flusher(failing: bool, closing: bool, mode: Mode, claimed: seq<Msg>, queue: seq<Msg>)

  const IDLE_FLUSHER := Flusher(false, false, Scanning, [], [])

  datatype Outcome = Delivered | Retriable | Fatal | Broken

  /** Look at the next message of a batch: group it, or hand it back (Some) for a retry. */
  function ScanNext(f: Flusher): (Flusher, Option<Msg>)
    requires f.queue != []
  {
    var m := f.queue[0];
    var f' := f.(queue := f.queue[1..]);
    if f.closing then (f', Some(m))
    else if f.failing then (f'.(failing := !m.Chaser?), Some(m))
    else (f'.(claimed := f.claimed + [m]), None)
  }

  /** The request's outcome for this partition. Broken is a connection error. */
  function Conclude(f: Flusher, o: Outcome): Flusher {
    match o
    case Delivered => f.(mode := Acking)
    case Fatal => f.(mode := Failing)
    case Retriable => f.(mode := Retrying, failing := true)
    case Broken => f.(mode := if f.claimed == [] then Scanning else Retrying, closing := true)
  }

  /** Settle the first claimed message. */
  function DrainNext(f: Flusher): Flusher
    requires f.claimed != []
  {
    f.(claimed := f.claimed[1..], mode := if |f.claimed| == 1 then Scanning else f.mode)
  }

  // ----- the whole producer -----

  /** `input` is the FIFO path from the producer's input channel to the leader dispatcher,
      `retries` the retry channel followed by the retry handler's buffer. */
  datatype System = System(
    max: nat, next: nat,
    input: seq<Msg>, retries: seq<Msg>,
    leader: Leader, flushers: seq<Flusher>,
    successes: seq<Msg>, errors: seq<Msg>)

  datatype Event =
    | Submit
    | Reject
    | Forward
    | Lead(brokers: seq<Option<nat>>)
    | Start
    | Scan(f: nat)
    | Request(f: nat, outcome: Outcome)
    | Drain(f: nat)

  function Init(max: nat, prefetched: bool): System {
    System(max, 0, [], [],
           Leader(0, seq(max + 1, _ => []), seq(max + 1, _ => false), if prefetched then Some(0) else None),
           [IDLE_FLUSHER], [], [])
  }

  /** retryMessages for one message. */
  function Retry(s: System, m: Msg): System {
    if m.retries >= s.max then s.(errors := s.errors + [m]) else s.(retries := s.retries + [Up(m)])
  }

  function Enqueue(s: System, output: Option<nat>, msgs: seq<Msg>): System {
    if output.Some? && output.value < |s.flushers| then
      var f := s.flushers[output.value];
      s.(flushers := s.flushers[output.value := f.(queue := f.queue + msgs)])
    else s
  }

  predicate BrokersOk(s: System, brokers: seq<Option<nat>>) {
    && |brokers| == s.max + 1
    && forall h :: 0 <= h < |brokers| && brokers[h].Some? ==> brokers[h].value < |s.flushers|
  }

  function LeadStep(s: System, brokers: seq<Option<nat>>): Option<System>
    requires BrokersOk(s, brokers) && LeaderShape(s.leader, s.max) && s.input != []
  {
    var r := Dispatch(s.leader, s.input[0], brokers);
    if r.Fault? then None
    else
      var s1 := Enqueue(s.(input := s.input[1..]), s.leader.output, r.toOld);
      var s2 := Enqueue(s1.(leader := r.leader), r.leader.output, r.toNew);
      Some(s2.(errors := s2.errors + r.failed))
  }

  function ScanStep(s: System, f: nat): System
    requires f < |s.flushers| && s.flushers[f].queue != []
  {
    var (f', back) := ScanNext(s.flushers[f]);
    var s' := s.(flushers := s.flushers[f := f']);
    if back.Some? then Retry(s', back.value) else s'
  }

  function DrainStep(s: System, f: nat): System
    requires f < |s.flushers| && s.flushers[f].claimed != []
  {
    var m := s.flushers[f].claimed[0];
    var s' := s.(flushers := s.flushers[f := DrainNext(s.flushers[f])]);
    match s.flushers[f].mode
    case Acking => s'.(successes := s'.successes + [m])
    case Retrying => Retry(s', m)
    case _ => s'.(errors := s'.errors + [m])
  }

  /** One atomic step of one goroutine, or None when that goroutine cannot take it. */
  function Step(s: System, ev: Event): Option<System> {
    match ev
    case Submit => Some(s.(next := s.next + 1, input := s.input + [Data(s.next, 0)]))
    case Reject => Some(s.(next := s.next + 1, errors := s.errors + [Data(s.next, 0)]))
    case Forward =>
      if s.retries == [] then None
      else Some(s.(input := s.input + [s.retries[0]], retries := s.retries[1..]))
    case Lead(brokers) =>
      if s.input != [] && BrokersOk(s, brokers) && LeaderShape(s.leader, s.max) then LeadStep(s, brokers) else None
    case Start => Some(s.(flushers := s.flushers + [IDLE_FLUSHER]))
    case Scan(f) =>
      if f < |s.flushers| && s.flushers[f].queue != [] && s.flushers[f].mode.Scanning?
      then Some(ScanStep(s, f)) else None
    case Request(f, o) =>
      if f < |s.flushers| && s.flushers[f].mode.Scanning? && !s.flushers[f].closing
         && (o.Broken? || s.flushers[f].claimed != [])
      then Some(s.(flushers := s.flushers[f := Conclude(s.flushers[f], o)])) else None
    case Drain(f) =>
      if f < |s.flushers| && s.flushers[f].claimed != [] && !s.flushers[f].mode.Scanning?
      then Some(DrainStep(s, f)) else None
  }

  /** A run: every event is taken in turn; None when one of them is not enabled. */
  function Run(s: System, events: seq<Event>): Option<System>
    decreases |events|
  {
    if events == [] then Some(s)
    else
      var s' := Step(s, events[0]);
      if s'.None? then None else Run(s'.value, events[1..])
  }
}
