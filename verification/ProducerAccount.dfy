/** Nothing is lost and nothing is duplicated: in every run each submitted message is in
    exactly one place, and each level that awaits a chaser has exactly one in flight. */
module ProducerAccount {
  import opened Wrappers
  import opened Producer
  import opened ProducerInvariant
  import opened ProducerBrokers
  import opened ProducerLeader
  import opened ProducerOrder

  /** What is counted: a message by its number, or the chasers of a level. */
  datatype Key = Id(n: nat) | Mark(level: nat)

  predicate Is(m: Msg, k: Key) {
    if m.Data? then k == Id(m.id) else k == Mark(m.retries)
  }

  function Count(q: seq<Msg>, k: Key): nat {
    if q == [] then 0 else (if Is(q[0], k) then 1 else 0) + Count(q[1..], k)
  }

  function CountAll(qs: seq<seq<Msg>>, k: Key): nat {
    if qs == [] then 0 else Count(qs[0], k) + CountAll(qs[1..], k)
  }

  function Places(s: System, k: Key): nat {
    Count(Inbound(s), k) + CountAll(Pipes(s), k) + CountAll(s.leader.buf, k)
    + Count(s.successes, k) + Count(s.errors, k)
  }

  function Due(s: System, k: Key): nat {
    match k
    case Id(n) => if n < s.next then 1 else 0
    case Mark(l) => if l < |s.leader.awaits| && s.leader.awaits[l] then 1 else 0
  }

  lemma {:induction false} CountJoin(q: seq<Msg>, r: seq<Msg>, k: Key)
    ensures Count(q + r, k) == Count(q, k) + Count(r, k)
  {
    if q == [] {
      assert q + r == r;
    } else {
      assert (q + r)[1..] == q[1..] + r;
      CountJoin(q[1..], r, k);
    }
  }

  lemma CountOne(m: Msg, k: Key)
    ensures Count([m], k) == if Is(m, k) then 1 else 0
  {
    assert [m][1..] == [];
  }

  lemma CountHead(q: seq<Msg>, k: Key)
    requires q != []
    ensures Count(q, k) == Count([q[0]], k) + Count(q[1..], k)
  {
    assert [q[0]] + q[1..] == q;
    CountJoin([q[0]], q[1..], k);
  }

  lemma {:induction false} CountUpdate(qs: seq<seq<Msg>>, i: nat, q: seq<Msg>, k: Key)
    requires i < |qs|
    ensures CountAll(qs[i := q], k) + Count(qs[i], k) == CountAll(qs, k) + Count(q, k)
  {
    if i == 0 {
      assert qs[i := q][1..] == qs[1..];
    } else {
      assert qs[i := q][1..] == qs[1..][i - 1 := q];
      CountUpdate(qs[1..], i - 1, q, k);
    }
  }

  lemma {:induction false} CountAllJoin(qs: seq<seq<Msg>>, rs: seq<seq<Msg>>, k: Key)
    ensures CountAll(qs + rs, k) == CountAll(qs, k) + CountAll(rs, k)
  {
    if qs == [] {
      assert qs + rs == rs;
    } else {
      assert (qs + rs)[1..] == qs[1..] + rs;
      CountAllJoin(qs[1..], rs, k);
    }
  }

  /** Data never counts as a chaser. */
  lemma {:induction false} NoMarks(q: seq<Msg>, level: nat)
    requires forall m :: m in q ==> m.Data?
    ensures Count(q, Mark(level)) == 0
  {
    if q != [] {
      assert q[0] in q;
      NoMarks(q[1..], level);
    }
  }

  lemma {:induction false} UpSameIds(q: seq<Msg>, n: nat)
    ensures Count(UpAll(q), Id(n)) == Count(q, Id(n))
  {
    if q != [] {
      assert UpAll(q)[1..] == UpAll(q[1..]);
      UpSameIds(q[1..], n);
    }
  }

  // ----- the leader dispatcher -----

  /** The flush loop sends or fails exactly the backlog it removes. */
  lemma {:induction false} FlushAccounts(l: Leader, brokers: seq<Option<nat>>, k: Key)
    requires 0 < l.hwm < |l.buf| == |l.awaits| == |brokers|
    ensures var r := Flush(l, brokers);
            && CountAll(l.buf, k) == CountAll(r.leader.buf, k) + Count(r.toNew, k) + Count(r.failed, k)
            && r.leader.awaits == l.awaits
    decreases l.hwm
  {
    var h := l.hwm - 1;
    var l' := Acquire(l.(hwm := h, buf := l.buf[h := []]), brokers);
    CountUpdate(l.buf, h, [], k);
    if !(l.awaits[h] || h == 0) {
      FlushAccounts(l', brokers, k);
      var rest := Flush(l', brokers);
      CountJoin(if l'.output.Some? then l.buf[h] else [], rest.toNew, k);
      CountJoin(if l'.output.Some? then [] else l.buf[h], rest.failed, k);
    }
  }

  /** Every message handled by the leader dispatcher is forwarded once, returned as an
      error, or kept in one buffer; nothing else leaves a buffer. */
  lemma DispatchAccounts(l: Leader, msg: Msg, brokers: seq<Option<nat>>, n: nat)
    requires |brokers| > 0 && LeaderShape(l, |brokers| - 1)
    requires Dispatch(l, msg, brokers).Sent?
    ensures var r := Dispatch(l, msg, brokers);
            && Count([msg], Id(n)) + CountAll(l.buf, Id(n))
               == CountAll(r.leader.buf, Id(n)) + Count(r.toNew, Id(n)) + Count(r.failed, Id(n))
            && Count(r.toOld, Id(n)) == 0
  {
    var k := Id(n);
    CountOne(msg, k);
    if msg.retries > l.hwm {
      CountOne(Chaser(msg.retries - 1), k);
    } else if l.hwm > 0 && msg.retries < l.hwm {
      if msg.Data? {
        CountUpdate(l.buf, msg.retries, l.buf[msg.retries] + [msg], k);
        CountJoin(l.buf[msg.retries], [msg], k);
      }
    } else if l.hwm > 0 && msg.Chaser? {
      FlushAccounts(l.(awaits := l.awaits[l.hwm := false]), brokers, k);
    }
  }

  lemma EnqueueViews(s: System, o: Option<nat>, xs: seq<Msg>, k: Key)
    requires o.Some? ==> o.value < |s.flushers|
    requires o.None? ==> xs == []
    ensures Inbound(Enqueue(s, o, xs)) == Inbound(s)
    ensures CountAll(Pipes(Enqueue(s, o, xs)), k) == CountAll(Pipes(s), k) + Count(UpAll(xs), k)
  {
    var t := Enqueue(s, o, xs);
    if o.Some? {
      var f := o.value;
      var fl := s.flushers[f];
      assert fl.claimed + (fl.queue + xs) == (fl.claimed + fl.queue) + xs;
      assert InFlight(t.flushers[f]) == InFlight(fl) + UpAll(xs);
      assert Pipes(t) == Pipes(s)[f := InFlight(fl) + UpAll(xs)];
      CountUpdate(Pipes(s), f, InFlight(fl) + UpAll(xs), k);
      CountJoin(InFlight(fl), UpAll(xs), k);
    } else {
      assert UpAll(xs) == [];
    }
  }

  /** The leader's turn, seen from outside: what it took, kept, sent and failed. */
  lemma LeadMoves(s: System, brokers: seq<Option<nat>>, k: Key)
    requires Stable(s) && Step(s, Lead(brokers)).Some?
    ensures var t, r := Step(s, Lead(brokers)).value, Dispatch(s.leader, s.input[0], brokers);
            && r.Sent? && t.leader == r.leader && t.next == s.next && t.successes == s.successes
            && t.errors == s.errors + r.failed
            && Count(Inbound(t), k) + Count([s.input[0]], k) == Count(Inbound(s), k)
            && CountAll(Pipes(t), k) == CountAll(Pipes(s), k) + Count(UpAll(r.toOld), k) + Count(UpAll(r.toNew), k)
  {
    hide Inv;
    InvOutput(s);
    LeadKeeps(s, brokers);
    InvOutput(Step(s, Lead(brokers)).value);
    var r := Dispatch(s.leader, s.input[0], brokers);
    var s0 := s.(input := s.input[1..]);
    assert Pipes(s0) == Pipes(s);
    assert s.input + s.retries == [s.input[0]] + (s.input[1..] + s.retries);
    CountJoin([s.input[0]], s.input[1..] + s.retries, k);
    DispatchOutputs(s.leader, s.input[0], brokers);
    EnqueueViews(s0, s.leader.output, r.toOld, k);
    var s1 := Enqueue(s0, s.leader.output, r.toOld).(leader := r.leader);
    assert Pipes(s1) == Pipes(Enqueue(s0, s.leader.output, r.toOld));
    EnqueueViews(s1, r.leader.output, r.toNew, k);
    var s2 := Enqueue(s1, r.leader.output, r.toNew);
    assert Pipes(s2.(errors := s2.errors + r.failed)) == Pipes(s2);
  }

  lemma {:induction false} FlushOutputs(l: Leader, brokers: seq<Option<nat>>)
    requires 0 < l.hwm < |l.buf| == |l.awaits| == |brokers|
    ensures Flush(l, brokers).leader.output.None? ==> Flush(l, brokers).toNew == []
    decreases l.hwm
  {
    var h := l.hwm - 1;
    if !(l.awaits[h] || h == 0) {
      FlushOutputs(Acquire(l.(hwm := h, buf := l.buf[h := []]), brokers), brokers);
    }
  }

  lemma DispatchOutputs(l: Leader, msg: Msg, brokers: seq<Option<nat>>)
    requires |brokers| > 0 && LeaderShape(l, |brokers| - 1)
    ensures var r := Dispatch(l, msg, brokers);
            r.Sent? ==> (l.output.None? ==> r.toOld == []) && (r.leader.output.None? ==> r.toNew == [])
  {
    if msg.retries <= l.hwm && l.hwm > 0 && msg.retries == l.hwm && msg.Chaser? {
      FlushOutputs(l.(awaits := l.awaits[l.hwm := false]), brokers);
    }
  }

  // ----- chasers -----

  lemma {:induction false} FlushSendsData(l: Leader, brokers: seq<Option<nat>>)
    requires 0 < l.hwm < |l.buf| == |l.awaits| == |brokers|
    requires forall i, m :: 0 <= i < |l.buf| && m in l.buf[i] ==> m.Data?
    ensures var r := Flush(l, brokers); forall m :: m in r.toNew || m in r.failed ==> m.Data?
    decreases l.hwm
  {
    var h := l.hwm - 1;
    if !(l.awaits[h] || h == 0) {
      FlushSendsData(Acquire(l.(hwm := h, buf := l.buf[h := []]), brokers), brokers);
    }
  }

  lemma MsgIsData(s: System)
    requires Stable(s) && s.input != []
    requires s.leader.hwm < s.input[0].retries || s.leader.hwm == 0
    ensures s.input[0].Data?
  {
    hide Inv;
    if s.leader.hwm < s.input[0].retries {
      RaiseIsHighestHere(s);
    } else {
      ZeroIsData(s);
    }
  }

  lemma ChaserIsAwaited(s: System)
    requires Stable(s) && s.input != [] && s.input[0].Chaser?
    ensures 1 <= s.input[0].retries < |s.leader.awaits| && s.leader.awaits[s.input[0].retries]
  {
    PopViews(s);
  }

  lemma AboveIsNotAwaited(s: System, level: nat)
    requires Inv(s) && s.leader.hwm < level < |s.leader.awaits|
    ensures !s.leader.awaits[level]
  {
  }

  lemma BuffersHoldData(s: System)
    requires Inv(s)
    ensures forall l, m :: 0 <= l < |s.leader.buf| && m in s.leader.buf[l] ==> m.Data?
  {
  }

  lemma {:induction false} NoMarksIn(qs: seq<seq<Msg>>, level: nat)
    requires forall l, m :: 0 <= l < |qs| && m in qs[l] ==> m.Data?
    ensures CountAll(qs, Mark(level)) == 0
  {
    if qs != [] {
      NoMarks(qs[0], level);
      NoMarksIn(qs[1..], level);
    }
  }

  lemma LeadSendsData(s: System, brokers: seq<Option<nat>>)
    requires Stable(s) && Step(s, Lead(brokers)).Some?
    ensures var r := Dispatch(s.leader, s.input[0], brokers);
            r.Sent? && forall m :: m in r.toNew || m in r.failed ==> m.Data?
  {
    hide Inv;
    BuffersHoldData(s);
    LeadMoves(s, brokers, Mark(0));
    var l, msg := s.leader, s.input[0];
    if l.hwm < msg.retries || l.hwm == 0 {
      MsgIsData(s);
    } else if msg.retries == l.hwm && msg.Chaser? {
      FlushSendsData(l.(awaits := l.awaits[l.hwm := false]), brokers);
    }
  }

  lemma UpAllData(q: seq<Msg>)
    requires forall m :: m in q ==> m.Data?
    ensures forall m :: m in UpAll(q) ==> m.Data?
  {
  }

  /** Which levels await a chaser after the leader's turn. */
  lemma DispatchAwaits(l: Leader, msg: Msg, brokers: seq<Option<nat>>)
    requires |brokers| > 0 && LeaderShape(l, |brokers| - 1) && Dispatch(l, msg, brokers).Sent?
    requires msg.Chaser? ==> 1 <= msg.retries <= l.hwm
    ensures var r := Dispatch(l, msg, brokers);
            && r.leader.awaits == (if l.hwm < msg.retries then l.awaits[msg.retries := true]
                                   else if msg.Chaser? then l.awaits[msg.retries := false]
                                   else l.awaits)
            && r.toOld == (if l.hwm < msg.retries then [Chaser(msg.retries - 1)] else [])
  {
    if l.hwm > 0 && msg.retries == l.hwm && msg.Chaser? {
      FlushAccounts(l.(awaits := l.awaits[l.hwm := false]), brokers, Mark(0));
    }
  }

  /** A chaser is consumed exactly when its level stops waiting, and sent when one starts. */
  lemma LeadMarks(s: System, brokers: seq<Option<nat>>, level: nat)
    requires Stable(s) && Step(s, Lead(brokers)).Some?
    ensures var t, r, k := Step(s, Lead(brokers)).value, Dispatch(s.leader, s.input[0], brokers), Mark(level);
            Due(t, k) + Count([s.input[0]], k) == Due(s, k) + Count(UpAll(r.toOld), k)
  {
    hide Inv, Dispatch, LeadStep, Count;
    var l, msg, k := s.leader, s.input[0], Mark(level);
    LeadMoves(s, brokers, k);
    CountOne(msg, k);
    InvOutput(s);
    assert UpAll([]) == [] && Count([], k) == 0 by { NoMarks([], level); }
    if msg.Chaser? { ChaserIsAwaited(s); }
    if msg.retries > l.hwm {
      MsgIsData(s);
      RaiseIsHighestHere(s);
      assert UpAll([Chaser(msg.retries - 1)]) == [Chaser(msg.retries)];
      CountOne(Chaser(msg.retries), k);
      AboveIsNotAwaited(s, msg.retries);
    }
    DispatchAwaits(l, msg, brokers);
  }

  lemma LeadAccounts(s: System, brokers: seq<Option<nat>>, k: Key)
    requires Stable(s) && Step(s, Lead(brokers)).Some?
    ensures Places(Step(s, Lead(brokers)).value, k) + Due(s, k) == Places(s, k) + Due(Step(s, Lead(brokers)).value, k)
  {
    hide Inv;
    var t, r := Step(s, Lead(brokers)).value, Dispatch(s.leader, s.input[0], brokers);
    LeadMoves(s, brokers, k);
    CountJoin(s.errors, r.failed, k);
    match k
    case Id(n) =>
      InvOutput(s);
      DispatchAccounts(s.leader, s.input[0], brokers, n);
      UpSameIds(r.toOld, n);
      UpSameIds(r.toNew, n);
    case Mark(level) =>
      LeadMarks(s, brokers, level);
      LeadSendsData(s, brokers);
      LeadKeeps(s, brokers);
      BuffersHoldData(s);
      BuffersHoldData(t);
      NoMarksIn(s.leader.buf, level);
      NoMarksIn(t.leader.buf, level);
      NoMarks(r.failed, level);
      UpAllData(r.toNew);
      NoMarks(UpAll(r.toNew), level);
  }

  // ----- the other steps -----

  lemma GivesUpAccounts(s: System, t: System, f: nat, u: Msg, back: bool, k: Key)
    requires GivesUp(s, t, f, u, back)
    ensures CountAll(Pipes(t), k) + Count([u], k) == CountAll(Pipes(s), k)
    ensures Count(Inbound(t), k) == Count(Inbound(s), k) + if back then Count([u], k) else 0
  {
    GivesUpViews(s, t, f, u, back);
    CountHead(Pipes(s)[f], k);
    CountUpdate(Pipes(s), f, Pipes(s)[f][1..], k);
    if back { CountJoin(Inbound(s), [u], k); }
  }

  lemma SettledAccounts(s: System, t: System, f: nat, m: Msg, back: bool, k: Key)
    requires GivesUp(s, t.(successes := s.successes), f, Up(m), back)
    requires t.successes == s.successes || t.successes == s.successes + [m]
    requires t.errors == s.errors || t.errors == s.errors + [m]
    requires (if back then 1 else 0) + |t.successes| + |t.errors| == |s.successes| + |s.errors| + 1
    ensures Places(t, k) == Places(s, k) && Due(t, k) == Due(s, k)
  {
    hide Count, CountAll, InFlight, FlusherShape, HandsBack;
    var mid := t.(successes := s.successes);
    GivesUpAccounts(s, mid, f, Up(m), back, k);
    assert Pipes(mid) == Pipes(t);
    CountOne(m, k);
    CountOne(Up(m), k);
    CountJoin(s.successes, [m], k);
    CountJoin(s.errors, [m], k);
  }

  lemma ScanBackAccounts(s: System, f: nat, k: Key)
    requires Stable(s) && Step(s, Scan(f)).Some? && HandsBack(s.flushers[f])
    ensures Places(Step(s, Scan(f)).value, k) == Places(s, k) && Due(Step(s, Scan(f)).value, k) == Due(s, k)
  {
    hide Lines, Apart, Held, Live, Triggered, Settled, PipeOk, Count, CountAll, Places, Due;
    var t, fl := Step(s, Scan(f)).value, s.flushers[f];
    var m := fl.queue[0];
    assert FlusherShape(fl);
    assert fl.claimed + fl.queue == fl.queue;
    assert fl.claimed + fl.queue[1..] == fl.queue[1..];
    InFlightTail(fl, t.flushers[f]);
    assert Up(m) in Pipes(s)[f];
    assert Moving(s, Up(m));
    assert t.(successes := s.successes) == t;
    SettledAccounts(s, t, f, m, m.retries < s.max, k);
  }

  lemma ScanAccounts(s: System, f: nat, k: Key)
    requires Stable(s) && Step(s, Scan(f)).Some?
    ensures Places(Step(s, Scan(f)).value, k) == Places(s, k) && Due(Step(s, Scan(f)).value, k) == Due(s, k)
  {
    if HandsBack(s.flushers[f]) {
      ScanBackAccounts(s, f, k);
    } else {
      hide Inv, Count, CountAll;
      var t, fl := Step(s, Scan(f)).value, s.flushers[f];
      assert fl.claimed + [fl.queue[0]] + fl.queue[1..] == fl.claimed + fl.queue;
      assert Pipes(t) == Pipes(s);
    }
  }

  lemma DrainAccounts(s: System, f: nat, k: Key)
    requires Stable(s) && Step(s, Drain(f)).Some?
    ensures Places(Step(s, Drain(f)).value, k) == Places(s, k) && Due(Step(s, Drain(f)).value, k) == Due(s, k)
  {
    hide Lines, Apart, Held, Live, Triggered, Settled, PipeOk, Pipes, Moving, Count, CountAll;
    var t, fl := Step(s, Drain(f)).value, s.flushers[f];
    var m := fl.claimed[0];
    assert FlusherShape(fl) && m.Data?;
    assert (fl.claimed + fl.queue)[1..] == fl.claimed[1..] + fl.queue;
    InFlightTail(fl, t.flushers[f]);
    SettledAccounts(s, t, f, m, fl.mode.Retrying? && m.retries < s.max, k);
  }

  lemma FreshAccounts(s: System, k: Key)
    ensures Places(Step(s, Submit).value, k) + Due(s, k) == Places(s, k) + Due(Step(s, Submit).value, k)
    ensures Places(Step(s, Reject).value, k) + Due(s, k) == Places(s, k) + Due(Step(s, Reject).value, k)
  {
    var x, t, r := Data(s.next, 0), Step(s, Submit).value, Step(s, Reject).value;
    assert Pipes(t) == Pipes(s) && Pipes(r) == Pipes(s);
    assert Inbound(t) == s.input + ([x] + s.retries);
    CountJoin(s.input, [x] + s.retries, k);
    CountJoin([x], s.retries, k);
    CountJoin(s.input, s.retries, k);
    CountJoin(s.errors, [x], k);
    CountOne(x, k);
  }

  lemma StepAccounts(s: System, ev: Event, k: Key)
    requires Stable(s) && Step(s, ev).Some?
    ensures Places(Step(s, ev).value, k) + Due(s, k) == Places(s, k) + Due(Step(s, ev).value, k)
  {
    hide Inv, Count, CountAll, InFlight;
    var t := Step(s, ev).value;
    match ev
    case Submit => FreshAccounts(s, k);
    case Reject => FreshAccounts(s, k);
    case Forward =>
      assert Pipes(t) == Pipes(s);
      assert Inbound(t) == Inbound(s) by { assert s.input + [s.retries[0]] + s.retries[1..] == s.input + s.retries; }
    case Lead(brokers) => LeadAccounts(s, brokers, k);
    case Start =>
      IdleIsEmpty();
      assert Pipes(t) == Pipes(s) + [[]];
      CountAllJoin(Pipes(s), [[]], k);
      EmptyCounts(k);
    case Scan(f) => ScanAccounts(s, f, k);
    case Request(f, o) =>
      ConcludeHolds(s.flushers[f], o);
      assert Pipes(t) == Pipes(s);
    case Drain(f) => DrainAccounts(s, f, k);
  }

  lemma EmptyCounts(k: Key)
    ensures CountAll([[]], k) == 0
  {
  }

  lemma ConcludeHolds(f: Flusher, o: Outcome)
    ensures InFlight(Conclude(f, o)) == InFlight(f)
  {
  }

  lemma {:induction false} RunAccounts(s: System, events: seq<Event>, k: Key)
    requires Stable(s) && Run(s, events).Some?
    ensures var t := Run(s, events).value; Places(t, k) + Due(s, k) == Places(s, k) + Due(t, k)
    decreases |events|
  {
    hide Stable, Places, Due;
    if events != [] {
      StepKeeps(s, events[0]);
      StepAccounts(s, events[0], k);
      RunAccounts(Step(s, events[0]).value, events[1..], k);
    }
  }

  /** In every run: a submitted message is in exactly one place - waiting, in flight,
      buffered, acknowledged or returned as an error - and a level awaits its chaser
      exactly when one (and only one) chaser of that level is on its way back. */
  lemma EverythingAccountedFor(max: nat, prefetched: bool, events: seq<Event>, k: Key)
    requires Run(Init(max, prefetched), events).Some?
    ensures var s := Run(Init(max, prefetched), events).value; Places(s, k) == Due(s, k)
  {
    hide Inv, Places, Due;
    InitStable(max, prefetched);
    RunAccounts(Init(max, prefetched), events, k);
    InitAccounts(max, prefetched, k);
  }

  lemma InitAccounts(max: nat, prefetched: bool, k: Key)
    ensures Places(Init(max, prefetched), k) == Due(Init(max, prefetched), k) == 0
  {
    hide InFlight;
    var s := Init(max, prefetched);
    IdleIsEmpty();
    assert Pipes(s) == [[]];
    EmptyCounts(k);
    EmptyBuffers(max + 1, k);
  }

  lemma {:induction false} EmptyBuffers(n: nat, k: Key)
    ensures CountAll(seq(n, _ => []), k) == 0
  {
    if n > 0 {
      assert seq<seq<Msg>>(n, _ => [])[1..] == seq(n - 1, _ => []);
      EmptyBuffers(n - 1, k);
    }
  }

  /** The leader dispatcher never indexes past its retry levels and never sends on the
      nil channel, in any reachable state and whatever the metadata refresh answers. */
  lemma LeaderNeverFaults(max: nat, prefetched: bool, events: seq<Event>, brokers: seq<Option<nat>>)
    requires Run(Init(max, prefetched), events).Some?
    ensures var s := Run(Init(max, prefetched), events).value;
            BrokersOk(s, brokers) && s.input != [] ==>
              LeaderShape(s.leader, s.max) && Dispatch(s.leader, s.input[0], brokers).Sent?
  {
    InitStable(max, prefetched);
    RunKeeps(Init(max, prefetched), events);
    var s := Run(Init(max, prefetched), events).value;
    hide Inv;
    InvOutput(s);
    if BrokersOk(s, brokers) && s.input != [] { NeverFaults(s, brokers); }
  }

  /** Between two messages: buffers at or above the high watermark are empty, a positive
      watermark awaits its chaser and no higher level does. */
  lemma LeaderLevels(max: nat, prefetched: bool, events: seq<Event>, l: nat)
    requires Run(Init(max, prefetched), events).Some? && l <= max
    ensures var d := Run(Init(max, prefetched), events).value.leader;
            && LeaderShape(d, max)
            && (d.hwm <= l ==> d.buf[l] == [])
            && (d.hwm > 0 ==> d.awaits[d.hwm])
            && (d.hwm < l ==> !d.awaits[l])
            && (forall m :: m in d.buf[l] ==> m.Data? && m.retries == l)
  {
    InitStable(max, prefetched);
    RunKeeps(Init(max, prefetched), events);
    RunMax(Init(max, prefetched), events);
  }

  lemma {:induction false} RunMax(s: System, events: seq<Event>)
    requires Run(s, events).Some?
    ensures Run(s, events).value.max == s.max
    decreases |events|
  {
    if events != [] {
      RunMax(Step(s, events[0]).value, events[1..]);
    }
  }
}
