/** What the application is told about its messages, and why: acknowledgements, errors and
    retries follow from the outcomes of the requests, read off the events of a run alone. */
module ProducerOutcome {
  import opened Wrappers
  import opened Producer
  import opened ProducerInvariant
  import opened ProducerBrokers
  import opened ProducerLeader
  import opened ProducerOrder
  import Account = ProducerAccount
  import Routines = ProducerRoutines

  // ----- the history of a broker producer -----

  /** The outcome of the latest request of flusher f. */
  function LastOutcome(events: seq<Event>, f: nat): Option<Outcome>
    decreases |events|
  {
    if events == [] then None
    else
      var n := |events| - 1;
      if events[n].Request? && events[n].f == f then Some(events[n].outcome) else LastOutcome(events[..n], f)
  }

  predicate LooksAtChaser(s: System, f: nat) {
    f < |s.flushers| && s.flushers[f].queue != [] && s.flushers[f].queue[0].Chaser?
  }

  /** A request of flusher f got a retriable error, and no chaser has come to f since. */
  predicate Refused(s: System, events: seq<Event>, f: nat)
    requires Run(s, events).Some?
    decreases |events|
  {
    if events == [] then false
    else
      var n := |events| - 1;
      RunPrefix(s, events, n);
      events[n] == Request(f, Retriable)
      || (Refused(s, events[..n], f) && !(events[n] == Scan(f) && LooksAtChaser(Run(s, events[..n]).value, f)))
  }

  /** The message stood among the claimed ones when flusher f had a request with outcome o. */
  predicate AnsweredAt(s: System, events: seq<Event>, k: nat, f: nat, o: Outcome, m: Msg)
    requires k < |events|
  {
    && events[k] == Request(f, o)
    && Run(s, events[..k]).Some?
    && f < |Run(s, events[..k]).value.flushers|
    && m in Run(s, events[..k]).value.flushers[f].claimed
  }

  ghost predicate Answered(s: System, events: seq<Event>, f: nat, o: Outcome, m: Msg) {
    exists k :: 0 <= k < |events| && AnsweredAt(s, events, k, f, o, m)
  }

  lemma RunPrefix(s: System, events: seq<Event>, k: nat)
    requires Run(s, events).Some? && k <= |events|
    ensures Run(s, events[..k]).Some?
  {
    assert events[..k] + events[k..] == events;
    Routines.RunJoin(s, events[..k], events[k..]);
  }

  /** The last step of a run. */
  lemma RunLast(s: System, events: seq<Event>, ev: Event)
    ensures Run(s, events + [ev])
            == var t := Run(s, events); if t.None? then None else Step(t.value, ev)
    ensures (events + [ev])[..|events|] == events
  {
    Routines.RunJoin(s, events, [ev]);
    if Run(s, events).Some? {
      var t := Run(s, events).value;
      assert [ev][1..] == [];
      if Step(t, ev).Some? { assert Run(Step(t, ev).value, []) == Step(t, ev); }
    }
  }

  lemma StillAnswered(s: System, events: seq<Event>, ev: Event, f: nat, o: Outcome, m: Msg)
    requires Answered(s, events, f, o, m)
    ensures Answered(s, events + [ev], f, o, m)
  {
    var k :| 0 <= k < |events| && AnsweredAt(s, events, k, f, o, m);
    assert (events + [ev])[..k] == events[..k];
    assert AnsweredAt(s, events + [ev], k, f, o, m);
  }

  // ----- the state follows the history -----

  predicate Idle(s: System) {
    && (forall f :: 0 <= f < |s.flushers| ==> s.flushers[f] == IDLE_FLUSHER)
    && s.successes == s.errors == []
  }

  function FlusherOf(s: System, f: nat): Flusher {
    if f < |s.flushers| then s.flushers[f] else IDLE_FLUSHER
  }

  /** Which events touch flusher f, and how. */
  lemma FlusherMoves(s: System, ev: Event, f: nat)
    requires Step(s, ev).Some?
    ensures var a, b := FlusherOf(s, f), FlusherOf(Step(s, ev).value, f);
            if ev.Request? && ev.f == f then b == Conclude(a, ev.outcome)
            else if ev == Scan(f) then a.queue != [] && a.mode.Scanning? && b == ScanNext(a).0
            else if ev == Drain(f) then a.claimed != [] && !a.mode.Scanning? && b == DrainNext(a)
            else b == a.(queue := b.queue)
  {
  }

  /** Flusher f, whose state is fl, does what its history calls for. */
  ghost predicate Follows(s: System, events: seq<Event>, f: nat, fl: Flusher)
    requires Run(s, events).Some?
  {
    && (fl.closing <==> Request(f, Broken) in events)
    && (!fl.closing ==> (fl.failing <==> Refused(s, events, f)))
    && (!fl.mode.Scanning? ==>
          && LastOutcome(events, f).Some?
          && (fl.mode.Acking? <==> LastOutcome(events, f).value.Delivered?)
          && (fl.mode.Failing? <==> LastOutcome(events, f).value.Fatal?)
          && (forall m :: m in fl.claimed ==> Answered(s, events, f, LastOutcome(events, f).value, m)))
  }

  lemma RequestFollows(s: System, events: seq<Event>, f: nat, o: Outcome)
    requires Run(s, events + [Request(f, o)]).Some? && Run(s, events).Some?
    requires Follows(s, events, f, FlusherOf(Run(s, events).value, f))
    ensures Follows(s, events + [Request(f, o)], f, FlusherOf(Run(s, events + [Request(f, o)]).value, f))
  {
    var ev, longer := Request(f, o), events + [Request(f, o)];
    RunLast(s, events, ev);
    var fl := FlusherOf(Run(s, events).value, f);
    FlusherMoves(Run(s, events).value, ev, f);
    assert longer[|events|] == ev;
    assert forall o' :: Request(f, o') in longer <==> Request(f, o') in events || o' == o;
    forall m | m in fl.claimed
      ensures Answered(s, longer, f, o, m)
    {
      assert AnsweredAt(s, longer, |events|, f, o, m);
    }
  }

  lemma StepFollows(s: System, events: seq<Event>, ev: Event, f: nat)
    requires Run(s, events + [ev]).Some? && Run(s, events).Some?
    requires Follows(s, events, f, FlusherOf(Run(s, events).value, f))
    ensures Follows(s, events + [ev], f, FlusherOf(Run(s, events + [ev]).value, f))
  {
    if ev.Request? && ev.f == f {
      RequestFollows(s, events, f, ev.outcome);
    } else {
      RunLast(s, events, ev);
      var t, longer := Run(s, events).value, events + [ev];
      FlusherMoves(t, ev, f);
      hide Step, Run, Answered;
      assert longer[|events|] == ev && LastOutcome(longer, f) == LastOutcome(events, f);
      assert Request(f, Broken) in longer <==> Request(f, Broken) in events;
      if LastOutcome(events, f).Some? {
        var o := LastOutcome(events, f).value;
        forall m | Answered(s, events, f, o, m)
          ensures Answered(s, longer, f, o, m)
        {
          StillAnswered(s, events, ev, f, o, m);
        }
      }
    }
  }

  lemma {:induction false} RunFollows(s: System, events: seq<Event>, f: nat)
    requires Idle(s) && Run(s, events).Some?
    ensures Follows(s, events, f, FlusherOf(Run(s, events).value, f))
    decreases |events|
  {
    if events != [] {
      var n := |events| - 1;
      assert events == events[..n] + [events[n]];
      RunPrefix(s, events, n);
      RunFollows(s, events[..n], f);
      StepFollows(s, events[..n], events[n], f);
    }
  }

  // ----- one step -----

  /** From s to t the message goes back one level up, or is an error if it has no retry left. */
  predicate GoesBack(s: System, t: System, m: Msg) {
    && t.successes == s.successes
    && if m.retries >= s.max then t.errors == s.errors + [m] && t.retries == s.retries
       else t.errors == s.errors && t.retries == s.retries + [m.(retries := m.retries + 1)]
  }

  /** The oldest claimed message is settled by the outcome of the latest request, and by
      nothing else. */
  lemma DrainTells(max: nat, prefetched: bool, events: seq<Event>, f: nat)
    requires Run(Init(max, prefetched), events + [Drain(f)]).Some?
    ensures
      Run(Init(max, prefetched), events).Some?
      && var s, t := Run(Init(max, prefetched), events).value, Run(Init(max, prefetched), events + [Drain(f)]).value;
      && f < |s.flushers| == |t.flushers| && s.flushers[f].claimed != [] && LastOutcome(events, f).Some?
      && var m := s.flushers[f].claimed[0];
      && t.flushers[f].claimed == s.flushers[f].claimed[1..]
      && match LastOutcome(events, f).value
         case Delivered =>
           t.successes == s.successes + [m] && t.errors == s.errors && t.retries == s.retries
         case Fatal =>
           t.successes == s.successes && t.errors == s.errors + [m] && t.retries == s.retries
         case _ => GoesBack(s, t, m)
  {
    RunLast(Init(max, prefetched), events, Drain(f));
    RunFollows(Init(max, prefetched), events, f);
  }

  /** The next message of a batch is handed back exactly if the connection has broken, or a
      retriable error has not been followed by a chaser yet; else it is claimed. */
  lemma ScanTells(max: nat, prefetched: bool, events: seq<Event>, f: nat)
    requires Run(Init(max, prefetched), events + [Scan(f)]).Some?
    ensures
      Run(Init(max, prefetched), events).Some?
      && var s, t := Run(Init(max, prefetched), events).value, Run(Init(max, prefetched), events + [Scan(f)]).value;
      && f < |s.flushers| == |t.flushers| && s.flushers[f].queue != []
      && var m, a, b := s.flushers[f].queue[0], s.flushers[f], t.flushers[f];
      && b.queue == a.queue[1..]
      && if Request(f, Broken) in events || Refused(Init(max, prefetched), events, f)
         then b.claimed == a.claimed && GoesBack(s, t, m)
         else b.claimed == a.claimed + [m]
              && t.successes == s.successes && t.errors == s.errors && t.retries == s.retries
  {
    RunLast(Init(max, prefetched), events, Scan(f));
    RunFollows(Init(max, prefetched), events, f);
  }

  lemma EnqueuedLast(s: System, f: nat, xs: seq<Msg>, m: Msg)
    requires f < |s.flushers|
    ensures var t := Enqueue(s, Some(f), xs + [m]);
            && t.input == s.input && |t.flushers| == |s.flushers|
            && t.flushers[f].queue != [] && t.flushers[f].queue[|t.flushers[f].queue| - 1] == m
  {
  }

  /** The broker producer that a message of the watermark's level or above is meant for. */
  function Target(l: Leader, m: Msg, brokers: seq<Option<nat>>): Option<nat>
    requires m.retries < |brokers|
  {
    if m.retries == l.hwm && l.output.Some? then l.output else brokers[m.retries]
  }

  lemma DispatchTells(l: Leader, m: Msg, brokers: seq<Option<nat>>)
    requires |brokers| > 0 && LeaderShape(l, |brokers| - 1)
    requires m.Data? && m.retries >= l.hwm && Dispatch(l, m, brokers).Sent?
    ensures m.retries < |brokers|
    ensures var r, o := Dispatch(l, m, brokers), Target(l, m, brokers);
            && r.leader.output == o
            && r.toNew == (if o.Some? then [m] else []) && r.failed == (if o.Some? then [] else [m])
  {
  }

  /** From s to t: a message at or above the watermark goes to the broker producer in use, or
      to the one that the refresh for its level names when there is none or the level is new. */
  predicate PassesOn(s: System, t: System, brokers: seq<Option<nat>>) {
    && s.input != [] && t.input == s.input[1..] && s.input[0].retries < |brokers|
    && (s.input[0].Data? && s.input[0].retries >= s.leader.hwm ==>
          match Target(s.leader, s.input[0], brokers)
          case Some(f) => f < |t.flushers| && EndsWith(t.flushers[f].queue, s.input[0]) && t.errors == s.errors
          case None => t.errors == s.errors + [s.input[0]])
  }

  predicate EndsWith(q: seq<Msg>, m: Msg) {
    q != [] && q[|q| - 1] == m
  }

  lemma LeadPassesOn(s: System, brokers: seq<Option<nat>>)
    requires Stable(s) && Step(s, Lead(brokers)).Some?
    ensures PassesOn(s, Step(s, Lead(brokers)).value, brokers)
  {
    hide Inv;
    var m, r, t := s.input[0], Dispatch(s.leader, s.input[0], brokers), Step(s, Lead(brokers)).value;
    NeverFaults(s, brokers);
    assert m.retries < |brokers|;
    var s1 := Enqueue(s.(input := s.input[1..]), s.leader.output, r.toOld).(leader := r.leader);
    assert s1.input == s.input[1..] && s1.errors == s.errors;
    var s2 := Enqueue(s1, r.leader.output, r.toNew);
    assert t == s2.(errors := s1.errors + r.failed) && t.input == s1.input;
    if m.Data? && m.retries >= s.leader.hwm {
      DispatchTells(s.leader, m, brokers);
      hide Dispatch, Step, LeadStep;
      if r.leader.output.Some? {
        Account.LeadMoves(s, brokers, Account.Mark(0));
        InvOutput(t) by { LeadKeeps(s, brokers); }
        EnqueuedLast(s1, r.leader.output.value, [], m);
        assert [] + [m] == [m];
        assert EndsWith(s2.flushers[r.leader.output.value].queue, m);
      }
      hide Enqueue, EndsWith, LeaderShape, Stable, BrokersOk;
    }
  }

  lemma LeadTells(max: nat, prefetched: bool, events: seq<Event>, brokers: seq<Option<nat>>)
    requires Run(Init(max, prefetched), events + [Lead(brokers)]).Some?
    ensures
      Run(Init(max, prefetched), events).Some?
      && var s := Run(Init(max, prefetched), events).value;
      PassesOn(s, Run(Init(max, prefetched), events + [Lead(brokers)]).value, brokers)
  {
    RunLast(Init(max, prefetched), events, Lead(brokers));
    InitStable(max, prefetched);
    RunKeeps(Init(max, prefetched), events);
    LeadPassesOn(Run(Init(max, prefetched), events).value, brokers);
  }

  // ----- whole runs: successes -----

  /** Successes only grow, and only by what a flusher settles after a delivery. */
  lemma SuccessMoves(s: System, ev: Event)
    requires Step(s, ev).Some?
    ensures var t := Step(s, ev).value;
            || t.successes == s.successes
            || (ev.Drain? && FlusherOf(s, ev.f).claimed != [] && FlusherOf(s, ev.f).mode.Acking?
                && t.successes == s.successes + [FlusherOf(s, ev.f).claimed[0]])
  {
  }

  /** In every run: an acknowledged message was claimed by a broker producer when the
      request of that producer was delivered. */
  lemma {:induction false} SuccessWasDelivered(max: nat, prefetched: bool, events: seq<Event>, m: Msg)
    requires Run(Init(max, prefetched), events).Some?
    requires m in Run(Init(max, prefetched), events).value.successes
    ensures exists f :: Answered(Init(max, prefetched), events, f, Delivered, m)
    decreases |events|
  {
    var s := Init(max, prefetched);
    if events != [] {
      var n := |events| - 1;
      var past, ev := events[..n], events[n];
      assert events == past + [ev];
      RunPrefix(s, events, n);
      RunLast(s, past, ev);
      var t := Run(s, past).value;
      SuccessMoves(t, ev);
      hide Run, Step, Init;
      if m in t.successes {
        SuccessWasDelivered(max, prefetched, past, m);
        var f :| Answered(s, past, f, Delivered, m);
        StillAnswered(s, past, ev, f, Delivered, m);
      } else {
        SettledWasAnswered(max, prefetched, past, ev.f, m);
        StillAnswered(s, past, ev, ev.f, Delivered, m);
      }
    }
  }

  lemma SettledWasAnswered(max: nat, prefetched: bool, events: seq<Event>, f: nat, m: Msg)
    requires Run(Init(max, prefetched), events).Some?
    requires var fl := FlusherOf(Run(Init(max, prefetched), events).value, f);
             fl.claimed != [] && fl.mode.Acking? && m == fl.claimed[0]
    ensures Answered(Init(max, prefetched), events, f, Delivered, m)
  {
    RunFollows(Init(max, prefetched), events, f);
  }

  function Drains(events: seq<Event>, f: nat): nat {
    if events == [] then 0 else (if events[0] == Drain(f) then 1 else 0) + Drains(events[1..], f)
  }

  lemma {:induction false} ToldForGood(s: System, events: seq<Event>, m: Msg)
    requires Run(s, events).Some?
    ensures m in s.successes ==> m in Run(s, events).value.successes
    ensures m in s.errors ==> m in Run(s, events).value.errors
    decreases |events|
  {
    if events != [] {
      StepTells(s, events[0], m);
      ToldForGood(Step(s, events[0]).value, events[1..], m);
    }
  }

  lemma StepTells(s: System, ev: Event, m: Msg)
    requires Step(s, ev).Some?
    ensures m in s.successes ==> m in Step(s, ev).value.successes
    ensures m in s.errors ==> m in Step(s, ev).value.errors
  {
  }

  /** Flusher f is settling its claimed messages: enough turns of it settle them all. */
  lemma {:induction false} DrainsTell(s: System, events: seq<Event>, f: nat, m: Msg)
    requires Run(s, events).Some? && f < |s.flushers|
    requires m in s.flushers[f].claimed && |s.flushers[f].claimed| <= Drains(events, f)
    ensures s.flushers[f].mode.Acking? ==> m in Run(s, events).value.successes
    ensures s.flushers[f].mode.Failing? ==> m in Run(s, events).value.errors
    decreases |events|
  {
    var a := s.flushers[f];
    if events != [] && (a.mode.Acking? || a.mode.Failing?) {
      var t := Step(s, events[0]).value;
      FlusherMoves(s, events[0], f);
      assert f < |t.flushers|;
      if events[0] == Drain(f) && m == a.claimed[0] {
        ToldForGood(t, events[1..], m);
      } else {
        DrainsTell(t, events[1..], f, m);
      }
    }
  }

  /** What a flusher has claimed when its request is delivered is acknowledged in full, and
      after a fatal error returned in full, once the flusher has taken that many turns. */
  lemma OutcomeReachesAll(max: nat, prefetched: bool, past: seq<Event>, f: nat, o: Outcome, rest: seq<Event>, m: Msg)
    requires Run(Init(max, prefetched), past + [Request(f, o)] + rest).Some?
    requires AnsweredAt(Init(max, prefetched), past + [Request(f, o)], |past|, f, o, m)
    requires |Run(Init(max, prefetched), past).value.flushers[f].claimed| <= Drains(rest, f)
    ensures var t := Run(Init(max, prefetched), past + [Request(f, o)] + rest).value;
            && (o.Delivered? ==> m in t.successes)
            && (o.Fatal? ==> m in t.errors)
  {
    var s := Init(max, prefetched);
    Routines.RunJoin(s, past + [Request(f, o)], rest);
    RunLast(s, past, Request(f, o));
    var t := Run(s, past + [Request(f, o)]).value;
    RunFollows(s, past + [Request(f, o)], f);
    DrainsTell(t, rest, f, m);
  }

  // ----- whole runs: errors -----

  /** Flushing fails a message only where the refresh for its own level finds no broker. */
  lemma {:induction false} FlushFails(l: Leader, brokers: seq<Option<nat>>, m: Msg)
    requires 0 < l.hwm < |l.buf| == |l.awaits| == |brokers|
    requires forall i, x :: 0 <= i < |l.buf| && x in l.buf[i] ==> x.retries == i
    requires m in Flush(l, brokers).failed
    ensures m.retries < |brokers| && brokers[m.retries].None? && m in l.buf[m.retries]
    ensures l.output.None?
    decreases l.hwm
  {
    var h := l.hwm - 1;
    var l' := Acquire(l.(hwm := h, buf := l.buf[h := []]), brokers);
    if l.awaits[h] || h == 0 || m !in Flush(l', brokers).failed {
      assert m in l.buf[h];
    } else {
      FlushFails(l', brokers, m);
    }
  }

  lemma DispatchFails(l: Leader, msg: Msg, brokers: seq<Option<nat>>, m: Msg)
    requires |brokers| > 0 && LeaderShape(l, |brokers| - 1)
    requires forall i, x :: 0 <= i < |l.buf| && x in l.buf[i] ==> x.retries == i
    requires Dispatch(l, msg, brokers).Sent? && m in Dispatch(l, msg, brokers).failed
    ensures m.retries < |brokers| && brokers[m.retries].None? && (m == msg || m in l.buf[m.retries])
    ensures l.output.None? || l.hwm < msg.retries
  {
    if l.hwm > 0 && msg.retries == l.hwm && msg.Chaser? {
      FlushFails(l.(awaits := l.awaits[l.hwm := false]), brokers, m);
    }
  }

  /** Why the event makes m an error, in state t after the events of the past: it was refused
      at once; there is no broker for its level when the leader dispatcher handles or flushes
      it; it has no retry left when it is handed back; or its request got a fatal error. */
  predicate Cause(s: System, past: seq<Event>, ev: Event, m: Msg)
    requires Run(s, past).Some?
  {
    var t := Run(s, past).value;
    match ev
    case Reject => m == Data(t.next, 0)
    case Lead(brokers) =>
      && m.retries < |brokers| && brokers[m.retries].None?
      && t.input != [] && (t.leader.output.None? || t.leader.hwm < t.input[0].retries)
      && (m == t.input[0] || (m.retries < |t.leader.buf| && m in t.leader.buf[m.retries]))
    case Scan(f) =>
      && f < |t.flushers| && t.flushers[f].queue != [] && m == t.flushers[f].queue[0]
      && (Request(f, Broken) in past || Refused(s, past, f))
      && m.retries == t.max
    case Drain(f) =>
      && f < |t.flushers| && t.flushers[f].claimed != [] && m == t.flushers[f].claimed[0]
      && LastOutcome(past, f).Some?
      && match LastOutcome(past, f).value {
           case Delivered => false
           case Fatal => true
           case _ => m.retries == t.max
         }
    case _ => false
  }

  ghost predicate Caused(s: System, events: seq<Event>, m: Msg) {
    exists k ::
      0 <= k < |events| && Run(s, events[..k]).Some? && Cause(s, events[..k], events[k], m)
  }

  /** No message is ever carried above the highest level. */
  lemma CarriedLevel(s: System, f: nat, m: Msg)
    requires Stable(s) && f < |s.flushers| && (m in s.flushers[f].claimed || m in s.flushers[f].queue)
    ensures m.retries <= s.max
  {
    var q := s.flushers[f].claimed + s.flushers[f].queue;
    assert m in q;
    var i :| 0 <= i < |q| && q[i] == m;
    assert Pipes(s)[f][i] == Up(m);
    assert Up(m) in Pipes(s)[f];
  }

  lemma LeadCauses(s: System, past: seq<Event>, brokers: seq<Option<nat>>, m: Msg)
    requires Run(s, past).Some? && Stable(Run(s, past).value)
    requires var t := Run(s, past).value;
             && Step(t, Lead(brokers)).Some? && m !in t.errors && m in Step(t, Lead(brokers)).value.errors
    ensures Cause(s, past, Lead(brokers), m)
  {
    var t := Run(s, past).value;
    Account.LeadMoves(t, brokers, Account.Mark(0));
    DispatchFails(t.leader, t.input[0], brokers, m);
  }

  lemma FlusherCauses(s: System, past: seq<Event>, ev: Event, m: Msg)
    requires Run(s, past).Some? && Stable(Run(s, past).value) && (ev.Scan? || ev.Drain?)
    requires Follows(s, past, ev.f, FlusherOf(Run(s, past).value, ev.f))
    requires var t := Run(s, past).value;
             && t.max == s.max && Step(t, ev).Some? && m !in t.errors && m in Step(t, ev).value.errors
    ensures Cause(s, past, ev, m)
  {
    hide Stable, Answered, Run, Refused;
    var t := Run(s, past).value;
    CarriedLevel(t, ev.f, if ev.Scan? then t.flushers[ev.f].queue[0] else t.flushers[ev.f].claimed[0]);
  }

  lemma NewError(max: nat, prefetched: bool, past: seq<Event>, ev: Event, m: Msg)
    requires Run(Init(max, prefetched), past + [ev]).Some? && Run(Init(max, prefetched), past).Some?
    requires m !in Run(Init(max, prefetched), past).value.errors
    requires m in Run(Init(max, prefetched), past + [ev]).value.errors
    ensures Cause(Init(max, prefetched), past, ev, m)
  {
    var s := Init(max, prefetched);
    RunLast(s, past, ev);
    InitStable(max, prefetched);
    RunKeeps(s, past);
    Account.RunMax(s, past);
    if ev.Scan? || ev.Drain? { RunFollows(s, past, ev.f); }
    hide Run, Init, Stable;
    match ev
    case Lead(brokers) => LeadCauses(s, past, brokers, m);
    case Scan(f) => FlusherCauses(s, past, ev, m);
    case Drain(f) => FlusherCauses(s, past, ev, m);
    case _ =>
  }

  /** In every run: a message returned as an error has one of these causes. */
  lemma {:induction false} ErrorHasCause(max: nat, prefetched: bool, events: seq<Event>, m: Msg)
    requires Run(Init(max, prefetched), events).Some?
    requires m in Run(Init(max, prefetched), events).value.errors
    ensures Caused(Init(max, prefetched), events, m)
    decreases |events|
  {
    var s := Init(max, prefetched);
    if events != [] {
      var n := |events| - 1;
      var past, ev := events[..n], events[n];
      assert events == past + [ev];
      RunPrefix(s, events, n);
      hide Run, Init, Cause;
      if m in Run(s, past).value.errors {
        ErrorHasCause(max, prefetched, past, m);
        var k :| 0 <= k < |past| && Run(s, past[..k]).Some? && Cause(s, past[..k], past[k], m);
        assert events[..k] == past[..k];
      } else {
        NewError(max, prefetched, past, ev, m);
      }
    }
  }
}
