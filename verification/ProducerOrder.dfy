/** The order of acknowledgements over whole runs. */
module ProducerOrder {
  import opened Wrappers
  import opened Producer
  import opened ProducerInvariant
  import opened ProducerBrokers
  import opened ProducerLeader

  // ----- runs -----

  lemma StepKeeps(s: System, ev: Event)
    requires Stable(s) && Step(s, ev).Some?
    ensures Stable(Step(s, ev).value)
  {
    hide Inv;
    match ev
    case Submit => SubmitKeeps(s);
    case Reject => RejectKeeps(s);
    case Forward => ForwardKeeps(s);
    case Lead(brokers) => LeadKeeps(s, brokers);
    case Start => StartKeeps(s);
    case Scan(f) => ScanKeeps(s, f);
    case Request(f, o) => RequestKeeps(s, f, o);
    case Drain(f) => DrainKeeps(s, f);
  }

  lemma RejectKeeps(s: System)
    requires Stable(s)
    ensures Stable(Step(s, Reject).value)
  {
    hide Lines, Apart, PipeOk, FlusherShape, InFlight, Moving, Beats;
    var t := Step(s, Reject).value;
    assert Pipes(t) == Pipes(s) && Inbound(t) == Inbound(s);
    SameMoving(s, t);
    forall m | Moving(t, m)
      ensures Within(m, LastAcked(t), t.next)
    {
      assert Within(m, LastAcked(s), s.next);
    }
    forall l, y | 0 <= l < |s.leader.buf| && y in s.leader.buf[l]
      ensures Foremost(t, y) && Within(y, LastAcked(t), t.next)
    {
      assert Foremost(s, y) && Within(y, LastAcked(s), s.next);
    }
  }

  lemma EmptyLines(w: seq<bool>)
    ensures Lines(w, [], [[]])
  {
  }

  lemma InitStable(max: nat, prefetched: bool)
    ensures Stable(Init(max, prefetched))
  {
    hide Lines, InFlight, Beats, Doomed, Apart, ChaserSplits, Moving;
    var s := Init(max, prefetched);
    IdleIsEmpty();
    assert Pipes(s) == [[]];
    assert forall m :: !Moving(s, m) by { NothingMoves(s); }
    EmptyLines(s.leader.awaits);
    EmptySplits(0);
    assert Inbound(s) == [];
    assert PipeOk(0, IDLE_FLUSHER, [], 0, s.leader.output);
    assert FlushersOk(s);
    assert forall l :: 0 <= l <= max ==> s.leader.buf[l] == [];
    assert Held(s);
  }

  lemma NothingMoves(s: System)
    requires Inbound(s) == [] && Pipes(s) == [[]]
    ensures forall m :: !Moving(s, m)
  {
  }

  lemma {:induction false} RunKeeps(s: System, events: seq<Event>)
    requires Stable(s) && Run(s, events).Some?
    ensures Stable(Run(s, events).value)
    decreases |events|
  {
    hide Stable;
    if events != [] {
      StepKeeps(s, events[0]);
      RunKeeps(Step(s, events[0]).value, events[1..]);
    }
  }

  /** In every run, whatever fails and whatever leader is elected when, the messages
      acknowledged for a partition are acknowledged in the order they were submitted, none
      of them twice, and no chaser is ever mistaken for a message. */
  lemma AcknowledgedInSubmissionOrder(max: nat, prefetched: bool, events: seq<Event>, i: nat, j: nat)
    requires Run(Init(max, prefetched), events).Some?
    requires i < j < |Run(Init(max, prefetched), events).value.successes|
    ensures var acked := Run(Init(max, prefetched), events).value.successes;
            acked[i].Data? && acked[j].Data? && acked[i].id < acked[j].id
  {
    InitStable(max, prefetched);
    RunKeeps(Init(max, prefetched), events);
  }
}
