/** Submissions and the broker producers' side keep the order invariant: messages are settled
    or handed back by flushers, and travel through the retry handler. */
module ProducerBrokers {
  import opened Wrappers
  import opened Producer
  import opened ProducerInvariant

  // ----- submitting a message -----

  lemma ZeroApart(w: seq<bool>, k: nat)
    requires 1 <= k && w != []
    ensures Apart(w, 0, k) && Apart(w, k, 0)
  {
    assert Splits(w, 0, 0, k) && Splits(w, 0, k, 0);
  }

  lemma FreshAhead(w: seq<bool>, x: Msg, m: Msg)
    requires w != [] && x.Data? && x.retries == 0 && Within(m, -1, x.id)
    requires m.Chaser? ==> 1 <= m.retries
    ensures Ahead(w, m, x)
    ensures 1 <= m.retries ==> Ahead(w, x, m)
  {
    if 1 <= m.retries { ZeroApart(w, m.retries); }
  }

  lemma SubmitLines(s: System, x: Msg)
    requires Inv(s) && x == Data(s.next, 0)
    ensures Lines(s.leader.awaits, s.input + [x] + s.retries, Pipes(s))
  {
    hide Ahead, Foremost, PipeOk, Settled, Triggered, Held;
    var c, w, a' := Pipes(s), s.leader.awaits, s.input + [x] + s.retries;
    forall m | Moving(s, m)
      ensures Ahead(w, m, x)
      ensures 1 <= m.retries ==> Ahead(w, x, m)
    {
      assert Within(m, LastAcked(s), s.next);
      FreshAhead(w, x, m);
    }
    assert Inbound(s) == s.input + s.retries;
    ChainSplit(w, s.input, s.retries);
    assert forall m :: m in s.input || m in s.retries ==> m in Inbound(s) && Moving(s, m);
    ChainJoin(w, s.input, [x]);
    ChainJoin(w, s.input + [x], s.retries);
    forall f | 0 <= f < |c|
      ensures Cross(w, a', c[f])
    {
      assert Cross(w, Inbound(s), c[f]);
      forall i, j | 0 <= i < |a'| && 0 <= j < |c[f]|
        ensures Ahead(w, a'[i], c[f][j])
      {
        if a'[i] == x {
          assert c[f][j] in c[f] && Moving(s, c[f][j]);
        } else {
          assert a'[i] in Inbound(s);
          var k :| 0 <= k < |Inbound(s)| && Inbound(s)[k] == a'[i];
          assert Ahead(w, Inbound(s)[k], c[f][j]);
        }
      }
    }
  }

  lemma SubmitViews(s: System)
    ensures
      var t, x := Step(s, Submit).value, Data(s.next, 0);
      && Pipes(t) == Pipes(s) && Inbound(t) == s.input + [x] + s.retries
      && (forall m :: m in Inbound(t) ==> m in Inbound(s) || m == x)
      && (forall m :: Moving(t, m) ==> Moving(s, m) || m == x)
  {
    var t := Step(s, Submit).value;
    assert Pipes(t) == Pipes(s);
    assert Inbound(t) == s.input + [Data(s.next, 0)] + s.retries;
  }

  lemma SubmitKeeps(s: System)
    requires Stable(s)
    ensures Stable(Step(s, Submit).value)
  {
    hide Lines, Ahead, Apart, PipeOk, FlusherShape, InFlight, Pipes, Inbound, Moving, Doomed;
    var t := Step(s, Submit).value;
    SubmitViews(s);
    SubmitLines(s, Data(s.next, 0));
    ZeroApart(s.leader.awaits, s.leader.hwm + 1);
    forall m | Moving(t, m)
      ensures Within(m, LastAcked(t), t.next)
    {
      assert Moving(s, m) ==> Within(m, LastAcked(s), s.next);
    }
    forall l, y | 0 <= l < |s.leader.buf| && y in s.leader.buf[l]
      ensures Within(y, LastAcked(t), t.next) && Foremost(t, y)
    {
      assert Within(y, LastAcked(s), s.next) && Foremost(s, y);
    }
  }

  // ----- a flusher settles or hands back its first message -----

  /** From s to t, flusher f gives up its first message u; `back` says u was retried. */
  ghost predicate GivesUp(s: System, t: System, f: nat, u: Msg, back: bool) {
    && f < |s.flushers| && |t.flushers| == |s.flushers| && t.flushers == s.flushers[f := t.flushers[f]]
    && t.(retries := s.retries, flushers := s.flushers, errors := s.errors) == s
    && InFlight(s.flushers[f]) != [] && u == InFlight(s.flushers[f])[0]
    && InFlight(t.flushers[f]) == InFlight(s.flushers[f])[1..]
    && t.retries == (if back then s.retries + [u] else s.retries)
    && FlusherShape(t.flushers[f])
    && t.flushers[f].closing == s.flushers[f].closing
    && (back ==> u.retries <= s.max && HandsBack(s.flushers[f]))
    && t.flushers[f].failing == (s.flushers[f].failing && (u.Data? || s.flushers[f].closing))
    && (u.Chaser? ==> back)
  }

  lemma GivesUpViews(s: System, t: System, f: nat, u: Msg, back: bool)
    requires GivesUp(s, t, f, u, back)
    ensures Pipes(s)[f] != [] && u == Pipes(s)[f][0]
    ensures Pipes(t) == Pipes(s)[f := Pipes(s)[f][1..]]
    ensures Inbound(t) == if back then Inbound(s) + [u] else Inbound(s)
    ensures forall m :: Moving(t, m) ==> Moving(s, m)
    ensures Moving(s, u)
  {
    var c := Pipes(s)[f];
    assert u in c;
    assert forall m :: m in c[1..] ==> m in c;
    assert Pipes(t) == Pipes(s)[f := c[1..]];
    forall m | Moving(t, m)
      ensures Moving(s, m)
    {
      if m in Inbound(t) {
        assert m in Inbound(s) || m == u;
      } else {
        var g :| 0 <= g < |Pipes(t)| && m in Pipes(t)[g];
        assert m in Pipes(s)[g];
      }
    }
  }

  lemma GivesUpPipe(f: nat, fl: Flusher, fl': Flusher, c: seq<Msg>, h: nat, o: Option<nat>)
    requires PipeOk(f, fl, c, h, o) && c != [] && fl'.closing == fl.closing
    requires fl'.failing == (fl.failing && (c[0].Data? || fl.closing))
    ensures PipeOk(f, fl', c[1..], h, o)
  {
    assert forall m :: m in c[1..] ==> m in c;
    assert !fl.closing ==> ChaserSplits(c[1..], h);
    if c[0].Chaser? && !fl.closing {
      forall m | m in c[1..]
        ensures h < m.retries
      {
        var j :| 1 <= j < |c| && c[j] == m;
      }
    }
  }

  /** A message handed back above the watermark comes from a flusher without a chaser. */
  lemma HandedBackDooms(f: nat, fl: Flusher, c: seq<Msg>, h: nat, o: Option<nat>)
    requires PipeOk(f, fl, c, h, o) && c != [] && HandsBack(fl) && h < c[0].retries && c[0].Data?
    ensures o == Some(f) && Doomed(fl, c)
  {
    assert c[0] in c;
    if !fl.closing {
      forall n | n in c
        ensures n.Data?
      {
        var j :| 0 <= j < |c| && c[j] == n;
      }
    }
  }

  lemma GivesUpTriggered(s: System, t: System, f: nat, u: Msg, back: bool)
    requires Inv(s) && GivesUp(s, t, f, u, back)
    ensures Triggered(t) && FlushersOk(t)
  {
    hide Lines, Apart, Held, Live, Settled, InFlight, Pipes, PipeOk, Ranged, Inbound, Moving;
    GivesUpViews(s, t, f, u, back);
    var c, h, o := Pipes(s)[f], s.leader.hwm, s.leader.output;
    assert forall m :: m in c[1..] ==> m in c;
    GivesUpPipe(f, s.flushers[f], t.flushers[f], c, h, o);
    if u.Data? && back && h < u.retries { HandedBackDooms(f, s.flushers[f], c, h, o); }
    forall g | 0 <= g < |t.flushers|
      ensures FlusherShape(t.flushers[g]) && PipeOk(g, t.flushers[g], Pipes(t)[g], h, o)
    {
      assert PipeOk(g, s.flushers[g], Pipes(s)[g], h, o);
    }
  }

  lemma GivesUpKeeps(s: System, t: System, f: nat, u: Msg, back: bool)
    requires Stable(s) && GivesUp(s, t, f, u, back)
    ensures Stable(t)
  {
    hide Lines, Apart, InFlight, Pipes, PipeOk, FlusherShape, Moving;
    GivesUpTriggered(s, t, f, u, back);
    GivesUpViews(s, t, f, u, back);
    if back {
      HandBackLines(s.leader.awaits, Inbound(s), Pipes(s), f);
    } else {
      RemoveHeadLines(s.leader.awaits, Inbound(s), Pipes(s), f);
    }
    assert Ranged(t) by {
      assert u in Pipes(s)[f];
      assert forall g, m :: 0 <= g < |Pipes(t)| && m in Pipes(t)[g] ==> m in Pipes(s)[g];
    }
    forall l, y | 0 <= l < |s.leader.buf| && y in s.leader.buf[l]
      ensures Foremost(t, y)
    {
      assert Foremost(s, y);
    }
  }

  lemma InFlightTail(f: Flusher, g: Flusher)
    requires f.claimed + f.queue != [] && g.claimed + g.queue == (f.claimed + f.queue)[1..]
    ensures InFlight(f) != [] && InFlight(f)[0] == Up((f.claimed + f.queue)[0])
    ensures InFlight(g) == InFlight(f)[1..]
  {
  }

  /** Flusher f changes its mode or flags, not what it holds. */
  lemma SameFlightKeeps(s: System, t: System, f: nat)
    requires Stable(s) && f < |s.flushers|
    requires |t.flushers| == |s.flushers| && t == s.(flushers := s.flushers[f := t.flushers[f]])
    requires InFlight(t.flushers[f]) == InFlight(s.flushers[f])
    requires FlusherShape(t.flushers[f])
    requires HandsBack(s.flushers[f]) ==> HandsBack(t.flushers[f])
    requires s.flushers[f].closing ==> t.flushers[f].closing
    requires s.flushers[f].failing ==> t.flushers[f].failing
    ensures Stable(t)
  {
    hide Lines, Apart, InFlight, FlusherShape, Moving, ChaserSplits, HandsBack;
    assert Pipes(t) == Pipes(s) by {
      forall g | 0 <= g < |s.flushers|
        ensures Pipes(t)[g] == Pipes(s)[g]
      {
      }
    }
    assert Inbound(t) == Inbound(s);
    SameMoving(s, t);
    forall l, y | 0 <= l < |s.leader.buf| && y in s.leader.buf[l]
      ensures Foremost(t, y)
    {
      assert Foremost(s, y);
    }
    forall g | 0 <= g < |t.flushers|
      ensures FlusherShape(t.flushers[g]) && PipeOk(g, t.flushers[g], Pipes(t)[g], t.leader.hwm, t.leader.output)
    {
      assert PipeOk(g, s.flushers[g], Pipes(s)[g], s.leader.hwm, s.leader.output);
    }
  }

  lemma SameMoving(s: System, t: System)
    requires Inbound(t) == Inbound(s) && Pipes(t) == Pipes(s)
    ensures forall m :: Moving(t, m) <==> Moving(s, m)
  {
    hide Inbound, Pipes;
  }

  /** A flusher that delivers holds no chaser. */
  lemma NoChaser(s: System, f: nat, u: Msg)
    requires Inv(s) && f < |s.flushers| && !HandsBack(s.flushers[f]) && u in Pipes(s)[f]
    ensures u.Data?
  {
    hide Pipes, Held, Settled, Live, InOrder, FlusherShape, Ranged, Lines;
    assert Moving(s, u);
    assert PipeOk(f, s.flushers[f], Pipes(s)[f], s.leader.hwm, s.leader.output);
  }

  lemma ScanBackKeeps(s: System, f: nat)
    requires Stable(s) && Step(s, Scan(f)).Some? && HandsBack(s.flushers[f])
    ensures Stable(Step(s, Scan(f)).value)
  {
    hide Lines, Apart, Held, Live, Triggered, Settled, PipeOk;
    var t, fl := Step(s, Scan(f)).value, s.flushers[f];
    var m := fl.queue[0];
    assert FlusherShape(fl);
    assert fl.claimed + fl.queue == fl.queue;
    assert fl.claimed + fl.queue[1..] == fl.queue[1..];
    InFlightTail(fl, t.flushers[f]);
    assert Up(m) in Pipes(s)[f];
    assert Moving(s, Up(m));
    GivesUpKeeps(s, t, f, Up(m), m.retries < s.max);
  }

  lemma ScanKeeps(s: System, f: nat)
    requires Stable(s) && Step(s, Scan(f)).Some?
    ensures Stable(Step(s, Scan(f)).value)
  {
    hide Lines, Apart, Held, Live, Triggered, Settled, PipeOk, Moving, Awaited;
    if HandsBack(s.flushers[f]) {
      ScanBackKeeps(s, f);
    } else {
      var t, fl := Step(s, Scan(f)).value, s.flushers[f];
      assert FlusherShape(fl);
      assert fl.claimed + [fl.queue[0]] + fl.queue[1..] == fl.claimed + fl.queue;
      assert InFlight(fl)[|fl.claimed|] == Up(fl.queue[0]);
      NoChaser(s, f, Up(fl.queue[0]));
      SameFlightKeeps(s, t, f);
    }
  }

  lemma RequestKeeps(s: System, f: nat, o: Outcome)
    requires Stable(s) && Step(s, Request(f, o)).Some?
    ensures Stable(Step(s, Request(f, o)).value)
  {
    hide Lines, Apart, Moving, Held, Live, Triggered, Settled, Awaited, PipeOk, Pipes;
    assert FlusherShape(s.flushers[f]);
    SameFlightKeeps(s, Step(s, Request(f, o)).value, f);
  }

  /** The oldest message of a flusher that still delivers is older than anything in flight. */
  lemma FrontIsOldest(s: System, f: nat, u: Msg, m: Msg)
    requires Inv(s) && f < |s.flushers| && !HandsBack(s.flushers[f])
    requires Pipes(s)[f] != [] && u == Pipes(s)[f][0] && u.Data?
    requires m in Inbound(s) || m in Pipes(s)[f][1..]
             || (exists g :: 0 <= g < |s.flushers| && g != f && m in Pipes(s)[g])
    ensures m.Data? ==> u.id < m.id
  {
    hide Pipes, Held, Settled, Live, InOrder, FlusherShape, Ranged;
    var a, c, w, h := Inbound(s), Pipes(s), s.leader.awaits, s.leader.hwm;
    assert PipeOk(f, s.flushers[f], c[f], h, s.leader.output);
    assert u in c[f];
    if m in a {
      var i :| 0 <= i < |a| && a[i] == m;
      assert Cross(w, a, c[f]);
      assert Ahead(w, a[i], c[f][0]);
    } else if m in c[f][1..] {
      var j :| 1 <= j < |c[f]| && c[f][j] == m;
      assert Chain(w, c[f]);
      assert Ahead(w, c[f][0], c[f][j]);
      assert m in c[f];
      AboveIsOneGroup(s, u.retries, m.retries);
    } else {
      var g :| 0 <= g < |s.flushers| && g != f && m in c[g];
      var j :| 0 <= j < |c[g]| && c[g][j] == m;
      assert PipeOk(g, s.flushers[g], c[g], h, s.leader.output);
      assert Separate(w, c[f], c[g]);
      assert Elsewhere(w, c[f][0], c[g][j]);
    }
  }

  /** No awaited level lies above the high watermark. */
  lemma AboveIsOneGroup(s: System, a: nat, b: nat)
    requires Shape(s) && s.leader.hwm < a && s.leader.hwm < b
    ensures !Apart(s.leader.awaits, a, b)
  {
  }

  lemma DrainKeeps(s: System, f: nat)
    requires Stable(s) && Step(s, Drain(f)).Some?
    ensures Stable(Step(s, Drain(f)).value)
  {
    hide Lines, Apart, Held, Triggered, Settled, PipeOk, Pipes, Moving;
    var t, fl := Step(s, Drain(f)).value, s.flushers[f];
    var m := fl.claimed[0];
    assert FlusherShape(fl) && m.Data?;
    assert (fl.claimed + fl.queue)[1..] == fl.claimed[1..] + fl.queue;
    InFlightTail(fl, t.flushers[f]);
    if fl.mode.Acking? {
      var mid := t.(successes := s.successes);
      GivesUpKeeps(s, mid, f, Up(m), false);
      AckKeeps(s, mid, f, m);
      assert t == mid.(successes := mid.successes + [m]);
    } else {
      GivesUpKeeps(s, t, f, Up(m), fl.mode.Retrying? && m.retries < s.max);
    }
  }

  lemma AckIsOldest(s: System, t: System, f: nat, u: Msg)
    requires Inv(s) && u.Data? && GivesUp(s, t, f, u, false) && !HandsBack(s.flushers[f])
    ensures forall n :: Moving(t, n) ==> Within(n, u.id, s.next)
    ensures forall l, y :: 0 <= l < |s.leader.buf| && y in s.leader.buf[l] ==> Within(y, u.id, s.next)
    ensures u.id < s.next
    ensures forall i :: 0 <= i < |s.successes| ==> s.successes[i].Data? && s.successes[i].id < u.id
  {
    hide Lines, Apart, FlusherShape, InFlight, Triggered, Settled, Ranged, Awaited, ChaserSplits, Pipes;
    GivesUpViews(s, t, f, u, false);
    assert Within(u, LastAcked(s), s.next);
    forall n | Moving(t, n)
      ensures Within(n, u.id, s.next)
    {
      assert Moving(s, n) && Within(n, LastAcked(s), s.next);
      FrontIsOldest(s, f, u, n);
    }
    forall l, y | 0 <= l < |s.leader.buf| && y in s.leader.buf[l]
      ensures Within(y, u.id, s.next)
    {
      assert PipeOk(f, s.flushers[f], Pipes(s)[f], s.leader.hwm, s.leader.output);
      assert u in Pipes(s)[f];
      assert Foremost(s, y) && Beats(y, u) && Within(y, LastAcked(s), s.next);
    }
  }

  lemma AckKeeps(s: System, t: System, f: nat, m: Msg)
    requires Stable(s) && Stable(t) && m.Data? && GivesUp(s, t, f, Up(m), false)
    requires !HandsBack(s.flushers[f]) && t.successes == s.successes
    ensures Stable(t.(successes := t.successes + [m]))
  {
    hide Lines, Apart, PipeOk, FlusherShape, InFlight, Moving, Beats;
    var r := t.(successes := t.successes + [m]);
    AckIsOldest(s, t, f, Up(m));
    assert t.leader == s.leader && t.next == s.next;
    assert Pipes(r) == Pipes(t) && Inbound(r) == Inbound(t);
    SameMoving(t, r);
    forall l, y | 0 <= l < |s.leader.buf| && y in s.leader.buf[l]
      ensures Foremost(r, y)
    {
      assert Foremost(t, y);
    }
  }

  // ----- the retry handler, and new broker producers -----

  lemma ForwardKeeps(s: System)
    requires Stable(s) && Step(s, Forward).Some?
    ensures Stable(Step(s, Forward).value)
  {
    hide Lines, Apart, PipeOk, FlusherShape, InFlight, Moving, Beats;
    var t := Step(s, Forward).value;
    assert Pipes(t) == Pipes(s);
    assert s.input + [s.retries[0]] + s.retries[1..] == s.input + s.retries;
    assert Inbound(t) == Inbound(s);
    SameMoving(s, t);
    forall l, y | 0 <= l < |s.leader.buf| && y in s.leader.buf[l]
      ensures Foremost(t, y)
    {
      assert Foremost(s, y);
    }
  }

  lemma StartLines(w: seq<bool>, a: seq<Msg>, c: seq<seq<Msg>>)
    requires Lines(w, a, c)
    ensures Lines(w, a, c + [[]])
  {
    hide Ahead, Elsewhere;
    var c' := c + [[]];
    forall f | 0 <= f < |c'|
      ensures Chain(w, c'[f]) && Cross(w, a, c'[f])
    {
      if f < |c| { assert Chain(w, c[f]) && Cross(w, a, c[f]); }
    }
    forall f, g | 0 <= f < |c'| && 0 <= g < |c'| && f != g
      ensures Separate(w, c'[f], c'[g])
    {
      if f < |c| && g < |c| { assert Separate(w, c[f], c[g]); }
    }
  }

  lemma StartViews(s: System)
    ensures Pipes(Step(s, Start).value) == Pipes(s) + [[]] && Inbound(Step(s, Start).value) == Inbound(s)
    ensures forall m :: Moving(Step(s, Start).value, m) ==> Moving(s, m)
  {
    var t := Step(s, Start).value;
    assert InFlight(IDLE_FLUSHER) == [];
    assert Pipes(t) == Pipes(s) + [[]];
    assert forall f, m :: 0 <= f < |Pipes(t)| && m in Pipes(t)[f] ==> f < |Pipes(s)| && m in Pipes(s)[f];
  }

  lemma StartFlushers(s: System)
    requires Inv(s)
    ensures FlushersOk(Step(s, Start).value) && Triggered(Step(s, Start).value) && Ranged(Step(s, Start).value)
  {
    hide Lines, Apart, Held, Live, Settled, InFlight, Pipes, Moving, ChaserSplits, Inbound;
    var t := Step(s, Start).value;
    StartViews(s);
    EmptySplits(s.leader.hwm);
    forall f | 0 <= f < |t.flushers|
      ensures FlusherShape(t.flushers[f]) && PipeOk(f, t.flushers[f], Pipes(t)[f], s.leader.hwm, s.leader.output)
    {
      if f < |s.flushers| {
        assert PipeOk(f, s.flushers[f], Pipes(s)[f], s.leader.hwm, s.leader.output);
      }
    }
  }

  lemma StartKeeps(s: System)
    requires Stable(s)
    ensures Stable(Step(s, Start).value)
  {
    hide Lines, Apart, Beats, FlushersOk, Triggered, Ranged, InFlight, Pipes, Moving, Inbound;
    var t := Step(s, Start).value;
    StartViews(s);
    StartFlushers(s);
    StartLines(s.leader.awaits, Inbound(s), Pipes(s));
    forall l, y | 0 <= l < |s.leader.buf| && y in s.leader.buf[l]
      ensures Foremost(t, y)
    {
      assert Foremost(s, y);
    }
  }

  lemma IdleIsEmpty()
    ensures InFlight(IDLE_FLUSHER) == []
  {
  }

  lemma EmptySplits(h: nat)
    ensures ChaserSplits([], h)
  {
  }
}
