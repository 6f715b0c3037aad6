/** The leader dispatcher keeps the order invariant: every turn of its loop is a sequence of
    small moves, and each of them keeps it. */
module ProducerLeader {
  import opened Wrappers
  import opened Producer
  import opened ProducerInvariant
  import opened ProducerBrokers

  // ----- the leader dispatcher, in small moves -----

  lemma ApartSymmetric(w: seq<bool>, a: nat, b: nat)
    ensures Apart(w, a, b) <==> Apart(w, b, a)
  {
    if Apart(w, a, b) {
      var k :| Splits(w, k, a, b);
      assert Splits(w, k, b, a);
    }
    if Apart(w, b, a) {
      var k :| Splits(w, k, b, a);
      assert Splits(w, k, a, b);
    }
  }

  lemma AppendLines(w: seq<bool>, a: seq<Msg>, c: seq<seq<Msg>>, f: nat, u: Msg)
    requires Lines(w, a, c) && f < |c|
    requires forall m :: m in a || m in c[f] ==> Ahead(w, m, u)
    requires forall g, m :: 0 <= g < |c| && g != f && m in c[g] ==> Elsewhere(w, m, u)
    ensures Lines(w, a, c[f := c[f] + [u]])
  {
    hide Ahead, Apart;
    var c' := c[f := c[f] + [u]];
    assert Chain(w, c'[f]) by {
      assert Chain(w, c[f]);
      assert Cross(w, c[f], [u]);
      ChainJoin(w, c[f], [u]);
    }
    assert Cross(w, a, c'[f]) by { assert Cross(w, a, c[f]); }
    forall g, h | 0 <= g < |c| && 0 <= h < |c| && g != h
      ensures Separate(w, c'[g], c'[h])
    {
      assert Separate(w, c[g], c[h]);
      if g == f {
        forall m | m in c[h]
          ensures Elsewhere(w, u, m)
        {
          assert Elsewhere(w, m, u);
          ApartSymmetric(w, m.retries, u.retries);
        }
      }
    }
  }

  /** The first messages to leave the leader dispatcher: older than all it holds and awaits. */
  ghost predicate Leaving(s: System, xs: seq<Msg>) {
    && (forall x :: x in xs ==>
          x.Data? && x.retries == s.leader.hwm && Foremost(s, x) && Within(x, LastAcked(s), s.next))
    && (forall x, l, y :: x in xs && 0 <= l < |s.leader.buf| && y in s.leader.buf[l] ==> Beats(x, y))
    && (forall i, j :: 0 <= i < j < |xs| ==> Beats(xs[i], xs[j]))
  }

  lemma LeavingAhead(s: System, x: Msg, m: Msg)
    requires Inv(s) && x.Data? && x.retries == s.leader.hwm && Foremost(s, x) && Moving(s, m)
    ensures Ahead(s.leader.awaits, m, Up(x))
    ensures m.retries <= s.leader.hwm ==> Elsewhere(s.leader.awaits, m, Up(x))
  {
    hide Lines, Apart, FlusherShape, InFlight, Triggered, Ranged, Pipes, PipeOk;
    assert Beats(x, m);
  }

  function SendOne(s: System, f: nat, x: Msg): System
    requires f < |s.flushers|
  {
    s.(flushers := s.flushers[f := s.flushers[f].(queue := s.flushers[f].queue + [x])])
  }

  lemma SendOneViews(s: System, f: nat, x: Msg)
    requires f < |s.flushers|
    ensures Pipes(SendOne(s, f, x)) == Pipes(s)[f := Pipes(s)[f] + [Up(x)]]
    ensures Inbound(SendOne(s, f, x)) == Inbound(s)
    ensures forall m :: Moving(SendOne(s, f, x), m) ==> Moving(s, m) || m == Up(x)
  {
    var t, fl := SendOne(s, f, x), s.flushers[f];
    assert fl.claimed + (fl.queue + [x]) == (fl.claimed + fl.queue) + [x];
    assert InFlight(t.flushers[f]) == InFlight(fl) + [Up(x)];
    assert Pipes(t) == Pipes(s)[f := Pipes(s)[f] + [Up(x)]];
    assert forall g, m :: 0 <= g < |Pipes(t)| && m in Pipes(t)[g] ==> m in Pipes(s)[g] || m == Up(x);
  }

  lemma SendOneLines(s: System, f: nat, x: Msg)
    requires Inv(s) && s.leader.output == Some(f) && Leaving(s, [x])
    ensures Lines(s.leader.awaits, Inbound(s), Pipes(s)[f := Pipes(s)[f] + [Up(x)]])
  {
    hide Lines, Ahead, Elsewhere, Apart, InFlight, Triggered, Ranged, Pipes, ChaserSplits, FlusherShape;
    var c := Pipes(s);
    assert x in [x];
    forall m | Moving(s, m)
      ensures Ahead(s.leader.awaits, m, Up(x))
      ensures m.retries <= s.leader.hwm ==> Elsewhere(s.leader.awaits, m, Up(x))
    {
      LeavingAhead(s, x, m);
    }
    forall g, m | 0 <= g < |c| && g != f && m in c[g]
      ensures Elsewhere(s.leader.awaits, m, Up(x))
    {
      assert PipeOk(g, s.flushers[g], c[g], s.leader.hwm, s.leader.output);
      assert Moving(s, m);
    }
    AppendLines(s.leader.awaits, Inbound(s), c, f, Up(x));
  }

  lemma SendOneFlushers(s: System, f: nat, x: Msg)
    requires Inv(s) && s.leader.output == Some(f) && x.Data? && x.retries == s.leader.hwm
    ensures FlushersOk(SendOne(s, f, x)) && Triggered(SendOne(s, f, x))
  {
    hide Lines, Apart, InFlight, Ranged, Pipes, Held, Settled, Live;
    var t, c, h := SendOne(s, f, x), Pipes(s), s.leader.hwm;
    SendOneViews(s, f, x);
    assert Inbound(t) == Inbound(s);
    forall g | 0 <= g < |t.flushers|
      ensures FlusherShape(t.flushers[g]) && PipeOk(g, t.flushers[g], Pipes(t)[g], h, t.leader.output)
    {
      assert FlusherShape(s.flushers[g]) && PipeOk(g, s.flushers[g], c[g], h, s.leader.output);
    }
  }

  lemma SendOneLeaving(s: System, f: nat, x: Msg, xs: seq<Msg>)
    requires f < |s.flushers| && Leaving(s, [x] + xs)
    ensures Leaving(SendOne(s, f, x), xs) && Leaving(s, [x])
  {
    hide InFlight, Pipes, Inbound, Moving;
    var t, all := SendOne(s, f, x), [x] + xs;
    assert all[0] == x && x in all;
    assert forall y :: y in xs ==> y in all;
    assert forall i :: 0 <= i < |xs| ==> xs[i] == all[i + 1];
    SendOneViews(s, f, x);
    forall y | y in xs
      ensures Foremost(t, y)
    {
      var i :| 0 <= i < |xs| && xs[i] == y;
      assert Foremost(s, y) && Beats(all[0], all[i + 1]);
    }
  }

  lemma SendOneKeeps(s: System, f: nat, x: Msg, xs: seq<Msg>)
    requires Inv(s) && s.leader.output == Some(f) && Leaving(s, [x] + xs)
    ensures Inv(SendOne(s, f, x)) && Leaving(SendOne(s, f, x), xs)
  {
    hide Lines, Apart, InFlight, Pipes, FlushersOk, Triggered, Stacked, Inbound, Moving;
    var t := SendOne(s, f, x);
    SendOneLeaving(s, f, x, xs);
    assert x in [x];
    SendOneViews(s, f, x);
    SendOneLines(s, f, x);
    SendOneFlushers(s, f, x);
    hide Leaving;
    forall l, y | 0 <= l < |s.leader.buf| && y in s.leader.buf[l]
      ensures Foremost(t, y)
    {
      assert Foremost(s, y) && Beats(x, y);
    }
  }

  /** The message read from the input channel leaves it. */
  function Pop(s: System): System
    requires s.input != []
  {
    s.(input := s.input[1..])
  }

  lemma PopViews(s: System)
    requires s.input != []
    ensures Inbound(s) != [] && Inbound(s)[0] == s.input[0]
    ensures Inbound(Pop(s)) == Inbound(s)[1..] && Pipes(Pop(s)) == Pipes(s)
    ensures forall m :: Moving(Pop(s), m) ==> Moving(s, m)
    ensures Moving(s, s.input[0])
  {
    assert Inbound(s)[0] in Inbound(s);
    assert Inbound(Pop(s)) == Inbound(s)[1..];
    assert forall m :: m in Inbound(s)[1..] ==> m in Inbound(s);
  }

  lemma PopLines(w: seq<bool>, a: seq<Msg>, c: seq<seq<Msg>>)
    requires Lines(w, a, c) && a != []
    ensures Lines(w, a[1..], c)
  {
    hide Ahead, Elsewhere;
    assert Chain(w, a[1..]);
    forall f | 0 <= f < |c|
      ensures Cross(w, a[1..], c[f])
    {
      assert Cross(w, a, c[f]);
    }
  }

  lemma PopKeeps(s: System)
    requires Inv(s) && s.input != []
    ensures Inv(Pop(s))
  {
    hide Lines, Apart, InFlight, Pipes, PipeOk, FlusherShape, Moving, Beats, Inbound;
    var t := Pop(s);
    PopViews(s);
    PopLines(s.leader.awaits, Inbound(s), Pipes(s));
    assert forall m :: m in Inbound(s)[1..] ==> m in Inbound(s);
    forall l, y | 0 <= l < |s.leader.buf| && y in s.leader.buf[l]
      ensures Foremost(t, y)
    {
      assert Foremost(s, y);
    }
  }

  /** What the head of the input knows about everything else in flight. */
  lemma HeadAhead(s: System, m: Msg)
    requires Inv(s) && s.input != [] && Moving(Pop(s), m)
    ensures Ahead(s.leader.awaits, s.input[0], m)
  {
    hide Ahead, Apart, Held, FlushersOk, Triggered, Settled, Live, Ranged, Awaited, Pipes, Inbound;
    PopViews(s);
    var a, c := Inbound(s), Pipes(s);
    if m in a[1..] {
      var j :| 1 <= j < |a| && a[j] == m;
      assert Chain(s.leader.awaits, a);
    } else {
      var f :| 0 <= f < |c| && m in c[f];
      var j :| 0 <= j < |c[f]| && c[f][j] == m;
      assert Cross(s.leader.awaits, a, c[f]);
    }
  }

  /** A message at or below the watermark is older than what it leaves behind. */
  lemma HeadForemost(s: System)
    requires Inv(s) && s.input != [] && s.input[0].Data?
    ensures Foremost(Pop(s), s.input[0])
  {
    hide Held, FlushersOk, Triggered, Settled, Live, Ranged, Awaited, Lines, Pipes, Moving, Inbound;
    forall m | Moving(Pop(s), m)
      ensures Beats(s.input[0], m)
    {
      HeadAhead(s, m);
      SameLevelTogether(s.leader.awaits, m.retries);
    }
  }

  lemma SameLevelTogether(w: seq<bool>, a: nat)
    ensures !Apart(w, a, a)
  {
  }

  function Buffered(s: System, x: Msg): System
    requires x.retries < |s.leader.buf|
  {
    s.(leader := s.leader.(buf := s.leader.buf[x.retries := s.leader.buf[x.retries] + [x]]))
  }

  lemma BufferKeeps(s: System)
    requires Inv(s) && s.input != [] && s.input[0].Data? && s.input[0].retries < s.leader.hwm
    ensures Inv(Buffered(Pop(s), s.input[0]))
  {
    hide Lines, Apart, InFlight, Pipes, PipeOk, FlusherShape, Moving, Beats, Inbound;
    var x, p := s.input[0], Pop(s);
    var t := Buffered(p, x);
    PopKeeps(s);
    HeadForemost(s);
    PopViews(s);
    BufferStacked(s);
    BufferedViews(p, x);
    assert Within(x, LastAcked(s), s.next);
    forall l, y | 0 <= l < |t.leader.buf| && y in t.leader.buf[l]
      ensures Foremost(t, y)
    {
      assert y == x || y in p.leader.buf[l];
      assert Foremost(p, y);
    }
  }

  lemma BufferedViews(p: System, x: Msg)
    requires x.retries < |p.leader.buf|
    ensures Inbound(Buffered(p, x)) == Inbound(p) && Pipes(Buffered(p, x)) == Pipes(p)
    ensures forall m :: Moving(Buffered(p, x), m) <==> Moving(p, m)
  {
    assert Pipes(Buffered(p, x)) == Pipes(p);
  }

  lemma BufferStacked(s: System)
    requires Inv(s) && s.input != [] && s.input[0].Data? && s.input[0].retries < s.leader.hwm
    ensures Stacked(Buffered(Pop(s), s.input[0]).leader.buf)
  {
    hide Lines, Apart, InFlight, Pipes, FlushersOk, Triggered, Settled, Live, Moving, Inbound, Ranged, Awaited;
    var x, buf := s.input[0], s.leader.buf;
    PopViews(s);
    forall l, y | 0 <= l < |buf| && y in buf[l]
      ensures Beats(y, x) && y.Data? && y.retries == l
    {
      assert Foremost(s, y);
    }
  }

  // ----- a chaser comes back -----

  lemma ApartWithout(w: seq<bool>, x: nat, a: nat, b: nat)
    requires 1 <= x < |w| && Apart(w, x, a) && Apart(w, x, b) && Apart(w, a, b)
    ensures Apart(w[x := false], a, b)
  {
    var w' := w[x := false];
    var k :| Splits(w, k, a, b);
    if k != x {
      assert Splits(w', k, a, b);
    } else if a <= x {
      var i :| Splits(w, i, x, a);
      assert Splits(w', i, a, b);
    } else {
      var i :| Splits(w, i, x, b);
      assert Splits(w', i, a, b);
    }
  }

  lemma AheadWithout(w: seq<bool>, x: nat, m: Msg, n: Msg)
    requires 1 <= x < |w| && Apart(w, x, m.retries) && Apart(w, x, n.retries)
    ensures Ahead(w, m, n) ==> Ahead(w[x := false], m, n)
    ensures Elsewhere(w, m, n) ==> Elsewhere(w[x := false], m, n)
  {
    hide Apart;
    if Apart(w, m.retries, n.retries) { ApartWithout(w, x, m.retries, n.retries); }
  }

  lemma LinesWithout(w: seq<bool>, x: nat, a: seq<Msg>, c: seq<seq<Msg>>)
    requires 1 <= x < |w| && Lines(w, a, c)
    requires forall m :: m in a ==> Apart(w, x, m.retries)
    requires forall f, m :: 0 <= f < |c| && m in c[f] ==> Apart(w, x, m.retries)
    ensures Lines(w[x := false], a, c)
  {
    hide Ahead, Elsewhere, Apart;
    var w' := w[x := false];
    forall m: Msg, n: Msg | Apart(w, x, m.retries) && Apart(w, x, n.retries)
      ensures Ahead(w, m, n) ==> Ahead(w', m, n)
      ensures Elsewhere(w, m, n) ==> Elsewhere(w', m, n)
    {
      AheadWithout(w, x, m, n);
    }
    assert Chain(w', a);
    forall f | 0 <= f < |c|
      ensures Chain(w', c[f]) && Cross(w', a, c[f])
    {
      assert Chain(w, c[f]) && Cross(w, a, c[f]);
    }
    forall f, g | 0 <= f < |c| && 0 <= g < |c| && f != g
      ensures Separate(w', c[f], c[g])
    {
      assert Separate(w, c[f], c[g]);
    }
  }

  function Arrived(s: System, level: nat): System
    requires level < |s.leader.awaits|
  {
    s.(leader := s.leader.(awaits := s.leader.awaits[level := false]))
  }

  lemma ArrivedViews(s: System, x: nat)
    requires x < |s.leader.awaits|
    ensures Inbound(Arrived(s, x)) == Inbound(s) && Pipes(Arrived(s, x)) == Pipes(s)
    ensures forall m :: Moving(Arrived(s, x), m) <==> Moving(s, m)
  {
    assert Pipes(Arrived(s, x)) == Pipes(s);
  }

  lemma ArrivedSettled(s: System, x: nat)
    requires Inv(s) && 1 <= x < |s.leader.awaits| && x <= s.leader.hwm && s.leader.awaits[x]
    requires forall m :: Moving(s, m) ==> Apart(s.leader.awaits, x, m.retries)
    ensures Settled(Arrived(s, x)) && Awaited(Arrived(s, x))
  {
    hide Lines, Held, FlushersOk, Triggered, Live, Ranged, Moving, Inbound, Pipes, Apart;
    ArrivedViews(s, x);
    var w, h := s.leader.awaits, s.leader.hwm;
    AwaitedApart(w, x, h + 1);
    SameLevelTogether(w, x);
    forall m: Msg | Moving(s, m) && m.retries <= h
      ensures Apart(w[x := false], m.retries, h + 1)
    {
      ApartWithout(w, x, m.retries, h + 1);
    }
  }

  lemma AwaitedApart(w: seq<bool>, x: nat, b: nat)
    requires x < |w| && w[x] && x < b
    ensures Apart(w, x, b)
  {
    assert Splits(w, x, x, b);
  }

  lemma ChaserKeeps(s: System)
    requires Inv(s) && s.input != [] && s.input[0].Chaser? && s.input[0].retries <= s.leader.hwm
    ensures s.input[0].retries < |s.leader.awaits|
    ensures Inv(Arrived(Pop(s), s.input[0].retries))
  {
    hide Lines, Apart, InFlight, Pipes, PipeOk, FlusherShape, Moving, Beats, Inbound;
    var p, x := Pop(s), s.input[0].retries;
    PopKeeps(s);
    PopViews(s);
    forall m | Moving(p, m)
      ensures Apart(s.leader.awaits, x, m.retries)
    {
      HeadAhead(s, m);
    }
    ArrivedViews(p, x);
    assert forall m :: m in Inbound(p) ==> Moving(p, m) by { MovingParts(p); }
    assert forall f, m :: 0 <= f < |Pipes(p)| && m in Pipes(p)[f] ==> Moving(p, m) by { MovingParts(p); }
    LinesWithout(s.leader.awaits, x, Inbound(p), Pipes(p));
    ArrivedSettled(p, x);
    forall l, y | 0 <= l < |p.leader.buf| && y in p.leader.buf[l]
      ensures Foremost(Arrived(p, x), y)
    {
      assert Foremost(p, y);
    }
  }

  lemma MovingParts(s: System)
    ensures forall m :: m in Inbound(s) ==> Moving(s, m)
    ensures forall f, m :: 0 <= f < |Pipes(s)| && m in Pipes(s)[f] ==> Moving(s, m)
  {
  }

  // ----- the watermark goes down one level -----

  function Lowered(s: System): System
    requires 0 < s.leader.hwm <= |s.leader.buf|
  {
    var h := s.leader.hwm - 1;
    s.(leader := s.leader.(hwm := h, buf := s.leader.buf[h := []]))
  }

  lemma LoweredViews(s: System)
    requires 0 < s.leader.hwm <= |s.leader.buf|
    ensures Inbound(Lowered(s)) == Inbound(s) && Pipes(Lowered(s)) == Pipes(s)
    ensures forall m :: Moving(Lowered(s), m) <==> Moving(s, m)
  {
    assert Pipes(Lowered(s)) == Pipes(s);
  }

  lemma LevelIsClear(s: System, m: Msg)
    requires Shape(s) && Settled(s) && Moving(s, m)
    requires 0 < s.leader.hwm && !s.leader.awaits[s.leader.hwm] && m.retries <= s.leader.hwm
    ensures m.retries < s.leader.hwm && Apart(s.leader.awaits, m.retries, s.leader.hwm)
  {
    hide Moving;
    var k :| Splits(s.leader.awaits, k, m.retries, s.leader.hwm + 1);
    assert Splits(s.leader.awaits, k, m.retries, s.leader.hwm);
  }

  lemma LoweredFlushers(s: System)
    requires Inv(s) && 0 < s.leader.hwm && !s.leader.awaits[s.leader.hwm]
    ensures FlushersOk(Lowered(s)) && Triggered(Lowered(s)) && Settled(Lowered(s))
  {
    hide Lines, Held, Live, Ranged, Awaited, Inbound, Pipes, Apart, FlusherShape;
    var t, h := Lowered(s), s.leader.hwm;
    LoweredViews(s);
    forall m: Msg | Moving(s, m) && m.retries <= h
      ensures m.retries < h && Apart(s.leader.awaits, m.retries, h)
    {
      LevelIsClear(s, m);
    }
    forall g | 0 <= g < |t.flushers|
      ensures FlusherShape(t.flushers[g]) && PipeOk(g, t.flushers[g], Pipes(t)[g], h - 1, t.leader.output)
    {
      assert PipeOk(g, s.flushers[g], Pipes(s)[g], h, s.leader.output);
      assert forall m :: m in Pipes(s)[g] ==> Moving(s, m);
    }
  }

  lemma LoweredKeeps(s: System)
    requires Inv(s) && 0 < s.leader.hwm && !s.leader.awaits[s.leader.hwm]
    ensures Inv(Lowered(s)) && Leaving(Lowered(s), s.leader.buf[s.leader.hwm - 1])
  {
    hide Lines, Apart, InFlight, Pipes, FlushersOk, Triggered, Settled, Moving, Beats, Inbound;
    LoweredViews(s);
    LoweredFlushers(s);
    forall l, y | 0 <= l < |s.leader.buf| && y in s.leader.buf[l]
      ensures Foremost(Lowered(s), y)
    {
      assert Foremost(s, y);
    }
  }

  // ----- a leader is selected -----

  function Acquired(s: System, f: nat): System {
    s.(leader := s.leader.(output := Some(f)))
  }

  lemma AcquiredKeeps(s: System, f: nat)
    requires Inv(s) && s.leader.output.None? && f < |s.flushers|
    ensures Inv(Acquired(s, f))
    ensures forall xs :: Leaving(s, xs) ==> Leaving(Acquired(s, f), xs)
  {
    hide Lines, Apart, InFlight, FlusherShape, ChaserSplits, Moving, Beats, Inbound;
    var t := Acquired(s, f);
    assert Pipes(t) == Pipes(s);
    assert Inbound(t) == Inbound(s) by { AcquiredInbound(s, f); }
    SameMoving(s, t);
    forall y
      ensures Foremost(s, y) ==> Foremost(t, y)
    {
    }
    forall g | 0 <= g < |t.flushers|
      ensures FlusherShape(t.flushers[g]) && PipeOk(g, t.flushers[g], Pipes(t)[g], t.leader.hwm, t.leader.output)
    {
      assert PipeOk(g, s.flushers[g], Pipes(s)[g], s.leader.hwm, s.leader.output);
    }
  }

  lemma AcquiredInbound(s: System, f: nat)
    ensures Inbound(Acquired(s, f)) == Inbound(s)
  {
  }

  // ----- a new, higher retry level -----

  lemma ApartWith(w: seq<bool>, x: nat, a: nat, b: nat)
    requires x < |w| && Apart(w, a, b)
    ensures Apart(w[x := true], a, b)
  {
    var k :| Splits(w, k, a, b);
    assert Splits(w[x := true], k, a, b);
  }

  lemma LinesWith(w: seq<bool>, x: nat, a: seq<Msg>, c: seq<seq<Msg>>)
    requires x < |w| && Lines(w, a, c)
    ensures Lines(w[x := true], a, c)
  {
    hide Apart;
    var w' := w[x := true];
    forall a: nat, b: nat | Apart(w, a, b)
      ensures Apart(w', a, b)
    {
      ApartWith(w, x, a, b);
    }
    forall m: Msg, n: Msg
      ensures Ahead(w, m, n) ==> Ahead(w', m, n)
      ensures Elsewhere(w, m, n) ==> Elsewhere(w', m, n)
    {
    }
    LinesImplied(w, w', a, c);
  }

  lemma LinesImplied(w: seq<bool>, w': seq<bool>, a: seq<Msg>, c: seq<seq<Msg>>)
    requires Lines(w, a, c)
    requires forall m, n :: Ahead(w, m, n) ==> Ahead(w', m, n)
    requires forall m, n :: Elsewhere(w, m, n) ==> Elsewhere(w', m, n)
    ensures Lines(w', a, c)
  {
    hide Ahead, Elsewhere;
    forall f | 0 <= f < |c|
      ensures Chain(w', c[f]) && Cross(w', a, c[f])
    {
      assert Chain(w, c[f]) && Cross(w, a, c[f]);
    }
    forall f, g | 0 <= f < |c| && 0 <= g < |c| && f != g
      ensures Separate(w', c[f], c[g])
    {
      assert Separate(w, c[f], c[g]);
    }
  }

  /** The state after the chaser is sent, before the message that raised the level moves on. */
  function Raised(s: System, f: nat, level: nat): System
    requires f < |s.flushers| && 1 <= level < |s.leader.awaits|
  {
    SendOne(s, f, Chaser(level - 1)).(leader := Raise(s.leader, level))
  }

  lemma RaisedViews(s: System, f: nat, level: nat)
    requires f < |s.flushers| && 1 <= level < |s.leader.awaits|
    ensures Inbound(Raised(s, f, level)) == Inbound(s)
    ensures Pipes(Raised(s, f, level)) == Pipes(s)[f := Pipes(s)[f] + [Chaser(level)]]
    ensures forall m :: Moving(Raised(s, f, level), m) ==> Moving(s, m) || m == Chaser(level)
  {
    var t := SendOne(s, f, Chaser(level - 1));
    SendOneViews(s, f, Chaser(level - 1));
    assert Up(Chaser(level - 1)) == Chaser(level);
    assert Pipes(Raised(s, f, level)) == Pipes(t);
    SameMoving(t, Raised(s, f, level));
  }

  /** A message above the watermark is the first that its broker producer handed back. */
  lemma RaiseIsHighest(s: System, m: Msg)
    requires Inv(s) && s.input != [] && s.leader.hwm < s.input[0].retries && Moving(s, m)
    ensures m.retries <= s.input[0].retries && s.input[0].Data?
  {
    hide Lines, Held, FlushersOk, Triggered, Settled, Ranged, Pipes, Apart;
    PopViews(s);
    var x := s.input[0];
    assert x.Data?;
    if m.retries > x.retries {
      assert m.Data?;
      assert Moving(Pop(s), m);
      HeadAhead(s, m);
      AboveIsOneGroup(s, x.retries, m.retries);
    }
  }

  lemma RaisedLines(s: System, f: nat, level: nat)
    requires Stable(s) && s.leader.output == Some(f) && s.leader.hwm < level <= s.max
    ensures Lines(s.leader.awaits[level := true], Inbound(s), Pipes(s)[f := Pipes(s)[f] + [Chaser(level)]])
  {
    hide Lines, Apart, Held, Triggered, Settled, Live, Inbound, Pipes, FlusherShape, ChaserSplits;
    var w', c, u := s.leader.awaits[level := true], Pipes(s), Chaser(level);
    LinesWith(s.leader.awaits, level, Inbound(s), c);
    MovingParts(s);
    forall m | Moving(s, m)
      ensures Ahead(w', m, u)
    {
      if m.Chaser? { AwaitedApart(w', m.retries, level); }
    }
    forall g, m | 0 <= g < |c| && g != f && m in c[g]
      ensures Elsewhere(w', m, u)
    {
      assert PipeOk(g, s.flushers[g], c[g], s.leader.hwm, s.leader.output);
      var h := s.leader.hwm;
      assert m.retries <= h && 1 <= m.retries;
      assert Splits(w', h, m.retries, level);
      SplitsApart(w', h, m.retries, level);
    }
    AppendLines(w', Inbound(s), c, f, u);
  }

  lemma SplitsApart(w: seq<bool>, k: int, a: nat, b: nat)
    requires Splits(w, k, a, b)
    ensures Apart(w, a, b)
  {
  }

  /** The abandoned broker producer hands everything back until it meets the new chaser. */
  lemma RaisedPipe(f: nat, fl: Flusher, c: seq<Msg>, h: nat, r: nat)
    requires h < r && PipeOk(f, fl, c, h, Some(f)) && Doomed(fl, c)
    requires forall m :: m in c ==> m.retries <= r
    ensures PipeOk(f, fl, c + [Chaser(r)], r, None)
  {
    if !fl.closing {
      assert forall i :: 0 <= i < |c| ==> c[i] in c;
      assert ChaserSplits(c + [Chaser(r)], r);
    }
  }

  lemma OtherPipe(g: nat, fl: Flusher, c: seq<Msg>, h: nat, r: nat, o: Option<nat>)
    requires h < r && o != Some(g) && PipeOk(g, fl, c, h, o)
    ensures PipeOk(g, fl, c, r, None)
  {
    assert forall i :: 0 <= i < |c| ==> c[i] in c;
  }

  lemma RaisedFlushers(s: System, f: nat)
    requires Stable(s) && s.input != [] && s.leader.hwm < s.input[0].retries <= s.max && s.leader.output == Some(f)
    ensures FlushersOk(Raised(s, f, s.input[0].retries)) && Triggered(Raised(s, f, s.input[0].retries))
  {
    hide Lines, Held, Settled, Live, Pipes, Apart, Ranged, InFlight, Inbound, PipeOk;
    var r := s.input[0].retries;
    var t, c, h := Raised(s, f, r), Pipes(s), s.leader.hwm;
    RaisedViews(s, f, r);
    MovingParts(s);
    PopViews(s);
    forall m | Moving(s, m)
      ensures m.retries <= r
    {
      RaiseIsHighest(s, m);
    }
    assert s.input[0] in Inbound(s);
    assert Doomed(s.flushers[f], c[f]);
    forall g | 0 <= g < |t.flushers|
      ensures FlusherShape(t.flushers[g]) && PipeOk(g, t.flushers[g], Pipes(t)[g], r, t.leader.output)
    {
      assert FlusherShape(s.flushers[g]) && PipeOk(g, s.flushers[g], c[g], h, s.leader.output);
      if g == f {
        RaisedPipe(f, s.flushers[f], c[f], h, r);
        PipeFlags(f, s.flushers[f], t.flushers[f], c[f] + [Chaser(r)], r, None);
      } else {
        OtherPipe(g, s.flushers[g], c[g], h, r, s.leader.output);
      }
    }
  }

  lemma PipeFlags(f: nat, fl: Flusher, fl': Flusher, c: seq<Msg>, h: nat, o: Option<nat>)
    requires PipeOk(f, fl, c, h, o) && fl'.failing == fl.failing && fl'.closing == fl.closing
    ensures PipeOk(f, fl', c, h, o)
  {
  }

  lemma RaisedSettled(s: System, f: nat, level: nat)
    requires f < |s.flushers| && 1 <= level < |s.leader.awaits|
    ensures Settled(Raised(s, f, level))
  {
    hide Moving, Apart;
    var t := Raised(s, f, level);
    forall m | Moving(t, m) && m.retries <= level
      ensures Apart(t.leader.awaits, m.retries, level + 1)
    {
      assert Splits(t.leader.awaits, level, m.retries, level + 1);
      SplitsApart(t.leader.awaits, level, m.retries, level + 1);
    }
  }

  lemma RaisedKeeps(s: System, f: nat)
    requires Stable(s) && s.input != [] && s.leader.hwm < s.input[0].retries <= s.max && s.leader.output == Some(f)
    ensures Stable(Raised(s, f, s.input[0].retries))
  {
    hide Lines, InFlight, Pipes, FlushersOk, Triggered, Stacked, Inbound, Moving, Apart, Settled;
    var r := s.input[0].retries;
    var t := Raised(s, f, r);
    RaisedViews(s, f, r);
    RaisedLines(s, f, r);
    RaisedFlushers(s, f);
    RaisedSettled(s, f, r);
    forall l, y | 0 <= l < |s.leader.buf| && y in s.leader.buf[l]
      ensures Foremost(t, y)
    {
      assert Foremost(s, y);
    }
  }

  /** A level can only rise while there is an output to send the chaser to. */
  lemma RaiseHasOutput(s: System)
    requires Inv(s) && s.input != [] && s.leader.hwm < s.input[0].retries
    ensures s.leader.output.Some?
  {
    PopViews(s);
    assert s.input[0] in Inbound(s);
  }

  // ----- one turn of the leader dispatcher -----

  lemma ErrorsKeep(s: System, e: seq<Msg>)
    requires Inv(s)
    ensures Inv(s.(errors := e))
  {
    hide Lines, Apart, PipeOk, FlusherShape, InFlight, Moving, Beats;
    var t := s.(errors := e);
    assert Pipes(t) == Pipes(s) && Inbound(t) == Inbound(s);
    SameMoving(s, t);
    forall l, y | 0 <= l < |s.leader.buf| && y in s.leader.buf[l]
      ensures Foremost(t, y)
    {
      assert Foremost(s, y);
    }
  }

  lemma {:induction false} SendAllKeeps(s: System, f: nat, xs: seq<Msg>)
    requires Inv(s) && s.leader.output == Some(f) && Leaving(s, xs)
    ensures Inv(Enqueue(s, Some(f), xs))
    decreases |xs|
  {
    hide Inv, Leaving;
    InvOutput(s);
    var q := s.flushers[f].queue;
    if xs == [] {
      assert q + xs == q;
      assert Enqueue(s, Some(f), xs) == s;
    } else {
      assert [xs[0]] + xs[1..] == xs;
      SendOneKeeps(s, f, xs[0], xs[1..]);
      SendAllKeeps(SendOne(s, f, xs[0]), f, xs[1..]);
      assert (q + [xs[0]]) + xs[1..] == q + xs;
      assert Enqueue(SendOne(s, f, xs[0]), Some(f), xs[1..]) == Enqueue(s, Some(f), xs);
    }
  }

  lemma InvOutput(s: System)
    requires Inv(s)
    ensures s.leader.output.Some? ==> s.leader.output.value < |s.flushers|
    ensures LeaderShape(s.leader, s.max)
  {
  }

  /** Send xs to the output, or drop them as errors when no leader can be found. */
  lemma DeliverKeeps(s: System, xs: seq<Msg>, brokers: seq<Option<nat>>)
    requires Inv(s) && Leaving(s, xs) && BrokersOk(s, brokers) && s.leader.hwm <= s.max
    ensures var l := Acquire(s.leader, brokers);
            Inv(Enqueue(s.(leader := l), l.output, if l.output.Some? then xs else []))
  {
    hide Inv, Leaving;
    InvOutput(s);
    var l := Acquire(s.leader, brokers);
    if s.leader.output.None? && l.output.Some? {
      assert s.(leader := l) == Acquired(s, l.output.value);
      AcquiredKeeps(s, l.output.value);
      assert Leaving(Acquired(s, l.output.value), xs);
    } else {
      assert s.(leader := l) == s;
    }
    if l.output.Some? {
      SendAllKeeps(s.(leader := l), l.output.value, xs);
    }
  }

  lemma EnqueueTwice(s: System, l: Leader, l': Leader, xs: seq<Msg>, ys: seq<Msg>)
    requires l.output.Some? ==> l'.output == l.output
    requires l.output.None? ==> xs == []
    ensures Enqueue(Enqueue(s.(leader := l), l.output, xs).(leader := l'), l'.output, ys)
            == Enqueue(s.(leader := l'), l'.output, xs + ys)
  {
    if l.output.None? {
      assert xs + ys == ys;
    } else if l.output.value < |s.flushers| {
      var q := s.flushers[l.output.value].queue;
      assert (q + xs) + ys == q + (xs + ys);
    }
  }

  lemma {:induction false} FlushKeeps(s: System, brokers: seq<Option<nat>>)
    requires Inv(s) && BrokersOk(s, brokers) && LeaderShape(s.leader, s.max)
    requires 0 < s.leader.hwm && !s.leader.awaits[s.leader.hwm]
    ensures var r := Flush(s.leader, brokers);
            Stable(Enqueue(s.(leader := r.leader), r.leader.output, r.toNew))
    decreases s.leader.hwm
  {
    hide Inv, Leaving;
    var h := s.leader.hwm - 1;
    var low := Lowered(s);
    LoweredKeeps(s);
    DeliverKeeps(low, s.leader.buf[h], brokers);
    var l := Acquire(low.leader, brokers);
    var sent := if l.output.Some? then s.leader.buf[h] else [];
    var mid := Enqueue(s.(leader := l), l.output, sent);
    assert mid == Enqueue(low.(leader := l), l.output, sent);
    if !(s.leader.awaits[h] || h == 0) {
      FlushKeeps(mid, brokers);
      var r := Flush(l, brokers);
      EnqueueTwice(s, l, r.leader, sent, r.toNew);
    }
  }

  lemma HeadLeaving(s: System)
    requires Inv(s) && s.input != [] && s.input[0].Data? && s.input[0].retries == s.leader.hwm
    ensures Inv(Pop(s)) && Leaving(Pop(s), [s.input[0]])
  {
    hide Lines, InFlight, Pipes, FlushersOk, Triggered, Settled, Inbound, Moving, Apart, Ranged, Awaited, Stacked;
    var x := s.input[0];
    PopKeeps(s);
    PopViews(s);
    HeadForemost(s);
    assert Within(x, LastAcked(s), s.next);
    forall l, y | 0 <= l < |s.leader.buf| && y in s.leader.buf[l]
      ensures Beats(x, y)
    {
      assert Foremost(s, y) && Beats(y, x);
    }
  }

  /** Neither an index out of range nor a send on the nil channel. */
  lemma NeverFaults(s: System, brokers: seq<Option<nat>>)
    requires Stable(s) && s.input != [] && BrokersOk(s, brokers) && LeaderShape(s.leader, s.max)
    ensures Dispatch(s.leader, s.input[0], brokers).Sent?
  {
    PopViews(s);
    assert s.input[0] in Inbound(s);
    if s.leader.hwm < s.input[0].retries { RaiseHasOutput(s); }
  }

  lemma RaiseThenPass(s: System, brokers: seq<Option<nat>>)
    requires Stable(s) && s.input != [] && BrokersOk(s, brokers)
    requires s.leader.hwm < s.input[0].retries
    ensures LeaderShape(s.leader, s.max) && LeadStep(s, brokers).Some? && Stable(LeadStep(s, brokers).value)
  {
    hide Inv, Leaving;
    var x := s.input[0];
    RaiseHasOutput(s);
    InvOutput(s);
    NeverFaults(s, brokers);
    RaiseIsHighestHere(s);
    var f := s.leader.output.value;
    var t := Raised(s, f, x.retries);
    RaisedKeeps(s, f);
    HeadLeaving(t);
    DeliverKeeps(Pop(t), [x], brokers);
    var l := Acquire(t.leader, brokers);
    var done := Enqueue(Pop(t).(leader := l), l.output, if l.output.Some? then [x] else []);
    var r := Dispatch(s.leader, x, brokers);
    var s1 := Enqueue(s.(input := s.input[1..]), s.leader.output, r.toOld);
    assert s1.(leader := l) == Pop(t).(leader := l);
    assert Enqueue(s1.(leader := l), l.output, r.toNew) == done by { EnqueueNothing(s1.(leader := l)); }
    ErrorsKeep(done, done.errors + r.failed);
  }

  lemma RaiseIsHighestHere(s: System)
    requires Inv(s) && s.input != [] && s.leader.hwm < s.input[0].retries
    ensures s.input[0].Data? && s.input[0].retries <= s.max
  {
    PopViews(s);
    RaiseIsHighest(s, s.input[0]);
    assert s.input[0] in Inbound(s);
  }

  lemma EnqueueNothing(s: System)
    ensures Enqueue(s, s.leader.output, []) == s
  {
    if s.leader.output.Some? && s.leader.output.value < |s.flushers| {
      assert s.flushers[s.leader.output.value].queue + [] == s.flushers[s.leader.output.value].queue;
    }
  }

  lemma JustPass(s: System, brokers: seq<Option<nat>>)
    requires Stable(s) && s.input != [] && BrokersOk(s, brokers)
    requires s.leader.hwm == s.input[0].retries && s.input[0].Data?
    ensures LeaderShape(s.leader, s.max) && LeadStep(s, brokers).Some? && Stable(LeadStep(s, brokers).value)
  {
    hide Inv, Leaving;
    var x := s.input[0];
    InvOutput(s);
    HeadLeaving(s);
    DeliverKeeps(Pop(s), [x], brokers);
    var l := Acquire(s.leader, brokers);
    var done := Enqueue(Pop(s).(leader := l), l.output, if l.output.Some? then [x] else []);
    var r := Dispatch(s.leader, x, brokers);
    var s1 := Enqueue(s.(input := s.input[1..]), s.leader.output, r.toOld);
    assert s1 == Pop(s) by { EnqueueNothing(Pop(s)); }
    assert Enqueue(s1.(leader := l), l.output, r.toNew) == done by { EnqueueNothing(s1.(leader := l)); }
    ErrorsKeep(done, done.errors + r.failed);
  }

  lemma KeepOrFlush(s: System, brokers: seq<Option<nat>>)
    requires Stable(s) && s.input != [] && BrokersOk(s, brokers)
    requires s.input[0].retries < s.leader.hwm || (s.input[0].retries == s.leader.hwm && s.input[0].Chaser?)
    requires s.leader.hwm > 0
    ensures LeaderShape(s.leader, s.max) && LeadStep(s, brokers).Some? && Stable(LeadStep(s, brokers).value)
  {
    var x := s.input[0];
    InvOutput(s);
    if x.Chaser? {
      ChaserKeeps(s);
    } else {
      BufferKeeps(s);
    }
    hide Inv, Leaving;
    var r := Dispatch(s.leader, x, brokers);
    var s1 := Enqueue(s.(input := s.input[1..]), s.leader.output, r.toOld);
    assert s1 == Pop(s) by { EnqueueNothing(Pop(s)); }
    var s2 := Enqueue(s1.(leader := r.leader), r.leader.output, r.toNew);
    if x.retries == s.leader.hwm {
      var t := Arrived(Pop(s), x.retries);
      FlushKeeps(t, brokers);
      assert t.(leader := r.leader) == s1.(leader := r.leader);
    } else {
      EnqueueNothing(s1.(leader := r.leader));
      assert x.Chaser? ==> s2 == Arrived(Pop(s), x.retries);
      assert x.Data? ==> s2 == Buffered(Pop(s), x);
    }
    ErrorsKeep(s2, s2.errors + r.failed);
  }

  lemma LeadKeeps(s: System, brokers: seq<Option<nat>>)
    requires Stable(s) && Step(s, Lead(brokers)).Some?
    ensures Stable(Step(s, Lead(brokers)).value)
  {
    var x := s.input[0];
    if s.leader.hwm < x.retries {
      RaiseThenPass(s, brokers);
    } else if s.leader.hwm > 0 && (x.retries < s.leader.hwm || x.Chaser?) {
      KeepOrFlush(s, brokers);
    } else {
      if s.leader.hwm == 0 { ZeroIsData(s); }
      JustPass(s, brokers);
    }
  }

  lemma ZeroIsData(s: System)
    requires Inv(s) && s.input != [] && s.input[0].retries == 0
    ensures s.input[0].Data?
  {
    PopViews(s);
  }
}
