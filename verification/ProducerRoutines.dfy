/** The goroutines' own loops, and why one pass through each is a run of the step system. */
module ProducerRoutines {
  import opened Wrappers
  import opened Producer

  function Onwards(sent: seq<Msg>, failed: seq<Msg>, rest: LeaderResult): LeaderResult
    requires rest.Sent?
  {
    Sent(rest.leader, [], sent + rest.toNew, failed + rest.failed)
  }

  lemma OnwardsStart(goal: LeaderResult)
    requires goal.Sent? && goal.toOld == []
    ensures goal == Onwards([], [], goal)
  {
    assert [] + goal.toNew == goal.toNew && [] + goal.failed == goal.failed;
  }

  function Lower(l: Leader, brokers: seq<Option<nat>>): Leader
    requires 0 < l.hwm < |l.buf| == |l.awaits| == |brokers|
  {
    Acquire(l.(hwm := l.hwm - 1, buf := l.buf[l.hwm - 1 := []]), brokers)
  }

  /** What flushing the level below the watermark sends, and what it fails. */
  function Released(l: Leader, brokers: seq<Option<nat>>): seq<Msg>
    requires 0 < l.hwm < |l.buf| == |l.awaits| == |brokers|
  {
    if Lower(l, brokers).output.Some? then l.buf[l.hwm - 1] else []
  }

  function Refused(l: Leader, brokers: seq<Option<nat>>): seq<Msg>
    requires 0 < l.hwm < |l.buf| == |l.awaits| == |brokers|
  {
    if Lower(l, brokers).output.Some? then [] else l.buf[l.hwm - 1]
  }

  /** One turn of the flush loop towards the result it will end with. */
  lemma FlushRound(goal: LeaderResult, l: Leader, brokers: seq<Option<nat>>, sent: seq<Msg>, failed: seq<Msg>)
    requires 0 < l.hwm < |l.buf| == |l.awaits| == |brokers|
    requires goal == Onwards(sent, failed, Producer.Flush(l, brokers))
    ensures var l', h := Lower(l, brokers), l.hwm - 1;
            var s, f := sent + Released(l, brokers), failed + Refused(l, brokers);
            if l.awaits[h] || h == 0 then goal == Sent(l', [], s, f)
            else goal == Onwards(s, f, Producer.Flush(l', brokers))
    ensures Lower(l, brokers).hwm == l.hwm - 1 && Lower(l, brokers).awaits == l.awaits
  {
    var l', h := Lower(l, brokers), l.hwm - 1;
    var s, f := Released(l, brokers), Refused(l, brokers);
    if !(l.awaits[h] || h == 0) {
      var rest := Producer.Flush(l', brokers);
      assert sent + (s + rest.toNew) == (sent + s) + rest.toNew;
      assert failed + (f + rest.failed) == (failed + f) + rest.failed;
    }
  }

  /** One per partition: it keeps the messages in order during retries. */
  class LeaderDispatcher {
    var highWatermark: nat
    var output: Option<nat>
    const buf: array<seq<Msg>>
    const expectChaser: array<bool>

    ghost predicate Valid()
      reads this
    {
      buf.Length == expectChaser.Length && highWatermark < buf.Length
    }

    ghost function View(): (l: Leader)
      requires Valid()
      reads this, buf, expectChaser
      ensures LeaderShape(l, buf.Length - 1)
    {
      Leader(highWatermark, buf[..], expectChaser[..], output)
    }

    constructor (max: nat, prefetched: Option<nat>)
      ensures Valid() && fresh(buf) && fresh(expectChaser)
      ensures View() == Init(max, prefetched.Some?).leader.(output := prefetched)
    {
      highWatermark, output := 0, prefetched;
      buf := new seq<Msg>[max + 1](_ => []);
      expectChaser := new bool[max + 1](_ => false);
      new;
      assert buf[..] == seq(max + 1, _ => []);
      assert expectChaser[..] == seq(max + 1, _ => false);
    }

    /** The metadata refresh that is attempted when there is no output. */
    method Refresh(brokers: seq<Option<nat>>)
      requires Valid() && |brokers| == buf.Length
      modifies this`output
      ensures Valid() && View() == Acquire(old(View()), brokers)
    {
      if output.None? {
        output := brokers[highWatermark];
      }
    }

    method FlushLevel(brokers: seq<Option<nat>>) returns (sent: seq<Msg>, failed: seq<Msg>)
      requires Valid() && |brokers| == buf.Length
      modifies this`output, buf
      ensures Valid() && highWatermark == old(highWatermark)
      ensures var l := old(View());
              && View() == Acquire(l.(buf := l.buf[l.hwm := []]), brokers)
              && sent == (if output.Some? then l.buf[l.hwm] else [])
              && failed == (if output.Some? then [] else l.buf[l.hwm])
    {
      sent, failed := [], [];
      Refresh(brokers);
      var backlog := buf[highWatermark];
      if output.None? {
        failed := backlog;
      } else {
        for i := 0 to |backlog|
          invariant sent == backlog[..i]
        {
          assert backlog[..i + 1] == backlog[..i] + [backlog[i]];
          sent := sent + [backlog[i]];
        }
      }
      buf[highWatermark] := [];
    }

    /** One level down, and that level flushed. */
    method FlushNext(brokers: seq<Option<nat>>) returns (sent: seq<Msg>, failed: seq<Msg>)
      requires Valid() && |brokers| == buf.Length && highWatermark > 0
      modifies this`highWatermark, this`output, buf
      ensures Valid() && View() == Lower(old(View()), brokers)
      ensures sent == Released(old(View()), brokers) && failed == Refused(old(View()), brokers)
    {
      ghost var before := View();
      highWatermark := highWatermark - 1;
      assert View() == before.(hwm := before.hwm - 1);
      sent, failed := FlushLevel(brokers);
    }

    /** The whole flush: every level from the one below the watermark down to the first
        that still awaits its chaser. */
    method Flush(brokers: seq<Option<nat>>) returns (sent: seq<Msg>, failed: seq<Msg>)
      requires Valid() && |brokers| == buf.Length && highWatermark > 0
      modifies this, buf
      ensures Valid()
      ensures Sent(View(), [], sent, failed) == Producer.Flush(old(View()), brokers)
    {
      ghost var l := View();
      ghost var goal := Producer.Flush(l, brokers);
      sent, failed := [], [];
      OnwardsStart(goal);
      hide Producer.Flush, Lower, Onwards, Released, Refused, Acquire, LeaderShape;
      while true
        invariant Valid() && View() == l && highWatermark > 0
        invariant goal == Onwards(sent, failed, Producer.Flush(l, brokers))
        decreases highWatermark
      {
        FlushRound(goal, l, brokers, sent, failed);
        l := Lower(l, brokers);
        var s, f := FlushNext(brokers);
        sent, failed := sent + s, failed + f;
        assert l.awaits == expectChaser[..] && l.hwm == highWatermark;
        if expectChaser[highWatermark] || highWatermark == 0 {
          break;
        }
      }
    }

    /** One turn of the dispatcher's loop. `ok` is false where the program would index out
        of range or block on a nil channel. */
    method Handle(msg: Msg, brokers: seq<Option<nat>>)
      returns (ok: bool, toOld: seq<Msg>, toNew: seq<Msg>, failed: seq<Msg>)
      requires Valid() && |brokers| == buf.Length
      modifies this, buf, expectChaser
      ensures Valid()
      ensures ok == Dispatch(old(View()), msg, brokers).Sent?
      ensures ok ==> Sent(View(), toOld, toNew, failed) == Dispatch(old(View()), msg, brokers)
    {
      ghost var l := View();
      ok, toOld, toNew, failed := true, [], [], [];
      if msg.retries >= buf.Length {
        ok := false;
        return;
      }
      if msg.retries > highWatermark {
        if output.None? {
          ok := false;
          return;
        }
        highWatermark := msg.retries;
        expectChaser[msg.retries] := true;
        toOld := [Chaser(msg.retries - 1)];
        output := None;
        assert View() == Raise(l, msg.retries);
      } else if highWatermark > 0 {
        if msg.retries < highWatermark {
          if msg.Chaser? {
            expectChaser[msg.retries] := false;
          } else {
            buf[msg.retries] := buf[msg.retries] + [msg];
          }
          return;
        } else if msg.Chaser? {
          expectChaser[highWatermark] := false;
          assert View() == l.(awaits := l.awaits[l.hwm := false]);
          toNew, failed := Flush(brokers);
          return;
        }
      }
      Refresh(brokers);
      if output.None? {
        failed := [msg];
      } else {
        toNew := [msg];
      }
    }
  }

  // ----- the flusher -----

  /** What some messages became, and the flusher they left behind. */
  datatype Settled = Settled(fl: Flusher, acked: seq<Msg>, retried: seq<Msg>, failed: seq<Msg>)

  function Then(a: Settled, b: Settled): Settled {
    Settled(b.fl, a.acked + b.acked, a.retried + b.retried, a.failed + b.failed)
  }

  function HandOne(f: Flusher, m: Msg, max: nat): Settled {
    if m.retries >= max then Settled(f, [], [], [m]) else Settled(f, [], [Up(m)], [])
  }

  /** retryMessages: count up what may be retried again, return the rest as errors. */
  function HandBack(f: Flusher, q: seq<Msg>, max: nat): (r: Settled)
    ensures r.fl == f && r.acked == []
  {
    if q == [] then Settled(f, [], [], []) else Then(HandOne(f, q[0], max), HandBack(f, q[1..], max))
  }

  function ScanOne(f: Flusher, max: nat): (r: Settled)
    requires f.queue != []
    ensures r.fl == ScanNext(f).0
  {
    var (f', back) := ScanNext(f);
    if back.None? then Settled(f', [], [], []) else HandOne(f', back.value, max)
  }

  /** Look at the first n messages of the queue, in order. */
  function ScanBatch(f: Flusher, n: nat, max: nat): Settled
    requires n <= |f.queue|
    decreases n
  {
    if n == 0 then Settled(f, [], [], [])
    else
      var a := ScanOne(f, max);
      Then(a, ScanBatch(a.fl, n - 1, max))
  }

  /** Settle everything claimed, by the outcome of the request. */
  function SettleBatch(f: Flusher, max: nat): Settled {
    var f' := f.(claimed := [], mode := Scanning);
    match f.mode
    case Acking => Settled(f', f.claimed, [], [])
    case Retrying => HandBack(f', f.claimed, max)
    case _ => Settled(f', [], [], f.claimed)
  }

  /** A whole batch of n messages: scan it, send the request unless there is none to send,
      settle what it claimed. */
  function RunBatch(f: Flusher, n: nat, o: Outcome, max: nat): Settled
    requires n <= |f.queue|
  {
    var a := ScanBatch(f, n, max);
    if f.closing || (a.fl.claimed == [] && !o.Broken?) then a
    else Then(a, SettleBatch(Conclude(a.fl, o), max))
  }

  // ----- what a batch comes to -----

  /** The messages that have a retry left, each one level up. */
  function Again(q: seq<Msg>, max: nat): seq<Msg> {
    if q == [] then []
    else (if q[0].retries < max then [q[0].(retries := q[0].retries + 1)] else []) + Again(q[1..], max)
  }

  /** The messages that have none. */
  function Spent(q: seq<Msg>, max: nat): seq<Msg> {
    if q == [] then [] else (if q[0].retries < max then [] else [q[0]]) + Spent(q[1..], max)
  }

  /** The first k messages of a batch are handed back: all of them when the connection is
      gone, those up to the first chaser when the partition is failing, else none. */
  predicate HandedFirst(closing: bool, failing: bool, batch: seq<Msg>, k: nat) {
    && k <= |batch|
    && (closing ==> k == |batch|)
    && (!closing && !failing ==> k == 0)
    && (!closing && failing ==>
          && (forall i :: 0 <= i < k - 1 ==> batch[i].Data?)
          && (k < |batch| ==> k > 0 && batch[k - 1].Chaser?))
  }

  predicate ChaserFound(batch: seq<Msg>, k: nat) {
    0 < k <= |batch| && batch[k - 1].Chaser?
  }

  lemma {:induction false} HandBackTells(f: Flusher, q: seq<Msg>, max: nat)
    ensures HandBack(f, q, max) == Settled(f, [], Again(q, max), Spent(q, max))
  {
    if q != [] { HandBackTells(f, q[1..], max); }
  }

  lemma {:induction false} AgainJoin(p: seq<Msg>, q: seq<Msg>, max: nat)
    ensures Again(p + q, max) == Again(p, max) + Again(q, max)
  {
    if p == [] {
      assert p + q == q;
    } else {
      var one := if p[0].retries < max then [Up(p[0])] else [];
      assert (p + q)[1..] == p[1..] + q && (p + q)[0] == p[0];
      AgainJoin(p[1..], q, max);
      assert Again(p, max) == one + Again(p[1..], max);
      assert Again(p + q, max) == one + Again(p[1..] + q, max);
      hide Again;
      assert one + (Again(p[1..], max) + Again(q, max)) == (one + Again(p[1..], max)) + Again(q, max);
    }
  }

  lemma {:induction false} SpentJoin(p: seq<Msg>, q: seq<Msg>, max: nat)
    ensures Spent(p + q, max) == Spent(p, max) + Spent(q, max)
  {
    if p == [] {
      assert p + q == q;
    } else {
      var one := if p[0].retries < max then [] else [p[0]];
      assert (p + q)[1..] == p[1..] + q && (p + q)[0] == p[0];
      SpentJoin(p[1..], q, max);
      assert Spent(p, max) == one + Spent(p[1..], max);
      assert Spent(p + q, max) == one + Spent(p[1..] + q, max);
      hide Spent;
      assert one + (Spent(p[1..], max) + Spent(q, max)) == (one + Spent(p[1..], max)) + Spent(q, max);
    }
  }

  /** The flusher after scanning n messages of which k were handed back. */
  function Scanned(f: Flusher, n: nat, k: nat): Flusher
    requires k <= n <= |f.queue|
  {
    Flusher(f.failing && (f.closing || !ChaserFound(f.queue[..n], k)), f.closing, f.mode,
            f.claimed + f.queue[k..n], f.queue[n..])
  }

  lemma ScanNothing(f: Flusher, max: nat)
    ensures HandedFirst(f.closing, f.failing, f.queue[..0], 0)
    ensures ScanBatch(f, 0, max) == Settled(Scanned(f, 0, 0), [], [], [])
  {
    assert f.claimed + f.queue[0..0] == f.claimed && f.queue[0..] == f.queue;
  }

  lemma ScanClaims(f: Flusher, n: nat, k: nat, max: nat)
    requires 0 < n <= |f.queue| && !f.closing && !f.failing
    requires var g := ScanOne(f, max).fl; HandedFirst(g.closing, g.failing, g.queue[..n - 1], k)
    ensures k == 0 && HandedFirst(f.closing, f.failing, f.queue[..n], 0)
    ensures Scanned(ScanOne(f, max).fl, n - 1, 0) == Scanned(f, n, 0)
    ensures forall fl :: Then(ScanOne(f, max), Settled(fl, [], Again([], max), Spent([], max)))
                         == Settled(fl, [], Again([], max), Spent([], max))
  {
    assert f.claimed + [f.queue[0]] + f.queue[1..][0..n - 1] == f.claimed + f.queue[0..n];
    assert f.queue[1..][n - 1..] == f.queue[n..];
  }

  lemma ScanHands(f: Flusher, n: nat, k: nat, max: nat)
    requires 0 < n <= |f.queue| && (f.closing || f.failing) && k < n
    requires var g := ScanOne(f, max).fl; HandedFirst(g.closing, g.failing, g.queue[..n - 1], k)
    ensures HandedFirst(f.closing, f.failing, f.queue[..n], k + 1)
    ensures Scanned(ScanOne(f, max).fl, n - 1, k) == Scanned(f, n, k + 1)
  {
    hide Again, Spent;
    var g := ScanOne(f, max).fl;
    assert g.queue == f.queue[1..];
    assert g.queue[..n - 1] == f.queue[..n][1..];
    assert g.queue[k..n - 1] == f.queue[k + 1..n] && g.queue[n - 1..] == f.queue[n..];
  }

  lemma HandedMore(f: Flusher, k: nat, max: nat, fl: Flusher)
    requires k < |f.queue| && (f.closing || f.failing)
    ensures f.queue[1..][..k] == f.queue[..k + 1][1..]
    ensures Then(ScanOne(f, max), Settled(fl, [], Again(f.queue[1..][..k], max), Spent(f.queue[1..][..k], max)))
            == Settled(fl, [], Again(f.queue[..k + 1], max), Spent(f.queue[..k + 1], max))
  {
  }

  lemma {:induction false} ScanBatchTells(f: Flusher, n: nat, max: nat) returns (k: nat)
    requires n <= |f.queue|
    ensures HandedFirst(f.closing, f.failing, f.queue[..n], k)
    ensures ScanBatch(f, n, max)
            == Settled(Scanned(f, n, k), [], Again(f.queue[..k], max), Spent(f.queue[..k], max))
    decreases n
  {
    if n == 0 {
      ScanNothing(f, max);
      k := 0;
    } else {
      hide HandedFirst, Scanned, Again, Spent, Then;
      var a := ScanOne(f, max);
      var j := ScanBatchTells(a.fl, n - 1, max);
      if f.closing || f.failing {
        ScanHands(f, n, j, max);
        HandedMore(f, j, max, Scanned(f, n, j + 1));
        k := j + 1;
      } else {
        ScanClaims(f, n, j, max);
        k := 0;
      }
    }
  }

  /** What becomes of a batch, by the outcome of its request: the messages handed back first
      go up or are spent; those claimed are acknowledged, returned, or go the same way. */
  predicate Comes(closing: bool, failing: bool, batch: seq<Msg>, o: Outcome, max: nat, k: nat, r: Settled) {
    && HandedFirst(closing, failing, batch, k)
    && var claimed := batch[k..];
       var back := if o.Retriable? || o.Broken? then batch else batch[..k];
    && r.acked == (if o.Delivered? then claimed else [])
    && r.retried == Again(back, max)
    && r.failed == Spent(back, max) + (if o.Fatal? then claimed else [])
    && r.fl.closing == (closing || o.Broken?)
    && (!r.fl.closing ==> (r.fl.failing <==> (failing && !ChaserFound(batch, k)) || (o.Retriable? && claimed != [])))
  }

  /** What settling adds: b is what became of the claimed messages. */
  predicate Settles(claimed: seq<Msg>, o: Outcome, max: nat, fl: Flusher, b: Settled) {
    var back := o.Retriable? || o.Broken?;
    && b.acked == (if o.Delivered? then claimed else [])
    && b.retried == (if back then Again(claimed, max) else [])
    && b.failed == (if back then Spent(claimed, max) else if o.Fatal? then claimed else [])
    && b.fl.closing == (fl.closing || o.Broken?) && b.fl.failing == (fl.failing || o.Retriable?)
  }

  /** Settling the claimed messages of a flusher that can still be asked. */
  lemma SettleTells(fl: Flusher, o: Outcome, max: nat)
    requires fl.claimed != [] || o.Broken?
    ensures Settles(fl.claimed, o, max, fl, SettleBatch(Conclude(fl, o), max))
  {
    HandBackTells(Conclude(fl, o).(claimed := [], mode := Scanning), fl.claimed, max);
  }

  /** The scan alone, when there is no request to send. */
  lemma ScanComes(closing: bool, failing: bool, batch: seq<Msg>, o: Outcome, max: nat, k: nat, a: Settled)
    requires HandedFirst(closing, failing, batch, k) && (closing || (batch[k..] == [] && !o.Broken?))
    requires a.acked == [] && a.retried == Again(batch[..k], max) && a.failed == Spent(batch[..k], max)
    requires a.fl.closing == closing && (!closing ==> a.fl.failing == (failing && !ChaserFound(batch, k)))
    ensures Comes(closing, failing, batch, o, max, k, a)
  {
    assert k == |batch| by { assert |batch[k..]| == |batch| - k; }
    assert batch[..k] == batch && batch[k..] == [];
    hide Again, Spent, HandedFirst, ChaserFound;
  }

  lemma NothingMore(q: seq<Msg>)
    ensures q + [] == q == [] + q
  {
  }

  lemma RequestComes(closing: bool, failing: bool, batch: seq<Msg>, o: Outcome, max: nat, k: nat,
                     a: Settled, b: Settled)
    requires HandedFirst(closing, failing, batch, k) && !closing && (o.Broken? || batch[k..] != [])
    requires a.acked == [] && a.retried == Again(batch[..k], max) && a.failed == Spent(batch[..k], max)
    requires a.fl.closing == closing && a.fl.failing == (failing && !ChaserFound(batch, k))
    requires Settles(batch[k..], o, max, a.fl, b)
    ensures Comes(closing, failing, batch, o, max, k, Then(a, b))
  {
    assert k <= |batch|;
    hide HandedFirst, ChaserFound;
    NothingMore(b.acked);
    if o.Retriable? || o.Broken? {
      assert batch[..k] + batch[k..] == batch;
      AgainJoin(batch[..k], batch[k..], max);
      SpentJoin(batch[..k], batch[k..], max);
      hide Again, Spent;
      NothingMore(Spent(batch, max));
    } else {
      hide Again, Spent;
      NothingMore(Again(batch[..k], max));
      NothingMore(Spent(batch[..k], max));
    }
  }

  lemma BatchTells(f: Flusher, o: Outcome, max: nat) returns (k: nat)
    requires f.claimed == []
    ensures Comes(f.closing, f.failing, f.queue, o, max, k, RunBatch(f, |f.queue|, o, max))
  {
    var n, batch := |f.queue|, f.queue;
    k := ScanBatchTells(f, n, max);
    var a := ScanBatch(f, n, max);
    assert batch[..n] == batch && a.fl.claimed == batch[k..];
    hide Again, Spent, ScanBatch, SettleBatch, Conclude, ChaserFound, Comes, Settles, HandedFirst;
    if f.closing || (a.fl.claimed == [] && !o.Broken?) {
      ScanComes(f.closing, f.failing, batch, o, max, k, a);
    } else {
      SettleTells(a.fl, o, max);
      RequestComes(f.closing, f.failing, batch, o, max, k, a, SettleBatch(Conclude(a.fl, o), max));
    }
  }

  // ----- a batch is a run -----

  function Repeat(ev: Event, n: nat): (r: seq<Event>)
    ensures |r| == n
  {
    if n == 0 then [] else [ev] + Repeat(ev, n - 1)
  }

  function After(s: System, f: nat, r: Settled): System
    requires f < |s.flushers|
  {
    s.(flushers := s.flushers[f := r.fl], successes := s.successes + r.acked,
       retries := s.retries + r.retried, errors := s.errors + r.failed)
  }

  lemma AfterTwice(s: System, f: nat, a: Settled, b: Settled)
    requires f < |s.flushers|
    ensures After(After(s, f, a), f, b) == After(s, f, Then(a, b))
  {
    assert s.retries + a.retried + b.retried == s.retries + (a.retried + b.retried);
    assert s.errors + a.failed + b.failed == s.errors + (a.failed + b.failed);
    assert s.successes + a.acked + b.acked == s.successes + (a.acked + b.acked);
  }

  lemma {:induction false} RunJoin(s: System, p: seq<Event>, q: seq<Event>)
    ensures Run(s, p + q) == (var t := Run(s, p); if t.None? then None else Run(t.value, q))
    decreases |p|
  {
    if p == [] {
      assert p + q == q;
    } else {
      assert (p + q)[1..] == p[1..] + q;
      var t := Step(s, p[0]);
      if t.Some? { RunJoin(t.value, p[1..], q); }
    }
  }

  lemma ScanOneStep(s: System, f: nat)
    requires f < |s.flushers| && s.flushers[f].queue != [] && s.flushers[f].mode.Scanning?
    ensures Step(s, Scan(f)) == Some(After(s, f, ScanOne(s.flushers[f], s.max)))
  {
    var a := ScanOne(s.flushers[f], s.max);
    assert s.retries + [] == s.retries && s.errors + [] == s.errors && s.successes + [] == s.successes;
  }

  lemma {:induction false} ScanBatchRun(s: System, f: nat, n: nat)
    requires f < |s.flushers| && n <= |s.flushers[f].queue| && s.flushers[f].mode.Scanning?
    ensures Run(s, Repeat(Scan(f), n)) == Some(After(s, f, ScanBatch(s.flushers[f], n, s.max)))
    ensures ScanBatch(s.flushers[f], n, s.max).fl.mode.Scanning?
    ensures ScanBatch(s.flushers[f], n, s.max).fl.closing == s.flushers[f].closing
    decreases n
  {
    if n == 0 {
      assert After(s, f, ScanBatch(s.flushers[f], 0, s.max)) == s;
    } else {
      assert Repeat(Scan(f), n)[1..] == Repeat(Scan(f), n - 1);
      ScanOneStep(s, f);
      var a := ScanOne(s.flushers[f], s.max);
      var t := After(s, f, a);
      ScanBatchRun(t, f, n - 1);
      hide ScanOne, Then, Step, After;
      AfterTwice(s, f, a, ScanBatch(a.fl, n - 1, s.max));
    }
  }

  /** The first message of a settled batch, then the others. */
  function SettleOne(f: Flusher, max: nat): Settled
    requires f.claimed != []
  {
    var f', m := DrainNext(f), f.claimed[0];
    match f.mode
    case Acking => Settled(f', [m], [], [])
    case Retrying => HandOne(f', m, max)
    case _ => Settled(f', [], [], [m])
  }

  lemma {:induction false} HandBackFlusher(f: Flusher, g: Flusher, q: seq<Msg>, max: nat)
    ensures HandBack(g, q, max) == HandBack(f, q, max).(fl := g)
  {
    if q != [] { HandBackFlusher(f, g, q[1..], max); }
  }

  lemma HandBackStart(q: seq<Msg>, max: nat)
    ensures q[0..] == q
    ensures Then(Settled(IDLE_FLUSHER, [], [], []), HandBack(IDLE_FLUSHER, q, max)) == HandBack(IDLE_FLUSHER, q, max)
  {
    EmptyThen(HandBack(IDLE_FLUSHER, q, max));
  }

  /** Message i of a batch joins what has been handed back so far. */
  lemma HandBackNext(q: seq<Msg>, i: nat, max: nat, retried: seq<Msg>, failed: seq<Msg>)
    requires i < |q|
    ensures
      var m := q[i];
      var done := if m.retries >= max then Settled(IDLE_FLUSHER, [], retried, failed + [m])
                  else Settled(IDLE_FLUSHER, [], retried + [Up(m)], failed);
      Then(Settled(IDLE_FLUSHER, [], retried, failed), HandBack(IDLE_FLUSHER, q[i..], max))
      == Then(done, HandBack(IDLE_FLUSHER, q[i + 1..], max))
  {
    assert q[i..][1..] == q[i + 1..];
    var one, rest := HandOne(IDLE_FLUSHER, q[i], max), HandBack(IDLE_FLUSHER, q[i + 1..], max);
    ThenAssociates(Settled(IDLE_FLUSHER, [], retried, failed), one, rest);
    assert retried + [] == retried && failed + [] == failed;
  }

  lemma HandBackEnd(q: seq<Msg>, max: nat, retried: seq<Msg>, failed: seq<Msg>)
    ensures
      var done := Settled(IDLE_FLUSHER, [], retried, failed);
      Then(done, HandBack(IDLE_FLUSHER, q[|q|..], max)) == done
  {
    assert q[|q|..] == [] && retried + [] == retried && failed + [] == failed;
  }

  lemma SettleOneStep(s: System, f: nat)
    requires f < |s.flushers| && s.flushers[f].claimed != [] && !s.flushers[f].mode.Scanning?
    ensures Step(s, Drain(f)) == Some(After(s, f, SettleOne(s.flushers[f], s.max)))
  {
    assert s.retries + [] == s.retries && s.errors + [] == s.errors && s.successes + [] == s.successes;
  }

  lemma SettleSplits(f: Flusher, max: nat)
    requires |f.claimed| > 1
    ensures SettleBatch(f, max) == Then(SettleOne(f, max), SettleBatch(DrainNext(f), max))
    ensures SettleOne(f, max).fl == DrainNext(f)
  {
    var q, g, d := f.claimed, f.(claimed := [], mode := Scanning), DrainNext(f);
    assert [q[0]] + q[1..] == q;
    assert d.claimed == q[1..] && d.(claimed := [], mode := Scanning) == g && d.mode == f.mode;
    if f.mode.Retrying? {
      assert HandBack(g, q, max) == Then(HandOne(g, q[0], max), HandBack(g, q[1..], max));
    }
  }

  lemma SettleLast(f: Flusher, max: nat)
    requires |f.claimed| == 1
    ensures SettleOne(f, max) == SettleBatch(f, max)
  {
    var q, g := f.claimed, DrainNext(f);
    assert [q[0]] == q && q[1..] == [] && g == f.(claimed := [], mode := Scanning);
    if f.mode.Retrying? {
      var one := HandOne(g, q[0], max);
      assert HandBack(g, q, max) == Then(one, HandBack(g, [], max));
      assert one.retried + [] == one.retried && one.failed + [] == one.failed && one.acked + [] == one.acked;
    }
  }

  lemma {:induction false} SettleBatchRun(s: System, f: nat)
    requires f < |s.flushers| && s.flushers[f].claimed != [] && !s.flushers[f].mode.Scanning?
    ensures Run(s, Repeat(Drain(f), |s.flushers[f].claimed|)) == Some(After(s, f, SettleBatch(s.flushers[f], s.max)))
    decreases |s.flushers[f].claimed|
  {
    var fl, n := s.flushers[f], |s.flushers[f].claimed|;
    assert Repeat(Drain(f), n)[1..] == Repeat(Drain(f), n - 1);
    SettleOneStep(s, f);
    var a := SettleOne(fl, s.max);
    var t := After(s, f, a);
    if n == 1 {
      SettleLast(fl, s.max);
      assert Repeat(Drain(f), 1)[1..] == [];
    } else {
      SettleSplits(fl, s.max);
      SettleBatchRun(t, f);
      hide SettleBatch, SettleOne, Then, Step, After;
      AfterTwice(s, f, a, SettleBatch(DrainNext(fl), s.max));
    }
  }

  function BatchEvents(s: System, f: nat, n: nat, o: Outcome): seq<Event>
    requires f < |s.flushers| && n <= |s.flushers[f].queue|
  {
    var a := ScanBatch(s.flushers[f], n, s.max).fl;
    Repeat(Scan(f), n)
    + if s.flushers[f].closing || (a.claimed == [] && !o.Broken?) then []
      else [Request(f, o)] + Repeat(Drain(f), |a.claimed|)
  }

  lemma RequestRun(s: System, f: nat, o: Outcome)
    requires f < |s.flushers| && s.flushers[f].mode.Scanning? && !s.flushers[f].closing
    requires o.Broken? || s.flushers[f].claimed != []
    ensures Run(s, [Request(f, o)] + Repeat(Drain(f), |s.flushers[f].claimed|))
            == Some(After(s, f, SettleBatch(Conclude(s.flushers[f], o), s.max)))
  {
    var fl := s.flushers[f];
    var events := [Request(f, o)] + Repeat(Drain(f), |fl.claimed|);
    assert events[1..] == Repeat(Drain(f), |fl.claimed|);
    var t := Step(s, Request(f, o)).value;
    var b := SettleBatch(Conclude(fl, o), s.max);
    if fl.claimed == [] {
      assert After(s, f, b) == t;
    } else {
      SettleBatchRun(t, f);
      assert After(t, f, b) == After(s, f, b);
    }
  }

  /** Handling a batch in one go is a run of the step system, so everything proved about
      all runs holds for it. */
  lemma BatchIsRun(s: System, f: nat, n: nat, o: Outcome)
    requires f < |s.flushers| && n <= |s.flushers[f].queue| && s.flushers[f].mode.Scanning?
    ensures Run(s, BatchEvents(s, f, n, o)) == Some(After(s, f, RunBatch(s.flushers[f], n, o, s.max)))
  {
    var fl := s.flushers[f];
    var a := ScanBatch(fl, n, s.max);
    ScanBatchRun(s, f, n);
    if fl.closing || (a.fl.claimed == [] && !o.Broken?) {
      assert Repeat(Scan(f), n) + [] == Repeat(Scan(f), n);
    } else {
      RunJoin(s, Repeat(Scan(f), n), [Request(f, o)] + Repeat(Drain(f), |a.fl.claimed|));
      RequestRun(After(s, f, a), f, o);
      hide SettleBatch, Then, Run;
      AfterTwice(s, f, a, SettleBatch(Conclude(a.fl, o), s.max));
    }
  }

  /** One per broker producer: it sends a batch at a time and reads the answer. `failing`
      is the partition's entry in currentRetries. */
  class FlusherRoutine {
    var failing: bool
    var closing: bool
    const max: nat

    ghost function View(claimed: seq<Msg>, rest: seq<Msg>): Flusher
      reads this
    {
      Flusher(failing, closing, Scanning, claimed, rest)
    }

    constructor (max: nat)
      ensures View([], []) == IDLE_FLUSHER && this.max == max
    {
      this.failing, this.closing, this.max := false, false, max;
    }

    method RetryMessages(batch: seq<Msg>) returns (retried: seq<Msg>, failed: seq<Msg>)
      ensures forall f :: HandBack(f, batch, max) == Settled(f, [], retried, failed)
    {
      retried, failed := [], [];
      HandBackStart(batch, max);
      hide HandBack, Then;
      for i := 0 to |batch|
        invariant Then(Settled(IDLE_FLUSHER, [], retried, failed), HandBack(IDLE_FLUSHER, batch[i..], max))
                  == HandBack(IDLE_FLUSHER, batch, max)
      {
        var m := batch[i];
        HandBackNext(batch, i, max, retried, failed);
        if m.retries >= max {
          failed := failed + [m];
        } else {
          retried := retried + [Up(m)];
        }
      }
      HandBackEnd(batch, max, retried, failed);
      forall f
        ensures HandBack(f, batch, max) == Settled(f, [], retried, failed)
      {
        HandBackFlusher(IDLE_FLUSHER, f, batch, max);
      }
    }

    /** The scan's decision about one message. */
    method ScanMessage(m: Msg, ghost rest: seq<Msg>, ghost before: seq<Msg>)
      returns (claim: bool, retried: seq<Msg>, failed: seq<Msg>)
      modifies this`failing
      ensures var r := ScanOne(old(View(before, [m] + rest)), max);
              Settled(View(if claim then before + [m] else before, rest), [], retried, failed) == r
    {
      claim, retried, failed := false, [], [];
      assert ([m] + rest)[1..] == rest;
      if closing || failing {
        if !closing && m.Chaser? { failing := false; }
        retried, failed := RetryMessages([m]);
        assert HandBack(IDLE_FLUSHER, [m], max) == Then(HandOne(IDLE_FLUSHER, m, max), HandBack(IDLE_FLUSHER, [], max));
      } else {
        claim := true;
      }
    }

    /** The scan of a batch: what it claims for the request, and what it hands back. */
    method ScanAll(batch: seq<Msg>) returns (claimed: seq<Msg>, retried: seq<Msg>, failed: seq<Msg>)
      modifies this`failing
      ensures Settled(View(claimed, []), [], retried, failed) == ScanBatch(old(View([], batch)), |batch|, max)
    {
      claimed, retried, failed := [], [], [];
      ghost var goal := ScanBatch(View([], batch), |batch|, max);
      var i := 0;
      assert batch[0..] == batch;
      EmptyThen(goal);
      while i < |batch|
        invariant 0 <= i <= |batch|
        invariant goal == Then(Settled(IDLE_FLUSHER, [], retried, failed),
                               ScanBatch(View(claimed, batch[i..]), |batch| - i, max))
      {
        ghost var f := View(claimed, batch[i..]);
        assert batch[i..] == [batch[i]] + batch[i + 1..];
        var claim, r, e := ScanMessage(batch[i], batch[i + 1..], claimed);
        ghost var one := ScanOne(f, max);
        ThenAssociates(Settled(IDLE_FLUSHER, [], retried, failed), one, ScanBatch(one.fl, |batch| - i - 1, max));
        if claim { claimed := claimed + [batch[i]]; }
        retried, failed := retried + r, failed + e;
        i := i + 1;
      }
      assert batch[i..] == [];
      assert retried + [] == retried && failed + [] == failed;
    }

    /** The answer to the request that the claimed messages were sent in. */
    method Settle(claimed: seq<Msg>, o: Outcome) returns (acked: seq<Msg>, retried: seq<Msg>, failed: seq<Msg>)
      requires claimed != [] || o.Broken?
      modifies this
      ensures Settled(View([], []), acked, retried, failed)
              == SettleBatch(Conclude(old(View(claimed, [])), o), max)
    {
      acked, retried, failed := [], [], [];
      match o {
      case Delivered => acked := claimed;
      case Fatal => failed := claimed;
      case Retriable =>
        failing := true;
        retried, failed := RetryMessages(claimed);
        assert HandBack(View([], []), claimed, max) == Settled(View([], []), [], retried, failed);
      case Broken =>
        closing := true;
        retried, failed := RetryMessages(claimed);
        assert HandBack(View([], []), claimed, max) == Settled(View([], []), [], retried, failed);
      }
    }

    /** One batch, from the channel to the last message returned, acknowledged or retried. */
    method Process(batch: seq<Msg>, o: Outcome) returns (acked: seq<Msg>, retried: seq<Msg>, failed: seq<Msg>)
      modifies this
      ensures Settled(View([], []), acked, retried, failed) == RunBatch(old(View([], batch)), |batch|, o, max)
      ensures exists k :: Comes(old(closing), old(failing), batch, o, max, k,
                                Settled(View([], []), acked, retried, failed))
    {
      ghost var f := View([], batch);
      ghost var k := BatchTells(f, o, max);
      hide Comes, Again, Spent, SettleBatch, Conclude;
      ghost var a := ScanBatch(f, |batch|, max);
      var claimed;
      acked := [];
      claimed, retried, failed := ScanAll(batch);
      ScanKeepsClosing(f, |batch|, max);
      hide ScanBatch;
      assert a.fl == View(claimed, []) && a == Settled(a.fl, [], retried, failed);
      if closing || (claimed == [] && !o.Broken?) {
        assert View([], []) == a.fl by { assert claimed == []; }
        return;
      }
      var r, e;
      acked, r, e := Settle(claimed, o);
      retried, failed := retried + r, failed + e;
      NothingMore(acked);
    }
  }

  lemma ThenAssociates(a: Settled, b: Settled, c: Settled)
    ensures Then(Then(a, b), c) == Then(a, Then(b, c))
  {
    assert (a.acked + b.acked) + c.acked == a.acked + (b.acked + c.acked);
    assert (a.retried + b.retried) + c.retried == a.retried + (b.retried + c.retried);
    assert (a.failed + b.failed) + c.failed == a.failed + (b.failed + c.failed);
  }

  lemma EmptyThen(a: Settled)
    ensures Then(Settled(IDLE_FLUSHER, [], [], []), a) == a
  {
    assert [] + a.acked == a.acked && [] + a.retried == a.retried && [] + a.failed == a.failed;
  }

  lemma {:induction false} ScanKeepsClosing(f: Flusher, n: nat, max: nat)
    requires n <= |f.queue|
    ensures ScanBatch(f, n, max).fl.closing == f.closing
    ensures f.closing ==> ScanBatch(f, n, max).fl.claimed == f.claimed
    decreases n
  {
    if n > 0 {
      ScanKeepsClosing(ScanOne(f, max).fl, n - 1, max);
    }
  }
}
