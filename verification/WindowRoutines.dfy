/** Send windows as the server changes them: WINDOW_UPDATE frames, and the setting that changes
    the windows of all open streams at once and may leave them negative (sections 6.9.1 and
    6.9.2 of RFC 7540). */
module WindowRoutines {
  import opened Wrappers
  import opened SendSchedule
  import opened SendRoutines

  datatype Outcome = Fine | Ignored | StreamFlowError | ConnectionFlowError

  predicate CanAdd(window: int, n: int32) {
    -0x8000_0000 <= window <= MAX_WINDOW && AddTo(window, n).Some?
  }

  /** A window after flow.add, which a refusal leaves alone. */
  function AfterAdd(window: int, n: int32): int {
    if CanAdd(window, n) then AddTo(window, n).value else window
  }

  /** An increment is added exactly if the window is not negative and the sum fits: a negative
      window refuses every increment. */
  lemma IncrementIs(window: int32, n: int32)
    requires n > 0
    ensures CanAdd(window, n) <==> 0 <= window && window + n <= MAX_WINDOW
    ensures CanAdd(window, n) ==> AfterAdd(window, n) == window + n
  {
    AddIsExact(window, n);
    assert window < 0 ==> Wrapped(MAX_WINDOW - window) == MAX_WINDOW - window - 0x1_0000_0000;
  }

  /** A change of the initial size, positive or negative, is added to a window that is not
      negative exactly if the sum fits, and may leave it negative. */
  lemma GrowthIs(window: int32, growth: int32)
    requires 0 <= window
    ensures CanAdd(window, growth) <==> window + growth <= MAX_WINDOW
    ensures CanAdd(window, growth) ==> AfterAdd(window, growth) == window + growth
  {
    AddIsExact(window, growth);
  }

  // ----- many windows at once -----

  /** The windows of some streams after the same change. */
  function Shifted(s: Sched, ids: set<nat>, growth: int32): Sched {
    s.(windows := map id | id in s.windows :: if id in ids then AfterAdd(s.windows[id], growth) else s.windows[id])
  }

  predicate AllCanAdd(s: Sched, ids: set<nat>, growth: int32) {
    forall id :: id in ids && id in s.windows ==> CanAdd(s.windows[id], growth)
  }

  lemma AllNext(s: Sched, ids: set<nat>, growth: int32, id: nat)
    requires id in s.windows
    ensures AllCanAdd(s, ids + {id}, growth) == (AllCanAdd(s, ids, growth) && CanAdd(s.windows[id], growth))
  {
    hide CanAdd;
  }

  lemma NotAll(s: Sched, ids: set<nat>, growth: int32, id: nat)
    requires id in ids && id in s.windows && !CanAdd(s.windows[id], growth)
    ensures !AllCanAdd(s, ids, growth)
  {
  }

  lemma ShiftedNone(s: Sched, growth: int32)
    ensures Shifted(s, {}, growth) == s && AllCanAdd(s, {}, growth)
  {
    SameMap(Shifted(s, {}, growth).windows, s.windows);
  }

  lemma ShiftedNext(s: Sched, ids: set<nat>, growth: int32, id: nat)
    requires id in s.windows && id !in ids
    ensures
      var t := Shifted(s, ids, growth);
      && id in t.windows && t.windows[id] == s.windows[id]
      && Shifted(s, ids + {id}, growth) == t.(windows := t.windows[id := AfterAdd(t.windows[id], growth)])
  {
    hide AfterAdd;
    var t := Shifted(s, ids, growth);
    SameMap(Shifted(s, ids + {id}, growth).windows, t.windows[id := AfterAdd(t.windows[id], growth)]);
  }

  ghost predicate Path(ss: seq<Sched>, es: seq<Event>) {
    |ss| == |es| + 1 && forall i :: 0 <= i < |es| ==> Step(ss[i], es[i], ss[i + 1])
  }

  /** Such a change is made of steps of the scheduler's model, one for each stream. */
  lemma {:induction false} ShiftedIsPath(s: Sched, ids: set<nat>, growth: int32)
    returns (ss: seq<Sched>, es: seq<Event>)
    requires ids <= s.windows.Keys
    ensures Path(ss, es) && ss[0] == s && ss[|es|] == Shifted(s, ids, growth)
    decreases |ids|
  {
    if ids == {} {
      ss, es := [s], [];
      ShiftedNone(s, growth);
    } else {
      var id :| id in ids;
      var ss', es' := ShiftedIsPath(s, ids - {id}, growth);
      ShiftedNext(s, ids - {id}, growth, id);
      assert ids - {id} + {id} == ids;
      var last := ss'[|es'|];
      ss, es := ss' + [Shifted(s, ids, growth)], es' + [Grow(id, AfterAdd(s.windows[id], growth) - s.windows[id])];
      assert Step(last, es[|es'|], ss[|es|]);
    }
  }

  /** The part of the serve loop's state that sends depend on: the scheduler, the connection's
      window, the open streams, and the window that new streams start with. */
  class ServerWindows {
    const writeSched: WriteScheduler
    const flow: Flow
    var streams: map<nat, Stream>
    var initialWindowSize: int32

    ghost predicate Valid()
      reads this, writeSched, FlowsOf(writeSched.conn, writeSched.streams)
    {
      && writeSched.Valid() && flow == writeSched.conn && initialWindowSize >= 0
      && forall id :: id in streams ==> id in writeSched.streams && writeSched.streams[id] == streams[id]
    }

    constructor (writeSched: WriteScheduler, flow: Flow, size: int32)
      requires writeSched.Valid() && flow == writeSched.conn && size >= 0
      ensures Valid() && this.writeSched == writeSched && streams == map[] && initialWindowSize == size
    {
      this.writeSched, this.flow, streams, initialWindowSize := writeSched, flow, map[], size;
    }

    /** flow.add on the window of one stream. */
    method AddToStream(id: nat, n: int32) returns (ok: bool)
      requires Valid() && id in streams
      modifies streams[id].flow`n
      ensures Valid()
      ensures
        var s := old(writeSched.View());
        && id in s.windows && -0x8000_0000 <= s.windows[id] <= MAX_WINDOW
        && ok == CanAdd(s.windows[id], n)
        && writeSched.View() == s.(windows := s.windows[id := AfterAdd(s.windows[id], n)])
    {
      hide QueuesValid, Contents, Items;
      var st := streams[id];
      ghost var s := writeSched.View();
      StreamIs(flow, writeSched.streams, id);
      ok := st.flow.Add(n);
      SameMap(Windows(writeSched.streams), s.windows[id := st.flow.n]);
    }

    /** flow.add on the connection's window. */
    method AddToConn(n: int32) returns (ok: bool)
      requires Valid()
      modifies flow`n
      ensures Valid()
      ensures
        var s := old(writeSched.View());
        && -0x8000_0000 <= s.conn <= MAX_WINDOW && ok == CanAdd(s.conn, n)
        && writeSched.View() == s.(conn := AfterAdd(s.conn, n))
    {
      hide QueuesValid, Contents, Items;
      ghost var s := writeSched.View();
      ok := flow.Add(n);
      SameMap(Windows(writeSched.streams), s.windows);
    }

    /** What may change: nothing that Valid depends on other than windows. */
    lemma FlowsCovered()
      requires Valid()
      ensures flow in FlowsOf(writeSched.conn, writeSched.streams)
      ensures forall id :: id in streams ==> streams[id].flow in FlowsOf(writeSched.conn, writeSched.streams)
    {
    }

    /** processWindowUpdate: an increment for a stream, or for the connection. */
    method ProcessWindowUpdate(id: nat, increment: int32) returns (o: Outcome)
      requires Valid() && increment > 0
      modifies FlowsOf(writeSched.conn, writeSched.streams)
      ensures Valid()
      ensures
        var s, t := old(writeSched.View()), writeSched.View();
        if id == 0 then
          if 0 <= s.conn && s.conn + increment <= MAX_WINDOW then o == Fine && Step(s, GrowConn(increment), t)
          else o == ConnectionFlowError && t == s
        else if id !in streams then o == Ignored && t == s
        else
          && id in s.windows
          && if 0 <= s.windows[id] && s.windows[id] + increment <= MAX_WINDOW then
               o == Fine && Step(s, Grow(id, increment), t)
             else o == StreamFlowError && t == s
    {
      FlowsCovered();
      hide Valid, WriteScheduler.Valid, WriteScheduler.View, FlowsOf, CanAdd, AfterAdd, Step;
      ghost var s := writeSched.View();
      var ok;
      if id == 0 {
        ok := AddToConn(increment);
        ConnUpdated(s, increment);
        return if ok then Fine else ConnectionFlowError;
      }
      if id !in streams { return Ignored; }
      ok := AddToStream(id, increment);
      StreamUpdated(s, id, increment);
      return if ok then Fine else StreamFlowError;
    }

    /** processSettingInitialWindowSize, with the streams in whatever order the map gives them.
        The windows of all open streams change by the difference, below zero if it must be; the
        first that cannot ends it, with some of the others changed. */
    method ProcessSettingInitialWindowSize(val: int32) returns (ok: bool, ghost changed: set<nat>)
      requires Valid() && val >= 0
      modifies this`initialWindowSize, FlowsOf(writeSched.conn, writeSched.streams)
      ensures Valid() && initialWindowSize == val
      ensures
        var s, growth := old(writeSched.View()), val - old(initialWindowSize);
        && streams.Keys <= s.windows.Keys
        && ok == AllCanAdd(s, streams.Keys, growth)
        && writeSched.View() == Shifted(s, changed, growth) && changed <= streams.Keys
        && (ok ==> changed == streams.Keys)
    {
      FlowsCovered();
      var growth: int32 := val - initialWindowSize;
      initialWindowSize := val;
      ok, changed := GrowAll(growth);
    }

    /** One more stream's window changes. */
    method GrowOne(id: nat, growth: int32, ghost s: Sched, ghost all: set<nat>, ghost todo: set<nat>) returns (ok: bool)
      requires Valid() && writeSched.View() == Shifted(s, all - todo, growth)
      requires id in streams && id in todo && todo <= all && id in s.windows
      modifies streams[id].flow`n
      ensures Valid() && writeSched.View() == Shifted(s, all - (todo - {id}), growth)
      ensures AllCanAdd(s, all - (todo - {id}), growth) == (AllCanAdd(s, all - todo, growth) && ok)
      ensures !ok ==> !AllCanAdd(s, all, growth)
    {
      hide Valid, WriteScheduler.Valid, WriteScheduler.View, CanAdd, AfterAdd, Shifted, AllCanAdd;
      NextShifted(s, all, todo, growth, id);
      ok := AddToStream(id, growth);
    }

    method GrowAll(growth: int32) returns (ok: bool, ghost changed: set<nat>)
      requires Valid()
      modifies FlowsOf(writeSched.conn, writeSched.streams)
      ensures Valid()
      ensures
        var s := old(writeSched.View());
        && streams.Keys <= s.windows.Keys
        && ok == AllCanAdd(s, streams.Keys, growth)
        && writeSched.View() == Shifted(s, changed, growth) && changed <= streams.Keys
        && (ok ==> changed == streams.Keys)
    {
      FlowsCovered();
      WindowsOpen();
      hide Valid, WriteScheduler.Valid, WriteScheduler.View, FlowsOf, CanAdd, AfterAdd, Shifted, AllCanAdd;
      ghost var s, open, all := writeSched.View(), streams, streams.Keys;
      var todo := streams.Keys;
      ShiftedNone(s, growth);
      NoneDone(all);
      while todo != {}
        invariant Valid() && streams == open && todo <= all
        invariant writeSched.View() == Shifted(s, all - todo, growth)
        invariant AllCanAdd(s, all - todo, growth)
        decreases |todo|
      {
        var id :| id in todo;
        var added := GrowOne(id, growth, s, all, todo);
        todo := todo - {id};
        if !added { return false, all - todo; }
      }
      NoneDone(all);
      return true, all;
    }

    lemma WindowsOpen()
      requires Valid()
      ensures streams.Keys <= writeSched.View().windows.Keys
    {
    }
  }

  lemma NoneDone(all: set<nat>)
    ensures all - all == {} && all - {} == all
  {
  }

  lemma OneDone(all: set<nat>, todo: set<nat>, id: nat)
    requires id in todo && todo <= all
    ensures id !in all - todo && all - (todo - {id}) == all - todo + {id} && todo - {id} <= all
  {
  }

  lemma NextShifted(s: Sched, all: set<nat>, todo: set<nat>, growth: int32, id: nat)
    requires id in todo && todo <= all && id in s.windows
    ensures
      var t := Shifted(s, all - todo, growth);
      && id in t.windows && t.windows[id] == s.windows[id]
      && Shifted(s, all - (todo - {id}), growth) == t.(windows := t.windows[id := AfterAdd(t.windows[id], growth)])
      && todo - {id} <= all
    ensures AllCanAdd(s, all - (todo - {id}), growth)
         == (AllCanAdd(s, all - todo, growth) && CanAdd(s.windows[id], growth))
    ensures !CanAdd(s.windows[id], growth) ==> !AllCanAdd(s, all, growth)
  {
    hide CanAdd, AfterAdd, Shifted;
    OneDone(all, todo, id);
    ShiftedNext(s, all - todo, growth, id);
    AllNext(s, all - todo, growth, id);
    if !CanAdd(s.windows[id], growth) { NotAll(s, all, growth, id); }
  }

  /** What an increment does to a stream's window, as a step of the scheduler's model. */
  lemma StreamUpdated(s: Sched, id: nat, n: int32)
    requires n > 0 && id in s.windows && -0x8000_0000 <= s.windows[id] <= MAX_WINDOW
    ensures
      var t := s.(windows := s.windows[id := AfterAdd(s.windows[id], n)]);
      if 0 <= s.windows[id] && s.windows[id] + n <= MAX_WINDOW then CanAdd(s.windows[id], n) && Step(s, Grow(id, n), t)
      else !CanAdd(s.windows[id], n) && t == s
  {
    IncrementIs(s.windows[id], n);
    SameMap(s.windows[id := s.windows[id]], s.windows);
  }

  lemma ConnUpdated(s: Sched, n: int32)
    requires n > 0 && -0x8000_0000 <= s.conn <= MAX_WINDOW
    ensures
      var t := s.(conn := AfterAdd(s.conn, n));
      if 0 <= s.conn && s.conn + n <= MAX_WINDOW then CanAdd(s.conn, n) && Step(s, GrowConn(n), t)
      else !CanAdd(s.conn, n) && t == s
  {
    IncrementIs(s.conn, n);
  }
}
