/** Why the retry protocol keeps a partition's messages in order.

    Every message in flight has a level: the one it will carry when it next reaches the
    leader dispatcher. Levels that await a chaser cut the message stream into groups, one
    per broker producer that was abandoned; inside a group the FIFO order is submission
    order, and a message of a higher level is older than any message of a lower one. */
module ProducerInvariant {
  import opened Wrappers
  import opened Producer

  // ----- views of the state -----

  function UpAll(q: seq<Msg>): seq<Msg> {
    seq(|q|, i requires 0 <= i < |q| => Up(q[i]))
  }

  /** A flusher's messages, each at the level it returns with if it is retried. */
  function InFlight(f: Flusher): seq<Msg> {
    UpAll(f.claimed + f.queue)
  }

  function Pipes(s: System): (c: seq<seq<Msg>>)
    ensures |c| == |s.flushers|
  {
    seq(|s.flushers|, f requires 0 <= f < |s.flushers| => InFlight(s.flushers[f]))
  }

  /** Everything on its way back to (or for the first time to) the leader dispatcher. */
  function Inbound(s: System): seq<Msg> {
    s.input + s.retries
  }

  // ----- the order relation -----

  predicate Splits(w: seq<bool>, k: int, a: nat, b: nat) {
    0 <= k < |w| && (k == 0 || w[k]) && (a <= k < b || b <= k < a)
  }

  /** Levels a and b belong to different groups. */
  ghost predicate Apart(w: seq<bool>, a: nat, b: nat) {
    exists k :: Splits(w, k, a, b)
  }

  predicate Older(a: Msg, b: Msg) {
    a.Data? && b.Data? && a.retries > b.retries ==> a.id < b.id
  }

  predicate Levelled(a: Msg, b: Msg) {
    Older(a, b) && Older(b, a)
  }

  /** What holds when a is ahead of b in one FIFO line. */
  ghost predicate Ahead(w: seq<bool>, a: Msg, b: Msg) {
    && Levelled(a, b)
    && (a.Chaser? ==> Apart(w, a.retries, b.retries))
    && (a.Data? && b.Data? && !Apart(w, a.retries, b.retries) ==> a.id < b.id)
  }

  /** What holds when a and b are at two different flushers. */
  ghost predicate Elsewhere(w: seq<bool>, a: Msg, b: Msg) {
    Levelled(a, b) && Apart(w, a.retries, b.retries)
  }

  ghost predicate Chain(w: seq<bool>, q: seq<Msg>) {
    forall i, j :: 0 <= i < j < |q| ==> Ahead(w, q[i], q[j])
  }

  ghost predicate Cross(w: seq<bool>, q: seq<Msg>, r: seq<Msg>) {
    forall i, j :: 0 <= i < |q| && 0 <= j < |r| ==> Ahead(w, q[i], r[j])
  }

  ghost predicate Separate(w: seq<bool>, q: seq<Msg>, r: seq<Msg>) {
    forall i, j :: 0 <= i < |q| && 0 <= j < |r| ==> Elsewhere(w, q[i], r[j])
  }

  ghost predicate Lines(w: seq<bool>, a: seq<Msg>, c: seq<seq<Msg>>) {
    && Chain(w, a)
    && (forall f :: 0 <= f < |c| ==> Chain(w, c[f]))
    && (forall f :: 0 <= f < |c| ==> Cross(w, a, c[f]))
    && (forall f, g :: 0 <= f < |c| && 0 <= g < |c| && f != g ==> Separate(w, c[f], c[g]))
  }

  lemma HandBackLines(w: seq<bool>, a: seq<Msg>, c: seq<seq<Msg>>, f: nat)
    requires Lines(w, a, c) && f < |c| && c[f] != []
    ensures Lines(w, a + [c[f][0]], c[f := c[f][1..]])
  {
    var u := c[f][0];
    var a', c' := a + [u], c[f := c[f][1..]];
    forall g | 0 <= g < |c| && g != f
      ensures Cross(w, a', c'[g])
    {
      assert Separate(w, c[f], c[g]);
      assert Cross(w, a, c[g]);
      forall j | 0 <= j < |c[g]|
        ensures Ahead(w, u, c[g][j])
      {
        assert Elsewhere(w, c[f][0], c[g][j]);
      }
    }
    assert Chain(w, c[f]) && Cross(w, a, c[f]);
    assert Cross(w, a', c'[f]);
    assert Chain(w, a');
    RemoveHeadLines(w, a, c, f);
  }

  lemma RemoveHeadLines(w: seq<bool>, a: seq<Msg>, c: seq<seq<Msg>>, f: nat)
    requires Lines(w, a, c) && f < |c| && c[f] != []
    ensures Lines(w, a, c[f := c[f][1..]])
  {
    var c' := c[f := c[f][1..]];
    assert Chain(w, c'[f]) by { assert Chain(w, c[f]); }
    assert Cross(w, a, c'[f]) by { assert Cross(w, a, c[f]); }
    forall g, h | 0 <= g < |c| && 0 <= h < |c| && g != h
      ensures Separate(w, c'[g], c'[h])
    {
      assert Separate(w, c[g], c[h]);
    }
  }

  lemma ChainJoin(w: seq<bool>, p: seq<Msg>, q: seq<Msg>)
    requires Chain(w, p) && Chain(w, q) && Cross(w, p, q)
    ensures Chain(w, p + q)
  {
    hide Ahead;
    forall i, j | 0 <= i < j < |p + q|
      ensures Ahead(w, (p + q)[i], (p + q)[j])
    {
      if j < |p| {
        assert Ahead(w, p[i], p[j]);
      } else if i < |p| {
        assert Ahead(w, p[i], q[j - |p|]);
      } else {
        assert Ahead(w, q[i - |p|], q[j - |p|]);
      }
    }
  }

  lemma ChainSplit(w: seq<bool>, p: seq<Msg>, q: seq<Msg>)
    requires Chain(w, p + q)
    ensures Chain(w, p) && Chain(w, q) && Cross(w, p, q)
  {
    hide Ahead;
    var r := p + q;
    forall i, j | 0 <= i < j < |p|
      ensures Ahead(w, p[i], p[j])
    {
      assert r[i] == p[i] && r[j] == p[j];
    }
    forall i, j | 0 <= i < j < |q|
      ensures Ahead(w, q[i], q[j])
    {
      assert r[|p| + i] == q[i] && r[|p| + j] == q[j];
    }
    forall i, j | 0 <= i < |p| && 0 <= j < |q|
      ensures Ahead(w, p[i], q[j])
    {
      assert r[i] == p[i] && r[|p| + j] == q[j];
    }
  }

  // ----- the invariant -----

  /** m is somewhere between a broker producer and the leader dispatcher. */
  ghost predicate Moving(s: System, m: Msg) {
    m in Inbound(s) || exists f :: 0 <= f < |Pipes(s)| && m in Pipes(s)[f]
  }

  ghost predicate Shape(s: System) {
    && LeaderShape(s.leader, s.max)
    && (forall k :: 0 <= k <= s.max && s.leader.awaits[k] ==> 1 <= k <= s.leader.hwm)
    && (forall l :: 0 <= l <= s.max && s.leader.buf[l] != [] ==> l < s.leader.hwm)
    && (forall l, m :: 0 <= l <= s.max && m in s.leader.buf[l] ==> m.Data? && m.retries == l)
    && (s.leader.output.Some? ==> s.leader.output.value < |s.flushers|)
  }

  ghost predicate Ranged(s: System) {
    && (forall m :: m in Inbound(s) ==> m.retries <= s.max)
    && (forall m :: m in s.retries ==> 1 <= m.retries)
    && (forall f, m :: 0 <= f < |Pipes(s)| && m in Pipes(s)[f] ==> 1 <= m.retries <= s.max + 1)
  }

  /** A chaser in flight is one that the leader dispatcher still awaits. */
  ghost predicate Awaited(s: System) {
    forall m :: Moving(s, m) && m.Chaser? ==> m.retries < |s.leader.awaits| && s.leader.awaits[m.retries]
  }

  /** y was in front of b when both were last in the same place. */
  predicate Beats(y: Msg, b: Msg) {
    y.Data? && b.Data? ==> if b.retries <= y.retries then y.id < b.id else b.id < y.id
  }

  /** A message kept aside by the leader dispatcher, against everything in flight. */
  ghost predicate Foremost(s: System, y: Msg) {
    forall m :: Moving(s, m) ==> Beats(y, m)
  }

  ghost predicate Stacked(buf: seq<seq<Msg>>) {
    && (forall l, i, j :: 0 <= l < |buf| && 0 <= i < j < |buf[l]| ==> Beats(buf[l][i], buf[l][j]))
    && (forall l, k, m, n :: 0 <= l < k < |buf| && m in buf[k] && n in buf[l] ==> Beats(m, n))
  }

  ghost predicate Held(s: System) {
    && Stacked(s.leader.buf)
    && (forall l, m :: 0 <= l < |s.leader.buf| && m in s.leader.buf[l] ==> Foremost(s, m))
  }

  predicate HandsBack(f: Flusher) {
    f.failing || f.closing
  }

  /** The message being claimed or settled, its mode and its flags go together. */
  predicate FlusherShape(f: Flusher) {
    && (forall m :: m in f.claimed ==> m.Data?)
    && (HandsBack(f) ==> f.mode.Retrying? || (f.mode.Scanning? && f.claimed == []))
    && (f.mode.Retrying? ==> HandsBack(f))
  }

  ghost predicate ChaserSplits(c: seq<Msg>, h: nat) {
    forall i, j :: 0 <= i < j < |c| ==>
      && (c[i].Chaser? ==> h < c[j].retries)
      && (c[j].Chaser? ==> c[i].retries <= h)
  }

  /** Flusher number f, whose messages in flight are c, when the watermark is h. */
  ghost predicate PipeOk(f: nat, fl: Flusher, c: seq<Msg>, h: nat, output: Option<nat>) {
    && (!HandsBack(fl) ==> forall m :: m in c ==> h < m.retries)
    && (!fl.closing ==> ChaserSplits(c, h))
    && (forall m :: m in c && h < m.retries ==> output == Some(f))
  }

  ghost predicate FlushersOk(s: System) {
    forall f :: 0 <= f < |s.flushers| ==>
      FlusherShape(s.flushers[f]) && PipeOk(f, s.flushers[f], Pipes(s)[f], s.leader.hwm, s.leader.output)
  }

  /** Nothing more will be acknowledged by this flusher before it is sent a chaser. */
  ghost predicate Doomed(fl: Flusher, c: seq<Msg>) {
    fl.closing || (fl.failing && forall m :: m in c ==> m.Data?)
  }

  ghost predicate Triggered(s: System) {
    forall m :: m in Inbound(s) && s.leader.hwm < m.retries ==>
      && s.leader.output.Some? && s.leader.output.value < |s.flushers|
      && Doomed(s.flushers[s.leader.output.value], Pipes(s)[s.leader.output.value])
  }

  /** Nothing in flight shares the current group unless it was sent at the current level. */
  ghost predicate Settled(s: System) {
    forall m :: Moving(s, m) && m.retries <= s.leader.hwm ==> Apart(s.leader.awaits, m.retries, s.leader.hwm + 1)
  }

  predicate Within(m: Msg, lo: int, hi: int) {
    m.Data? ==> lo < m.id < hi
  }

  ghost predicate Live(s: System, lo: int, hi: int) {
    && (forall m :: Moving(s, m) ==> Within(m, lo, hi))
    && (forall l, m :: 0 <= l < |s.leader.buf| && m in s.leader.buf[l] ==> Within(m, lo, hi))
  }

  predicate InOrder(q: seq<Msg>) {
    && (forall m :: m in q ==> m.Data?)
    && (forall i, j :: 0 <= i < j < |q| ==> q[i].Data? && q[j].Data? && q[i].id < q[j].id)
  }

  function LastAcked(s: System): int {
    if s.successes != [] && s.successes[|s.successes| - 1].Data? then s.successes[|s.successes| - 1].id else -1
  }

  /** The invariant at any point, also in the middle of the leader's flush loop. */
  ghost predicate Inv(s: System) {
    && Shape(s) && Ranged(s) && Awaited(s)
    && Lines(s.leader.awaits, Inbound(s), Pipes(s))
    && Held(s)
    && FlushersOk(s) && Triggered(s) && Settled(s)
    && Live(s, LastAcked(s), s.next)
    && InOrder(s.successes) && LastAcked(s) < s.next
  }

  /** ... and between two steps: a positive high watermark awaits its chaser. */
  ghost predicate Stable(s: System) {
    Inv(s) && (s.leader.hwm == 0 || s.leader.awaits[s.leader.hwm])
  }
}
