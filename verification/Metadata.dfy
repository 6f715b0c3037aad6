/** The Kafka client's metadata refresh: it asks brokers one after the other, drops those that
    fail, revives them between attempts, and asks again for topics without a leader. It ends
    whatever the brokers answer, and never loses an address it was configured with. */
module Metadata {
  import opened Wrappers

  type Addr = string
  type Topic = string

  datatype Broker = Broker(id: int32, addr: Addr)

  datatype TopicError = NoError | InvalidTopic | UnknownTopic | LeaderNotAvailable | OtherError

  datatype Partition = Partition(id: int32, leaderless: bool)

  datatype TopicMetadata = TopicMetadata(name: Topic, err: TopicError, partitions: seq<Partition>)

  /** What GetMetadata gives: a response, a request that could not be encoded, any other error. */
  datatype Answer = Response(brokers: seq<Broker>, topics: seq<TopicMetadata>) | NotSent | Failed

  datatype Outcome = Updated(err: TopicError) | EncodingError | OutOfBrokers

  /** Answers in the order of the calls, and nothing known about them. */
  type Answers = nat -> Answer

  // ----- what a response means -----

  predicate Stored(t: TopicMetadata) {
    t.err == NoError || t.err == LeaderNotAvailable
  }

  predicate WantsRetry(t: TopicMetadata) {
    || t.err == UnknownTopic || t.err == LeaderNotAvailable
    || (t.err == NoError && exists p :: p in t.partitions && p.leaderless)
  }

  /** The topics to ask for again. */
  function Retries(topics: seq<TopicMetadata>): set<Topic> {
    set t | t in topics && WantsRetry(t) :: t.name
  }

  /** The last topic error; a missing leader is none. */
  function LastError(topics: seq<TopicMetadata>): TopicError {
    if topics == [] then NoError
    else
      var t := topics[|topics| - 1];
      if Stored(t) then LastError(topics[..|topics| - 1]) else t.err
  }

  function PartitionMap(ps: seq<Partition>): map<int32, Partition> {
    if ps == [] then map[] else PartitionMap(ps[..|ps| - 1])[ps[|ps| - 1].id := ps[|ps| - 1]]
  }

  /** Each topic answered replaces what was known of it; some leave nothing behind. */
  function Learned(known: map<Topic, map<int32, Partition>>, topics: seq<TopicMetadata>)
    : map<Topic, map<int32, Partition>>
  {
    if topics == [] then known
    else
      var t, before := topics[|topics| - 1], Learned(known, topics[..|topics| - 1]);
      if Stored(t) then before[t.name := PartitionMap(t.partitions)] else before - {t.name}
  }

  lemma LearnedNone(known: map<Topic, map<int32, Partition>>)
    ensures Learned(known, []) == known && Retries([]) == {} && LastError([]) == NoError
  {
  }

  /** What one more topic in the response changes. */
  lemma LearnedNext(known: map<Topic, map<int32, Partition>>, topics: seq<TopicMetadata>, t: TopicMetadata)
    ensures
      var before := Learned(known, topics);
      Learned(known, topics + [t])
      == if Stored(t) then before[t.name := PartitionMap(t.partitions)] else before - {t.name}
    ensures LastError(topics + [t]) == if Stored(t) then LastError(topics) else t.err
  {
    hide PartitionMap, Stored;
    assert (topics + [t])[..|topics|] == topics;
  }

  /** New brokers are added, and those with a new address replace the old. */
  function Registered(known: map<int32, Broker>, found: seq<Broker>): map<int32, Broker> {
    if found == [] then known
    else
      var b := found[|found| - 1];
      Registered(known, found[..|found| - 1])[b.id := b]
  }

  lemma {:induction false} RegisteredKeeps(known: map<int32, Broker>, found: seq<Broker>)
    requires forall id :: id in known ==> known[id].id == id
    ensures forall id :: id in Registered(known, found) ==> Registered(known, found)[id].id == id
    ensures known != map[] ==> Registered(known, found) != map[]
  {
    if found != [] { RegisteredKeeps(known, found[..|found| - 1]); }
  }

  // ----- what the records say after a response -----

  /** The last of the entries for a name, and the last of the partitions with an id. */
  predicate LastTopic(topics: seq<TopicMetadata>, k: int) {
    0 <= k < |topics| && forall j :: k < j < |topics| ==> topics[j].name != topics[k].name
  }

  predicate LastPartition(ps: seq<Partition>, k: int) {
    0 <= k < |ps| && forall j :: k < j < |ps| ==> ps[j].id != ps[k].id
  }

  predicate LastBroker(found: seq<Broker>, k: int) {
    0 <= k < |found| && forall j :: k < j < |found| ==> found[j].id != found[k].id
  }

  /** m maps exactly the ids of the partitions, each to the last partition that has it. */
  ghost predicate MapsPartitions(m: map<int32, Partition>, ps: seq<Partition>) {
    && (forall id :: id in m <==> exists p :: p in ps && p.id == id)
    && (forall k :: LastPartition(ps, k) ==> ps[k].id in m && m[ps[k].id] == ps[k])
  }

  /** A topic that was answered is stored with its partitions, or absent if its answer had an
      error other than a missing leader; all others are as before. */
  ghost predicate TopicsAre(before: map<Topic, map<int32, Partition>>, topics: seq<TopicMetadata>,
                            after: map<Topic, map<int32, Partition>>)
  {
    && (forall k :: LastTopic(topics, k) ==>
          if topics[k].err == NoError || topics[k].err == LeaderNotAvailable then
            topics[k].name in after && MapsPartitions(after[topics[k].name], topics[k].partitions)
          else topics[k].name !in after)
    && (forall name :: (forall t :: t in topics ==> t.name != name) ==>
          && (name in after <==> name in before)
          && (name in after ==> after[name] == before[name]))
  }

  ghost predicate BrokersAre(before: map<int32, Broker>, found: seq<Broker>, after: map<int32, Broker>) {
    && (forall k :: LastBroker(found, k) ==> found[k].id in after && after[found[k].id] == found[k])
    && (forall id :: (forall b :: b in found ==> b.id != id) ==>
          && (id in after <==> id in before)
          && (id in after ==> after[id] == before[id]))
  }

  /** The names to ask for again are those of unknown topics and of topics that miss a leader,
      as a whole or for a partition. */
  ghost predicate CallsFor(topics: seq<TopicMetadata>, retry: set<Topic>) {
    forall name :: name in retry <==>
      exists k :: 0 <= k < |topics| && topics[k].name == name
        && (topics[k].err == UnknownTopic || topics[k].err == LeaderNotAvailable
            || (topics[k].err == NoError && exists p :: p in topics[k].partitions && p.leaderless))
  }

  /** The error of a response is that of the last topic with one other than a missing leader. */
  ghost predicate LastErrorIs(topics: seq<TopicMetadata>, err: TopicError) {
    && ((forall t :: t in topics ==> t.err == NoError || t.err == LeaderNotAvailable) ==> err == NoError)
    && (forall k :: 0 <= k < |topics| && topics[k].err != NoError && topics[k].err != LeaderNotAvailable
          && (forall j :: k < j < |topics| ==> topics[j].err == NoError || topics[j].err == LeaderNotAvailable)
          ==> err == topics[k].err)
  }

  lemma {:induction false} PartitionAt(ps: seq<Partition>, k: nat)
    requires LastPartition(ps, k)
    ensures ps[k].id in PartitionMap(ps) && PartitionMap(ps)[ps[k].id] == ps[k]
  {
    var n := |ps| - 1;
    if k < n {
      assert ps[n].id != ps[k].id;
      PartitionAt(ps[..n], k);
    }
  }

  lemma {:induction false} PartitionIds(ps: seq<Partition>, id: int32)
    ensures id in PartitionMap(ps) <==> exists p :: p in ps && p.id == id
  {
    if ps != [] {
      var n := |ps| - 1;
      PartitionIds(ps[..n], id);
      assert ps == ps[..n] + [ps[n]];
      assert ps[n] in ps;
    }
  }

  lemma PartitionMapIs(ps: seq<Partition>)
    ensures MapsPartitions(PartitionMap(ps), ps)
  {
    hide PartitionMap;
    forall id
      ensures id in PartitionMap(ps) <==> exists p :: p in ps && p.id == id
    {
      PartitionIds(ps, id);
    }
    forall k | LastPartition(ps, k)
      ensures ps[k].id in PartitionMap(ps) && PartitionMap(ps)[ps[k].id] == ps[k]
    {
      PartitionAt(ps, k);
    }
  }

  lemma {:induction false} TopicAt(known: map<Topic, map<int32, Partition>>, topics: seq<TopicMetadata>, k: nat)
    requires LastTopic(topics, k)
    ensures var t, m := topics[k], Learned(known, topics);
            if t.err == NoError || t.err == LeaderNotAvailable then
              t.name in m && m[t.name] == PartitionMap(t.partitions)
            else t.name !in m
  {
    var n := |topics| - 1;
    if k < n {
      assert topics[n].name != topics[k].name;
      TopicAt(known, topics[..n], k);
    }
  }

  lemma {:induction false} OtherTopic(known: map<Topic, map<int32, Partition>>, topics: seq<TopicMetadata>, name: Topic)
    requires forall t :: t in topics ==> t.name != name
    ensures name in Learned(known, topics) <==> name in known
    ensures name in known ==> Learned(known, topics)[name] == known[name]
  {
    if topics != [] { OtherTopic(known, topics[..|topics| - 1], name); }
  }

  lemma LearnedIs(known: map<Topic, map<int32, Partition>>, topics: seq<TopicMetadata>)
    ensures TopicsAre(known, topics, Learned(known, topics))
  {
    hide Learned, MapsPartitions;
    forall k | LastTopic(topics, k)
      ensures var t, m := topics[k], Learned(known, topics);
              if t.err == NoError || t.err == LeaderNotAvailable then
                t.name in m && MapsPartitions(m[t.name], t.partitions)
              else t.name !in m
    {
      TopicAt(known, topics, k);
      PartitionMapIs(topics[k].partitions);
    }
    forall name: Topic | forall t :: t in topics ==> t.name != name
      ensures name in Learned(known, topics) <==> name in known
      ensures name in known ==> Learned(known, topics)[name] == known[name]
    {
      OtherTopic(known, topics, name);
    }
  }

  lemma {:induction false} BrokerAt(known: map<int32, Broker>, found: seq<Broker>, k: nat)
    requires LastBroker(found, k)
    ensures found[k].id in Registered(known, found) && Registered(known, found)[found[k].id] == found[k]
  {
    var n := |found| - 1;
    if k < n {
      assert found[n].id != found[k].id;
      BrokerAt(known, found[..n], k);
    }
  }

  lemma {:induction false} OtherBroker(known: map<int32, Broker>, found: seq<Broker>, id: int32)
    requires forall b :: b in found ==> b.id != id
    ensures id in Registered(known, found) <==> id in known
    ensures id in known ==> Registered(known, found)[id] == known[id]
  {
    if found != [] { OtherBroker(known, found[..|found| - 1], id); }
  }

  lemma RegisteredIs(known: map<int32, Broker>, found: seq<Broker>)
    ensures BrokersAre(known, found, Registered(known, found))
  {
    hide Registered;
    forall k | LastBroker(found, k)
      ensures found[k].id in Registered(known, found) && Registered(known, found)[found[k].id] == found[k]
    {
      BrokerAt(known, found, k);
    }
    forall id: int32 | forall b :: b in found ==> b.id != id
      ensures id in Registered(known, found) <==> id in known
      ensures id in known ==> Registered(known, found)[id] == known[id]
    {
      OtherBroker(known, found, id);
    }
  }

  lemma RetriesIs(topics: seq<TopicMetadata>)
    ensures CallsFor(topics, Retries(topics))
  {
    forall name
      ensures name in Retries(topics) <==>
        exists k :: 0 <= k < |topics| && topics[k].name == name
          && (topics[k].err == UnknownTopic || topics[k].err == LeaderNotAvailable
              || (topics[k].err == NoError && exists p :: p in topics[k].partitions && p.leaderless))
    {
      if name in Retries(topics) {
        var t :| t in topics && WantsRetry(t) && t.name == name;
        var k :| 0 <= k < |topics| && topics[k] == t;
      }
    }
  }

  lemma {:induction false} NoErrors(topics: seq<TopicMetadata>)
    requires forall t :: t in topics ==> t.err == NoError || t.err == LeaderNotAvailable
    ensures LastError(topics) == NoError
  {
    if topics != [] { NoErrors(topics[..|topics| - 1]); }
  }

  lemma {:induction false} LastErrorAt(topics: seq<TopicMetadata>, k: nat)
    requires k < |topics| && topics[k].err != NoError && topics[k].err != LeaderNotAvailable
    requires forall j :: k < j < |topics| ==> topics[j].err == NoError || topics[j].err == LeaderNotAvailable
    ensures LastError(topics) == topics[k].err
  {
    var n := |topics| - 1;
    if k < n { LastErrorAt(topics[..n], k); }
  }

  lemma LastErrorPinned(topics: seq<TopicMetadata>)
    ensures LastErrorIs(topics, LastError(topics))
  {
    hide LastError;
    if forall t :: t in topics ==> t.err == NoError || t.err == LeaderNotAvailable {
      NoErrors(topics);
    }
    forall k | 0 <= k < |topics| && topics[k].err != NoError && topics[k].err != LeaderNotAvailable
               && (forall j :: k < j < |topics| ==> topics[j].err == NoError || topics[j].err == LeaderNotAvailable)
      ensures LastError(topics) == topics[k].err
    {
      LastErrorAt(topics, k);
    }
  }

  // ----- the client -----

  function AsSet(names: seq<string>): set<string> {
    set a | a in names
  }

  function AddrsOf(brokers: map<int32, Broker>): set<Addr> {
    set id | id in brokers :: brokers[id].addr
  }

  lemma AddrsWithout(brokers: map<int32, Broker>, id: int32)
    requires id in brokers
    ensures AddrsOf(brokers - {id}) + {brokers[id].addr} == AddrsOf(brokers)
    ensures |brokers - {id}| == |brokers| - 1
  {
    var rest := brokers - {id};
    assert AddrsOf(rest) + {brokers[id].addr} <= AddrsOf(brokers);
    forall a | a in AddrsOf(brokers) ensures a in AddrsOf(rest) + {brokers[id].addr} {
      var k :| k in brokers && brokers[k].addr == a;
      if k != id { assert k in rest; }
    }
    assert rest.Keys == brokers.Keys - {id};
    assert |rest| == |rest.Keys| && |brokers| == |brokers.Keys|;
  }

  ghost predicate AllFail(answers: Answers) {
    forall k :: answers(k) == Failed
  }

  /** The members of a set in some order, each once. */
  predicate Lists(names: seq<string>, all: set<string>) {
    AsSet(names) == all && |names| == |all|
  }

  method Listed(all: set<string>) returns (names: seq<string>)
    ensures Lists(names, all)
  {
    names := [];
    var todo := all;
    while todo != {}
      invariant todo <= all && AsSet(names) == all - todo && |names| + |todo| == |all|
      decreases |todo|
    {
      var a :| a in todo;
      assert AsSet(names + [a]) == AsSet(names) + {a};
      names := names + [a];
      todo := todo - {a};
    }
  }

  // ----- what a refresh does -----

  /** A broker is asked for some topics (none stands for all), or, when none is left to ask,
      the addresses of the dead are seeds again, in some order. */
  datatype Event = Asked(broker: Broker, topics: seq<Topic>, answer: Answer) | Revived(addrs: seq<Addr>)

  datatype State = State(
    seeds: seq<Addr>, dead: set<Addr>, brokers: map<int32, Broker>,
    metadata: map<Topic, map<int32, Partition>>, calls: nat)

  /** Every address that the client knows of. */
  ghost function KnownOf(s: State): set<Addr> {
    AsSet(s.seeds) + s.dead + AddrsOf(s.brokers)
  }

  predicate HasBroker(s: State) {
    s.seeds != [] || s.brokers != map[]
  }

  ghost predicate Enabled(answers: Answers, s: State, e: Event) {
    match e
    case Asked(b, _, a) =>
      && a == answers(s.calls)
      && if s.seeds != [] then b == Broker(-1, s.seeds[0]) else b.id in s.brokers && s.brokers[b.id] == b
    case Revived(addrs) => !HasBroker(s) && Lists(addrs, s.dead)
  }

  ghost function Next(s: State, e: Event): State {
    match e
    case Revived(addrs) => s.(seeds := addrs, dead := {})
    case Asked(b, _, Failed) =>
      var t := s.(dead := s.dead + {b.addr}, calls := s.calls + 1);
      if s.seeds != [] then t.(seeds := s.seeds[1..]) else t.(brokers := s.brokers - {b.id})
    case Asked(_, _, NotSent) => s.(calls := s.calls + 1)
    case Asked(_, _, Response(found, topics)) =>
      s.(brokers := Registered(s.brokers, found), metadata := Learned(s.metadata, topics), calls := s.calls + 1)
  }

  /** The log leads from s to t. */
  ghost predicate Path(answers: Answers, s: State, log: seq<Event>, t: State)
    decreases |log|
  {
    if log == [] then s == t else Enabled(answers, s, log[0]) && Path(answers, Next(s, log[0]), log[1..], t)
  }

  lemma {:induction false} PathJoin(answers: Answers, s: State, p: seq<Event>, t: State, q: seq<Event>, u: State)
    requires Path(answers, s, p, t) && Path(answers, t, q, u)
    ensures Path(answers, s, p + q, u)
    decreases |p|
  {
    if p == [] {
      assert p + q == q;
    } else {
      assert (p + q)[1..] == p[1..] + q;
      PathJoin(answers, Next(s, p[0]), p[1..], t, q, u);
    }
  }

  lemma PathStep(answers: Answers, s: State, log: seq<Event>, t: State, e: Event)
    requires Path(answers, s, log, t) && Enabled(answers, t, e)
    ensures Path(answers, s, log + [e], Next(t, e))
  {
    assert [e][1..] == [] && Path(answers, Next(t, e), [], Next(t, e));
    PathJoin(answers, s, log, t, [e], Next(t, e));
  }

  predicate Responds(e: Event) {
    e.Asked? && e.answer.Response?
  }

  predicate Names(e: Event, name: Topic) {
    Responds(e) && exists t :: t in e.answer.topics && t.name == name
  }

  /** The event says something about the broker with this id: it is listed, or it has failed. */
  predicate Concerns(e: Event, id: int32) {
    || (Responds(e) && exists b :: b in e.answer.brokers && b.id == id)
    || (e.Asked? && e.answer.Failed? && e.broker.id == id)
  }

  lemma {:induction false} TopicStays(answers: Answers, s: State, log: seq<Event>, t: State, name: Topic)
    requires Path(answers, s, log, t) && forall e :: e in log ==> !Names(e, name)
    ensures name in t.metadata <==> name in s.metadata
    ensures name in t.metadata ==> t.metadata[name] == s.metadata[name]
    decreases |log|
  {
    if log != [] {
      var e := log[0];
      assert e in log;
      if Responds(e) { OtherTopic(s.metadata, e.answer.topics, name); }
      TopicStays(answers, Next(s, e), log[1..], t, name);
    }
  }

  lemma {:induction false} BrokerStays(answers: Answers, s: State, log: seq<Event>, t: State, id: int32)
    requires Path(answers, s, log, t) && forall e :: e in log ==> !Concerns(e, id)
    ensures id in t.brokers <==> id in s.brokers
    ensures id in t.brokers ==> t.brokers[id] == s.brokers[id]
    decreases |log|
  {
    if log != [] {
      var e := log[0];
      assert e in log;
      if Responds(e) { OtherBroker(s.brokers, e.answer.brokers, id); }
      BrokerStays(answers, Next(s, e), log[1..], t, id);
    }
  }

  /** What is left of a topic is what the last response that names it said last. */
  lemma {:induction false} TopicLeft(answers: Answers, s: State, log: seq<Event>, t: State, i: nat, k: nat)
    requires Path(answers, s, log, t) && i < |log| && Responds(log[i]) && LastTopic(log[i].answer.topics, k)
    requires forall e :: e in log[i + 1..] ==> !Names(e, log[i].answer.topics[k].name)
    ensures var told := log[i].answer.topics[k];
            if told.err == NoError || told.err == LeaderNotAvailable then
              told.name in t.metadata && MapsPartitions(t.metadata[told.name], told.partitions)
            else told.name !in t.metadata
    decreases |log|
  {
    var e := log[0];
    if i == 0 {
      TopicStays(answers, Next(s, e), log[1..], t, e.answer.topics[k].name);
      TopicAt(s.metadata, e.answer.topics, k);
      PartitionMapIs(e.answer.topics[k].partitions);
    } else {
      assert log[1..][i - 1] == log[i] && log[1..][i..] == log[i + 1..];
      TopicLeft(answers, Next(s, e), log[1..], t, i - 1, k);
    }
  }

  /** A broker that a response lists is registered, until another response or its failure. */
  lemma {:induction false} BrokerLeft(answers: Answers, s: State, log: seq<Event>, t: State, i: nat, k: nat)
    requires Path(answers, s, log, t) && i < |log| && Responds(log[i]) && LastBroker(log[i].answer.brokers, k)
    requires forall e :: e in log[i + 1..] ==> !Concerns(e, log[i].answer.brokers[k].id)
    ensures var found := log[i].answer.brokers[k]; found.id in t.brokers && t.brokers[found.id] == found
    decreases |log|
  {
    var e := log[0];
    if i == 0 {
      BrokerStays(answers, Next(s, e), log[1..], t, e.answer.brokers[k].id);
      BrokerAt(s.brokers, e.answer.brokers, k);
    } else {
      assert log[1..][i - 1] == log[i] && log[1..][i..] == log[i + 1..];
      BrokerLeft(answers, Next(s, e), log[1..], t, i - 1, k);
    }
  }

  predicate Goes(log: seq<Event>) {
    log != [] && log[0].Asked?
  }

  /** How a refresh for the topics with n retries left goes on, and what comes of it. */
  ghost predicate Ends(topics: seq<Topic>, n: nat, log: seq<Event>, r: Outcome)
    decreases |log|
  {
    if log == [] then n == 0 && r == OutOfBrokers
    else
      match log[0]
      case Revived(_) => n > 0 && Goes(log[1..]) && Ends(topics, n - 1, log[1..], r)
      case Asked(_, asked, a) =>
        && asked == topics
        && match a
           case Failed => Ends(topics, n, log[1..], r)
           case NotSent => |log| == 1 && r == EncodingError
           case Response(_, found) =>
             if Retries(found) == {} || n == 0 then |log| == 1 && r == Updated(LastError(found))
             else
               && Goes(log[1..])
               && exists again :: Lists(again, Retries(found)) && Ends(again, n - 1, log[1..], r)
  }

  ghost predicate AllAsked(topics: seq<Topic>, log: seq<Event>) {
    forall e :: e in log ==> e.Asked? && e.topics == topics && e.answer == Failed
  }

  lemma NoneAsked(topics: seq<Topic>)
    ensures AllAsked(topics, [])
  {
  }

  lemma OneMoreAsked(topics: seq<Topic>, log: seq<Event>, e: Event)
    requires AllAsked(topics, log) && e.Asked? && e.topics == topics && e.answer == Failed
    ensures AllAsked(topics, log + [e])
  {
  }

  lemma {:induction false} FailedFirst(topics: seq<Topic>, n: nat, failed: seq<Event>, log: seq<Event>, r: Outcome)
    requires AllAsked(topics, failed) && Ends(topics, n, log, r)
    ensures Ends(topics, n, failed + log, r)
    decreases |failed|
  {
    if failed == [] {
      assert failed + log == log;
    } else {
      assert (failed + log)[1..] == failed[1..] + log;
      assert failed[0] in failed;
      FailedFirst(topics, n, failed[1..], log, r);
    }
  }

  /** The attempts that a part of the log has used up. */
  function Used(log: seq<Event>): nat {
    if log == [] then 0 else (if log[0].Revived? || Responds(log[0]) then 1 else 0) + Used(log[1..])
  }

  /** After event i: the next broker follows a failure, and another call follows a response
      that calls for a retry and the revival of the dead. */
  predicate GoesOn(log: seq<Event>, i: int)
    requires 0 <= i < |log| - 1
  {
    match log[i]
    case Asked(_, _, Response(_, found)) => Retries(found) != {} && log[i + 1].Asked?
    case Asked(_, _, a) => a.Failed?
    case Revived(_) => log[i + 1].Asked?
  }

  /** A refresh goes on after every event but the last, and a response or a revival costs one
      attempt each time. It ends with a response that calls for no retry
      or has none left, with a request that cannot be encoded, or when every attempt is used
      up and the last broker has failed. */
  ghost predicate Accounted(n: nat, log: seq<Event>, r: Outcome) {
    && (forall i :: 0 <= i < |log| - 1 ==> GoesOn(log, i))
    && if log == [] then r == OutOfBrokers && n == 0
       else
         var last, used := log[|log| - 1], Used(log[..|log| - 1]);
         && last.Asked? && used <= n
         && match last.answer
            case Response(_, found) => r == Updated(LastError(found)) && (Retries(found) == {} || used == n)
            case NotSent => r == EncodingError
            case Failed => r == OutOfBrokers && used == n
  }

  /** The first calls ask for the given topics; every later one for exactly the topics that the
      latest response calls to ask for again. */
  ghost predicate AsksFor(topics: seq<Topic>, log: seq<Event>) {
    && (forall i :: 0 <= i < |log| && log[i].Asked? && NoResponse(log, 0, i) ==> log[i].topics == topics)
    && (forall j, i :: 0 <= j < i < |log| && Responds(log[j]) && log[i].Asked? && NoResponse(log, j + 1, i) ==>
          Lists(log[i].topics, Retries(log[j].answer.topics)))
  }

  predicate NoResponse(log: seq<Event>, j: nat, i: nat)
    requires i <= |log|
  {
    forall k :: j <= k < i ==> !Responds(log[k])
  }

  lemma {:induction false} EndsAccounted(topics: seq<Topic>, n: nat, log: seq<Event>, r: Outcome)
    requires Ends(topics, n, log, r)
    ensures Accounted(n, log, r)
    decreases |log|
  {
    if |log| > 1 {
      var rest := log[1..];
      var again, m := topics, n;
      if Responds(log[0]) {
        again :| Lists(again, Retries(log[0].answer.topics)) && Ends(again, n - 1, rest, r);
      }
      if Responds(log[0]) || log[0].Revived? { m := n - 1; }
      EndsAccounted(again, m, rest, r);
      assert GoesOn(log, 0);
      hide Ends, Retries, LastError, Lists;
      assert log[..|log| - 1][0] == log[0] && log[..|log| - 1][1..] == rest[..|rest| - 1];
      assert Used(log[..|log| - 1]) == Used(rest[..|rest| - 1]) + n - m;
      forall i | 0 <= i < |log| - 1
        ensures GoesOn(log, i)
      {
        if i > 0 { assert GoesOn(rest, i - 1); }
      }
    } else if |log| == 1 {
      assert log[1..] == [] && log[..0] == [];
      if log[0].Asked? && log[0].answer.Failed? { assert Ends(topics, n, [], r); }
    }
  }

  lemma {:induction false} EndsAsks(topics: seq<Topic>, n: nat, log: seq<Event>, r: Outcome)
    requires Ends(topics, n, log, r)
    ensures AsksFor(topics, log)
    decreases |log|
  {
    if log != [] {
      var rest := log[1..];
      var again := topics;
      if |log| > 1 {
        if Responds(log[0]) {
          again :| Lists(again, Retries(log[0].answer.topics)) && Ends(again, n - 1, rest, r);
        }
        EndsAsks(again, if Responds(log[0]) || log[0].Revived? then n - 1 else n, rest, r);
      }
      hide Ends, Retries, Lists;
      forall i | 0 <= i < |log| && log[i].Asked? && NoResponse(log, 0, i)
        ensures log[i].topics == topics
      {
        if i > 0 {
          assert !Responds(log[0]);
          LaterNoResponse(log, 1, i);
        }
      }
      forall j, i | 0 <= j < i < |log| && Responds(log[j]) && log[i].Asked? && NoResponse(log, j + 1, i)
        ensures Lists(log[i].topics, Retries(log[j].answer.topics))
      {
        LaterNoResponse(log, j + 1, i);
        assert j > 0 ==> rest[j - 1] == log[j];
      }
    }
  }

  lemma LaterNoResponse(log: seq<Event>, j: nat, i: nat)
    requires 1 <= j <= i < |log| && (NoResponse(log, j, i) || NoResponse(log, 0, i))
    ensures NoResponse(log[1..], j - 1, i - 1) && log[1..][i - 1] == log[i]
  {
    assert forall k :: j - 1 <= k < i - 1 ==> log[1..][k] == log[k + 1];
  }

  /** So many attempts at so many addresses. */
  function Attempts(n: nat, addrs: nat): nat {
    if n == 0 then 0 else addrs + Attempts(n - 1, addrs)
  }

  /** A refresh during which every broker fails: all that was known is dead in the end, and
      every known address was asked once in each attempt after the first. */
  ghost predicate AsksAll(s: State, n: nat, t: State, r: Outcome) {
    && r == OutOfBrokers && t.dead == KnownOf(s) && t.metadata == s.metadata
    && t.calls == s.calls + |s.seeds| + |s.brokers| + Attempts(n, |KnownOf(s)|)
  }

  lemma FailureKnown(answers: Answers, s: State, e: Event)
    requires Enabled(answers, s, e) && (e.Asked? ==> e.answer == Failed) && (e.Asked? ==> HasBroker(s))
    ensures var t := Next(s, e);
            && KnownOf(t) == KnownOf(s) && t.metadata == s.metadata
            && if e.Asked? then |t.seeds| + |t.brokers| == |s.seeds| + |s.brokers| - 1 && t.calls == s.calls + 1
               else |t.seeds| == |KnownOf(s)| && t.brokers == s.brokers == map[] && s.seeds == [] && t.calls == s.calls
  {
    if e.Revived? {
      assert AddrsOf(s.brokers) == {} && AsSet(s.seeds) == {};
    } else if s.seeds != [] {
      assert s.seeds == [s.seeds[0]] + s.seeds[1..];
      assert AsSet(s.seeds) == {s.seeds[0]} + AsSet(s.seeds[1..]);
    } else {
      AddrsWithout(s.brokers, e.broker.id);
    }
  }

  lemma {:induction false} AllFailed(answers: Answers, topics: seq<Topic>, n: nat, s: State, log: seq<Event>,
                                     t: State, r: Outcome)
    requires AllFail(answers) && Path(answers, s, log, t) && Ends(topics, n, log, r)
    requires r == OutOfBrokers ==> !HasBroker(t)
    ensures AsksAll(s, n, t, r)
    decreases |log|
  {
    if log == [] {
      assert AddrsOf(s.brokers) == {} && AsSet(s.seeds) == {};
    } else {
      var e, rest := log[0], log[1..];
      assert e.Asked? ==> e.answer == answers(s.calls) == Failed;
      FailureKnown(answers, s, e);
      AllFailed(answers, topics, if e.Revived? then n - 1 else n, Next(s, e), rest, t, r);
    }
  }

  class Client {
    var seedBrokerAddrs: seq<Addr>
    var seedBroker: Option<Broker>
    var deadBrokerAddrs: set<Addr>
    var brokers: map<int32, Broker>
    var metadata: map<Topic, map<int32, Partition>>
    /** How many times a broker was asked. */
    var calls: nat
    /** The addresses that the client was made with. */
    ghost const configured: set<Addr>

    ghost predicate Valid()
      reads this
    {
      && (seedBroker.Some? <==> seedBrokerAddrs != [])
      && (seedBroker.Some? ==> seedBroker.value == Broker(-1, seedBrokerAddrs[0]))
      && configured != {} && configured <= AsSet(seedBrokerAddrs) + deadBrokerAddrs
      && forall id :: id in brokers ==> brokers[id].id == id
    }

    ghost function View(): State
      reads this
    {
      State(seedBrokerAddrs, deadBrokerAddrs, brokers, metadata, calls)
    }

    ghost function Known(): set<Addr>
      reads this
    {
      KnownOf(View())
    }

    constructor (addrs: seq<Addr>)
      requires addrs != []
      ensures Valid() && configured == AsSet(addrs) && seedBrokerAddrs == addrs && brokers == map[]
    {
      seedBrokerAddrs, seedBroker, deadBrokerAddrs := addrs, Some(Broker(-1, addrs[0])), {};
      brokers, metadata, calls, configured := map[], map[], 0, AsSet(addrs);
      new;
      assert addrs[0] in AsSet(addrs);
    }

    /** any: the seed broker, or any registered one, or none. */
    method Any() returns (b: Option<Broker>, isSeed: bool)
      requires Valid()
      ensures isSeed ==> b == seedBroker && b.Some?
      ensures !isSeed && b.Some? ==> seedBroker.None? && b.value.id in brokers && brokers[b.value.id] == b.value
      ensures b.None? ==> seedBrokerAddrs == [] && brokers == map[]
    {
      if seedBroker.Some? { return seedBroker, true; }
      var ids := brokers.Keys;
      if ids != {} {
        var id :| id in ids;
        return Some(brokers[id]), false;
      }
      assert brokers == map[];
      return None, false;
    }

    /** The broker is dead, and the next seed or broker takes its place. */
    method DisconnectBroker(b: Broker, isSeed: bool)
      requires Valid()
      requires if isSeed then seedBroker == Some(b) else b.id in brokers && brokers[b.id] == b
      modifies this`seedBrokerAddrs, this`seedBroker, this`deadBrokerAddrs, this`brokers
      ensures Valid() && Known() == old(Known())
      ensures |seedBrokerAddrs| + |brokers| == old(|seedBrokerAddrs| + |brokers|) - 1
      ensures deadBrokerAddrs == old(deadBrokerAddrs) + {b.addr}
      ensures seedBrokerAddrs == if isSeed then old(seedBrokerAddrs)[1..] else old(seedBrokerAddrs)
      ensures brokers == if isSeed then old(brokers) else old(brokers) - {b.id}
    {
      deadBrokerAddrs := deadBrokerAddrs + {b.addr};
      if isSeed {
        ghost var before := seedBrokerAddrs;
        seedBrokerAddrs := seedBrokerAddrs[1..];
        assert before == [before[0]] + seedBrokerAddrs;
        assert AsSet(before) == {before[0]} + AsSet(seedBrokerAddrs);
        seedBroker := if |seedBrokerAddrs| > 0 then Some(Broker(-1, seedBrokerAddrs[0])) else None;
      } else {
        AddrsWithout(brokers, b.id);
        brokers := brokers - {b.id};
      }
    }

    /** Every address known to have been a seed or to be dead is a seed again, once. The first
        of them exists, because the configured ones are among them. */
    method ResurrectDeadBrokers()
      requires Valid()
      modifies this`seedBrokerAddrs, this`seedBroker, this`deadBrokerAddrs
      ensures Valid() && deadBrokerAddrs == {} && Known() == old(Known())
      ensures Lists(seedBrokerAddrs, old(AsSet(seedBrokerAddrs) + deadBrokerAddrs))
    {
      hide AddrsOf;
      var all := deadBrokerAddrs;
      for i := 0 to |seedBrokerAddrs|
        invariant all == deadBrokerAddrs + AsSet(seedBrokerAddrs[..i])
      {
        assert seedBrokerAddrs[..i + 1] == seedBrokerAddrs[..i] + [seedBrokerAddrs[i]];
        all := all + {seedBrokerAddrs[i]};
      }
      assert seedBrokerAddrs[..|seedBrokerAddrs|] == seedBrokerAddrs;
      var addrs := Listed(all);
      ghost var c :| c in configured;
      assert c in AsSet(addrs);
      seedBrokerAddrs, deadBrokerAddrs := addrs, {};
      seedBroker := Some(Broker(-1, seedBrokerAddrs[0]));
    }

    method RegisterBrokers(found: seq<Broker>)
      requires Valid()
      modifies this`brokers
      ensures Valid() && brokers == Registered(old(brokers), found)
      ensures old(brokers) != map[] ==> brokers != map[]
    {
      ghost var known := brokers;
      assert found[..0] == [];
      for i := 0 to |found|
        invariant brokers == Registered(known, found[..i])
      {
        var b := found[i];
        assert found[..i + 1][..i] == found[..i];
        RegisteredKeeps(known, found[..i]);
        if b.id !in brokers || b.addr != brokers[b.id].addr {
          brokers := brokers[b.id := b];
        } else {
          assert brokers[b.id] == b;
          assert brokers == brokers[b.id := b];
        }
      }
      assert found[..|found|] == found;
      RegisteredKeeps(known, found);
    }

    method LearnTopics(topics: seq<TopicMetadata>) returns (retry: set<Topic>, err: TopicError)
      modifies this`metadata
      ensures metadata == Learned(old(metadata), topics)
      ensures retry == Retries(topics) && err == LastError(topics)
    {
      hide Learned, Retries, LastError, PartitionMap, Stored, WantsRetry;
      ghost var known := metadata;
      assert topics[..0] == [];
      LearnedNone(known);
      retry, err := {}, NoError;
      for i := 0 to |topics|
        invariant metadata == Learned(known, topics[..i])
        invariant retry == Retries(topics[..i]) && err == LastError(topics[..i])
      {
        var t := topics[i];
        assert topics[..i + 1] == topics[..i] + [t];
        LearnedNext(known, topics[..i], t);
        RetriesNext(topics[..i], t);
        if Stored(t) {
          metadata := metadata[t.name := PartitionMap(t.partitions)];
        } else {
          metadata := metadata - {t.name};
          err := t.err;
        }
        if WantsRetry(t) { retry := retry + {t.name}; }
      }
      assert topics[..|topics|] == topics;
    }

    /** updateMetadata: what the client knows afterwards, and what it is to ask for again. */
    method UpdateMetadata(found: seq<Broker>, topics: seq<TopicMetadata>) returns (retry: seq<Topic>, err: TopicError)
      requires Valid()
      modifies this`brokers, this`metadata
      ensures Valid() && brokers == Registered(old(brokers), found) && metadata == Learned(old(metadata), topics)
      ensures Lists(retry, Retries(topics)) && err == LastError(topics)
      ensures BrokersAre(old(brokers), found, brokers) && TopicsAre(old(metadata), topics, metadata)
      ensures CallsFor(topics, AsSet(retry)) && LastErrorIs(topics, err)
      ensures old(HasBroker(View())) ==> HasBroker(View())
    {
      hide BrokersAre, TopicsAre, CallsFor, LastErrorIs, Registered, Learned, Retries, LastError, AsSet;
      RegisteredIs(brokers, found);
      LearnedIs(metadata, topics);
      RetriesIs(topics);
      LastErrorPinned(topics);
      RegisterBrokers(found);
      var again;
      again, err := LearnTopics(topics);
      retry := Listed(again);
      assert AsSet(retry) == again;
    }

    /** One attempt: brokers are asked until one answers or none is left. `failed` are the calls
        that failed, and `last` is the one that was answered. */
    method AskBrokers(topics: seq<Topic>, answers: Answers)
      returns (a: Option<Answer>, ghost failed: seq<Event>, ghost last: Event)
      requires Valid()
      modifies this`seedBrokerAddrs, this`seedBroker, this`deadBrokerAddrs, this`brokers, this`calls
      ensures Valid() && AllAsked(topics, failed)
      ensures a.Some? ==>
                && HasBroker(View()) && last.Asked? && last.topics == topics && last.answer == a.value != Failed
                && calls > 0 && Path(answers, old(View()), failed, View().(calls := calls - 1))
                && Enabled(answers, View().(calls := calls - 1), last)
      ensures a.None? ==> !HasBroker(View()) && Path(answers, old(View()), failed, View())
      ensures a.None? && old(HasBroker(View())) ==> failed != []
    {
      PathNone(answers, View());
      NoneAsked(topics);
      hide AsSet, AddrsOf, Path, Lists, Enabled, Next, AllAsked;
      failed, last := [], Revived([]);
      var broker, isSeed := Any();
      while broker.Some?
        invariant Valid() && AllAsked(topics, failed)
        invariant Path(answers, old(View()), failed, View())
        invariant isSeed ==> broker == seedBroker && broker.Some?
        invariant !isSeed && broker.Some? ==>
                    seedBroker.None? && broker.value.id in brokers && brokers[broker.value.id] == broker.value
        invariant broker.None? ==> !HasBroker(View()) && (old(HasBroker(View())) ==> failed != [])
        decreases |seedBrokerAddrs| + |brokers|
      {
        ghost var s := View();
        var answer := answers(calls);
        last := Asked(broker.value, topics, answer);
        NextAsked(answers, s, last);
        calls := calls + 1;
        if answer != Failed {
          assert View().(calls := calls - 1) == s;
          return Some(answer), failed, last;
        }
        DisconnectBroker(broker.value, isSeed);
        assert View() == Next(s, last);
        PathStep(answers, old(View()), failed, s, last);
        OneMoreAsked(topics, failed, last);
        failed := failed + [last];
        broker, isSeed := Any();
      }
      a := None;
    }

    /** When no seed and no broker is left, all known addresses are seeds again. */
    method Revive()
      requires Valid() && seedBrokerAddrs == [] && brokers == map[]
      modifies this`seedBrokerAddrs, this`seedBroker, this`deadBrokerAddrs
      ensures Valid() && Known() == old(Known()) && |seedBrokerAddrs| == |Known()|
      ensures Lists(seedBrokerAddrs, old(deadBrokerAddrs)) && HasBroker(View())
      ensures View() == old(View()).(seeds := seedBrokerAddrs, dead := {})
    {
      assert AddrsOf(brokers) == {};
      ResurrectDeadBrokers();
      assert AsSet(seedBrokerAddrs) == Known();
    }

    /** tryRefreshMetadata. That it verifies says that it ends, whatever the answers: the
        retries go down, and within an attempt the seeds and brokers do. The log says what was
        asked for, what the client learned from it and what was made of it. When all brokers
        fail, every known address is asked once in every attempt after the first. */
    method TryRefreshMetadata(topics: seq<Topic>, answers: Answers, retriesRemaining: nat)
      returns (r: Outcome, ghost log: seq<Event>)
      requires Valid()
      modifies this`seedBrokerAddrs, this`seedBroker, this`deadBrokerAddrs, this`brokers, this`calls, this`metadata
      ensures Valid()
      ensures Path(answers, old(View()), log, View()) && Ends(topics, retriesRemaining, log, r)
      ensures Accounted(retriesRemaining, log, r) && AsksFor(topics, log)
      ensures old(HasBroker(View())) ==> Goes(log)
      ensures r == OutOfBrokers ==> !HasBroker(View())
      ensures AllFail(answers) ==> AsksAll(old(View()), retriesRemaining, View(), r)
      decreases retriesRemaining
    {
      hide KnownOf, AllFail, AsksAll, AsSet, Valid, Retries, LastError, Learned, Registered, Path, Ends, Accounted,
        AsksFor, AllAsked, BrokersAre, TopicsAre, CallsFor, LastErrorIs, Enabled, Next;
      ghost var start, n := View(), retriesRemaining;
      var a, failed, last := AskBrokers(topics, answers);
      ghost var rest: seq<Event>;
      if a.Some? {
        ghost var s := View().(calls := calls - 1);
        NextAnswered(s, last);
        if a.value.NotSent? {
          r := EncodingError;
          log := LogEnds(answers, topics, n, start, failed, s, last, r);
          return;
        }
        var retry, err := UpdateMetadata(a.value.brokers, a.value.topics);
        assert Next(s, last) == View();
        if |retry| == 0 || retriesRemaining == 0 {
          r := Updated(err);
          log := LogEnds(answers, topics, n, start, failed, s, last, r);
        } else {
          r, rest := TryRefreshMetadata(retry, answers, retriesRemaining - 1);
          log := LogGoesOn(answers, topics, n, start, failed, s, last, retry, rest, View(), r);
        }
        return;
      }
      if retriesRemaining == 0 {
        r, log := OutOfBrokers, failed;
        LogRunsOut(answers, topics, start, log, View());
        return;
      }
      ghost var s := View();
      Revive();
      last := Revived(seedBrokerAddrs);
      NextRevived(answers, s, seedBrokerAddrs);
      r, rest := TryRefreshMetadata(topics, answers, retriesRemaining - 1);
      log := LogGoesOn(answers, topics, n, start, failed, s, last, topics, rest, View(), r);
    }
  }

  lemma NextAsked(answers: Answers, s: State, e: Event)
    requires e.Asked? && e.answer == answers(s.calls)
    requires if s.seeds != [] then e.broker == Broker(-1, s.seeds[0])
             else e.broker.id in s.brokers && s.brokers[e.broker.id] == e.broker
    ensures Enabled(answers, s, e)
    ensures e.answer == Failed ==>
              Next(s, e) == s.(seeds := if s.seeds != [] then s.seeds[1..] else s.seeds,
                               brokers := if s.seeds != [] then s.brokers else s.brokers - {e.broker.id},
                               dead := s.dead + {e.broker.addr}, calls := s.calls + 1)
  {
  }

  lemma NextAnswered(s: State, e: Event)
    requires e.Asked? && e.answer != Failed
    ensures var t := s.(calls := s.calls + 1);
            Next(s, e) == match e.answer
                          case Response(found, topics) =>
                            t.(brokers := Registered(s.brokers, found), metadata := Learned(s.metadata, topics))
                          case _ => t
  {
  }

  lemma NextRevived(answers: Answers, s: State, addrs: seq<Addr>)
    requires !HasBroker(s) && Lists(addrs, s.dead)
    ensures Enabled(answers, s, Revived(addrs)) && Next(s, Revived(addrs)) == s.(seeds := addrs, dead := {})
  {
  }

  lemma PathNone(answers: Answers, s: State)
    ensures Path(answers, s, [], s)
  {
  }

  lemma LogRunsOut(answers: Answers, topics: seq<Topic>, start: State, failed: seq<Event>, end: State)
    requires AllAsked(topics, failed) && Path(answers, start, failed, end) && !HasBroker(end)
    ensures AllFail(answers) ==> AsksAll(start, 0, end, OutOfBrokers)
    ensures Ends(topics, 0, failed, OutOfBrokers)
    ensures Accounted(0, failed, OutOfBrokers) && AsksFor(topics, failed)
    ensures failed != [] ==> Goes(failed)
  {
    if failed != [] { assert failed[0] in failed; }
    FailedFirst(topics, 0, failed, [], OutOfBrokers);
    assert failed + [] == failed;
    EndsAccounted(topics, 0, failed, OutOfBrokers);
    EndsAsks(topics, 0, failed, OutOfBrokers);
    if AllFail(answers) { AllFailed(answers, topics, 0, start, failed, end, OutOfBrokers); }
  }

  lemma LogsJoin(answers: Answers, topics: seq<Topic>, n: nat, start: State, failed: seq<Event>,
                 s: State, e: Event, rest: seq<Event>, end: State, r: Outcome) returns (log: seq<Event>)
    requires Path(answers, start, failed, s) && Enabled(answers, s, e) && Path(answers, Next(s, e), rest, end)
    requires AllAsked(topics, failed) && Ends(topics, n, [e] + rest, r)
    requires r == OutOfBrokers ==> !HasBroker(end)
    ensures AllFail(answers) ==> AsksAll(start, n, end, r)
    ensures Path(answers, start, log, end) && Ends(topics, n, log, r)
    ensures Accounted(n, log, r) && AsksFor(topics, log)
    ensures e.Asked? || failed != [] ==> Goes(log)
  {
    log := failed + ([e] + rest);
    assert ([e] + rest)[1..] == rest;
    assert Path(answers, s, [e] + rest, end);
    PathJoin(answers, start, failed, s, [e] + rest, end);
    FailedFirst(topics, n, failed, [e] + rest, r);
    EndsAccounted(topics, n, log, r);
    EndsAsks(topics, n, log, r);
    if AllFail(answers) { AllFailed(answers, topics, n, start, log, end, r); }
    if failed != [] { assert failed[0] in failed; }
  }

  /** The last call of a refresh that got an answer. */
  lemma LogEnds(answers: Answers, topics: seq<Topic>, n: nat, start: State, failed: seq<Event>,
                s: State, e: Event, r: Outcome) returns (log: seq<Event>)
    requires Path(answers, start, failed, s) && Enabled(answers, s, e) && AllAsked(topics, failed)
    requires e.Asked? && e.topics == topics && e.answer != Failed
    requires if e.answer.NotSent? then r == EncodingError
             else r == Updated(LastError(e.answer.topics)) && (|Retries(e.answer.topics)| == 0 || n == 0)
    ensures AllFail(answers) ==> AsksAll(start, n, Next(s, e), r)
    ensures Path(answers, start, log, Next(s, e)) && Ends(topics, n, log, r)
    ensures Accounted(n, log, r) && AsksFor(topics, log) && Goes(log)
  {
    assert Ends(topics, n, [e] + [], r) by { assert [e] + [] == [e]; }
    log := LogsJoin(answers, topics, n, start, failed, s, e, [], Next(s, e), r);
  }

  /** A response that calls for a retry, or a revival, and what the next attempt did. */
  lemma LogGoesOn(answers: Answers, topics: seq<Topic>, n: nat, start: State, failed: seq<Event>, s: State, e: Event,
                  again: seq<Topic>, rest: seq<Event>, end: State, r: Outcome) returns (log: seq<Event>)
    requires Path(answers, start, failed, s) && Enabled(answers, s, e) && AllAsked(topics, failed)
    requires Path(answers, Next(s, e), rest, end) && (r == OutOfBrokers ==> !HasBroker(end))
    requires n > 0 && Goes(rest) && Ends(again, n - 1, rest, r)
    requires if e.Revived? then again == topics
             else Responds(e) && e.topics == topics && |again| != 0 && Lists(again, Retries(e.answer.topics))
    ensures AllFail(answers) ==> AsksAll(start, n, end, r)
    ensures Path(answers, start, log, end) && Ends(topics, n, log, r)
    ensures Accounted(n, log, r) && AsksFor(topics, log)
    ensures e.Asked? || failed != [] ==> Goes(log)
  {
    assert Ends(topics, n, [e] + rest, r) by { assert ([e] + rest)[1..] == rest; }
    log := LogsJoin(answers, topics, n, start, failed, s, e, rest, end, r);
  }

  lemma RetriesNext(topics: seq<TopicMetadata>, t: TopicMetadata)
    ensures Retries(topics + [t]) == Retries(topics) + if WantsRetry(t) then {t.name} else {}
  {
    var all := topics + [t];
    forall x | x in Retries(topics) ensures x in Retries(all) {
      var u :| u in topics && WantsRetry(u) && u.name == x;
      assert u in all;
    }
    if WantsRetry(t) { assert t in all; }
  }
}
