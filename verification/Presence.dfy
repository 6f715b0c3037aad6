/** The presence index: devices are filed under keys of user and minute, and looked up under the
    keys of a window of minutes. Times are nanoseconds since the epoch. */
module Presence {
  import opened Wrappers

  const SECOND := 1_000_000_000
  const BUCKET_SIZE := 60 * SECOND
  const NUM_BUCKETS := 5

  // ----- numbers in keys -----

  function Digit(n: nat): char
    requires n < 10
  {
    '0' + n as char
  }

  function DecimalNat(n: nat): (s: string)
    ensures s != []
  {
    if n < 10 then [Digit(n)] else DecimalNat(n / 10) + [Digit(n % 10)]
  }

  /** strconv.FormatInt in base 10. */
  function Decimal(n: int): string {
    if n < 0 then ['-'] + DecimalNat(-n) else DecimalNat(n)
  }

  lemma {:induction false} DigitsOnly(n: nat)
    ensures forall c :: c in DecimalNat(n) ==> '0' <= c <= '9'
  {
    if n >= 10 { DigitsOnly(n / 10); }
  }

  /** The number that digits stand for. */
  function ValueOf(s: string): int {
    if s == [] then 0 else 10 * ValueOf(s[..|s| - 1]) + (s[|s| - 1] as int - '0' as int)
  }

  lemma {:induction false} DigitsRead(n: nat)
    ensures ValueOf(DecimalNat(n)) == n
  {
    if n < 10 {
      assert DecimalNat(n)[..0] == [];
    } else {
      DigitsRead(n / 10);
      var s := DecimalNat(n);
      assert s[..|s| - 1] == DecimalNat(n / 10);
    }
  }

  lemma SignShows(n: int)
    ensures Decimal(n) != [] && (Decimal(n)[0] == '-' <==> n < 0)
    ensures n < 0 ==> Decimal(n)[1..] == DecimalNat(-n)
    ensures n >= 0 ==> '0' <= Decimal(n)[0] <= '9'
  {
    var s := DecimalNat(if n < 0 then -n else n);
    DigitsOnly(if n < 0 then -n else n);
    assert s[0] in s;
  }

  lemma DecimalInjective(m: int, n: int)
    requires Decimal(m) == Decimal(n)
    ensures m == n
  {
    SignShows(m);
    SignShows(n);
    DigitsRead(if m < 0 then -m else m);
    DigitsRead(if n < 0 then -n else n);
  }

  lemma NoColon(n: int)
    ensures ':' !in Decimal(n)
  {
    DigitsOnly(if n < 0 then -n else n);
  }

  // ----- bucket keys -----

  /** Go's division, towards zero. */
  function Trunc(a: int, b: int): int
    requires b > 0
  {
    if a >= 0 then a / b else -((-a) / b)
  }

  /** Whole seconds since the epoch, rounded down. */
  function Unix(t: int): int {
    t / SECOND
  }

  datatype Bucket = Bucket(prefix: string, size: int, timestamp: int)

  function BucketWithOffset(now: int, prefix: string, size: int, offset: int): (b: Bucket)
    ensures b.size >= SECOND
  {
    var s := if size <= SECOND then SECOND else size;
    Bucket(prefix, s, now + offset * s)
  }

  function Index(b: Bucket): int
    requires b.size >= SECOND
  {
    Trunc(Unix(b.timestamp), b.size / SECOND)
  }

  function Key(b: Bucket): string
    requires b.size >= SECOND
  {
    b.prefix + [':'] + Decimal(Index(b))
  }

  /** The keys that the tests of the repository name, and one before the epoch. */
  lemma KeyExamples()
    ensures Key(BucketWithOffset(3600 * SECOND, "prefix", 3600 * SECOND, 0)) == "prefix:1"
    ensures Key(BucketWithOffset(3600 * SECOND, "p", 60 * SECOND, 0)) == "p:60"
    ensures Key(BucketWithOffset(3600 * SECOND, "p", SECOND, -1)) == "p:3599"
    ensures Key(BucketWithOffset(5 * SECOND, "p", -1, 0)) == "p:5"
    ensures Key(BucketWithOffset(-125 * SECOND, "p", BUCKET_SIZE, 0)) == "p:-2"
  {
    assert DecimalNat(60) == "60";
    assert DecimalNat(3599) == DecimalNat(359) + "9" && DecimalNat(359) == "359";
  }

  /** Keys are the same for the same user and index only, whatever colons the user id has. */
  lemma KeysInjective(a: Bucket, b: Bucket)
    requires a.size >= SECOND && b.size >= SECOND
    ensures Key(a) == Key(b) <==> a.prefix == b.prefix && Index(a) == Index(b)
  {
    if Key(a) == Key(b) {
      NoColon(Index(a));
      NoColon(Index(b));
      LastColon(a.prefix, Decimal(Index(a)), b.prefix, Decimal(Index(b)));
      DecimalInjective(Index(a), Index(b));
    }
  }

  /** Where the last colon of s is, if it has one. */
  function LastColonAt(s: string): nat {
    if s == [] then 0 else if s[|s| - 1] == ':' then |s| - 1 else LastColonAt(s[..|s| - 1])
  }

  lemma {:induction false} ColonFound(p: string, d: string)
    requires ':' !in d
    ensures LastColonAt(p + [':'] + d) == |p|
  {
    var s := p + [':'] + d;
    if d == [] {
      assert s == p + [':'];
    } else {
      assert s[|s| - 1] == d[|d| - 1];
      assert s[..|s| - 1] == p + [':'] + d[..|d| - 1];
      ColonFound(p, d[..|d| - 1]);
    }
  }

  lemma LastColon(p: string, d: string, q: string, e: string)
    requires p + [':'] + d == q + [':'] + e && ':' !in d && ':' !in e
    ensures p == q && d == e
  {
    ColonFound(p, d);
    ColonFound(q, e);
    var s, t := p + [':'] + d, q + [':'] + e;
    assert s[..|p|] == p && t[..|q|] == q;
    assert s[|p| + 1..] == d && t[|q| + 1..] == e;
  }

  // ----- the window -----

  /** The bucket that SetStatus files a device under, at time t. */
  function Filed(user: string, t: int): Bucket {
    BucketWithOffset(t, user, BUCKET_SIZE, 0)
  }

  function Minute(t: int): int {
    Trunc(Unix(t), 60)
  }

  /** The clock is read once for every bucket of the range. */
  method BucketRange(nows: seq<int>, prefix: string, size: int, offsetStart: int, offsetEnd: int)
    returns (buckets: seq<Bucket>)
    requires offsetStart <= offsetEnd && |nows| == offsetEnd - offsetStart + 1
    ensures |buckets| == |nows|
    ensures forall i :: 0 <= i < |nows| ==> buckets[i] == BucketWithOffset(nows[i], prefix, size, offsetStart + i)
  {
    buckets := [];
    var i := offsetStart;
    while i <= offsetEnd
      invariant offsetStart <= i <= offsetEnd + 1 && |buckets| == i - offsetStart
      invariant forall k :: 0 <= k < |buckets| ==>
                  buckets[k] == BucketWithOffset(nows[k], prefix, size, offsetStart + k)
      decreases offsetEnd - i
    {
      buckets := buckets + [BucketWithOffset(nows[i - offsetStart], prefix, size, i)];
      i := i + 1;
    }
  }

  /** The keys that GetDevices reads, with those clock readings. */
  ghost predicate Reads(nows: seq<int>, user: string, key: string)
    requires |nows| == NUM_BUCKETS + 1
  {
    exists i :: 0 <= i <= NUM_BUCKETS && ReadBy(nows[i], user, key, i)
  }

  predicate ReadBy(now: int, user: string, key: string, i: int) {
    key == Key(BucketWithOffset(now, user, BUCKET_SIZE, i - NUM_BUCKETS))
  }

  lemma FiledIndex(user: string, t: int)
    ensures Index(Filed(user, t)) == Minute(t)
  {
  }

  /** The index of the bucket k minutes back. */
  lemma IndexBack(now: int, user: string, k: int)
    requires -NUM_BUCKETS <= k <= 0
    ensures Index(BucketWithOffset(now, user, BUCKET_SIZE, k)) == Trunc(Unix(now) + 60 * k, 60)
  {
    assert Unix(now + k * BUCKET_SIZE) == Unix(now) + 60 * k;
  }

  /** Going back by whole minutes is going back by indices, except across the epoch, where
      division towards zero gives two minutes the index 0. */
  lemma TruncBack(s: int, k: int)
    requires -NUM_BUCKETS <= k <= 0
    ensures Trunc(s + 60 * k, 60) == Trunc(s, 60) + k <==> k == 0 || s <= 0 || s + 60 * k >= 0 || s % 60 == 0
    ensures Trunc(s, 60) + k <= Trunc(s + 60 * k, 60) <= Trunc(s, 60) + k + 1
  {
  }

  lemma ReadByIndex(t: int, user: string, user0: string, t0: int, i: int)
    requires 0 <= i <= NUM_BUCKETS
    ensures ReadBy(t, user, Key(Filed(user0, t0)), i) <==> user0 == user && Back(t, t0, i - NUM_BUCKETS)
  {
    FiledIndex(user0, t0);
    IndexBack(t, user, i - NUM_BUCKETS);
    KeysInjective(Filed(user0, t0), BucketWithOffset(t, user, BUCKET_SIZE, i - NUM_BUCKETS));
  }

  /** What is read with one clock reading t: for each of the last six minutes, the key of its
      index. */
  lemma ReadsAt(t: int, user: string, user0: string, t0: int)
    ensures Reads(Six(t), user, Key(Filed(user0, t0)))
       <==> user0 == user && exists k :: -NUM_BUCKETS <= k <= 0 && Back(t, t0, k)
  {
    var key := Key(Filed(user0, t0));
    forall i | 0 <= i <= NUM_BUCKETS
      ensures ReadBy(t, user, key, i) <==> user0 == user && Back(t, t0, i - NUM_BUCKETS)
    {
      ReadByIndex(t, user, user0, t0, i);
    }
    hide ReadBy, Back, Key;
    if Reads(Six(t), user, key) {
      var i :| 0 <= i <= NUM_BUCKETS && ReadBy(Six(t)[i], user, key, i);
      assert Back(t, t0, i - NUM_BUCKETS);
    }
    if user0 == user && exists k :: -NUM_BUCKETS <= k <= 0 && Back(t, t0, k) {
      var k :| -NUM_BUCKETS <= k <= 0 && Back(t, t0, k);
      assert ReadBy(Six(t)[k + NUM_BUCKETS], user, key, k + NUM_BUCKETS);
    }
  }

  predicate Back(t: int, t0: int, k: int) {
    Minute(t0) == Trunc(Unix(t) + 60 * k, 60)
  }

  function Six(t: int): (r: seq<int>)
    ensures |r| == NUM_BUCKETS + 1 && forall i :: 0 <= i < |r| ==> r[i] == t
  {
    [t, t, t, t, t, t]
  }

  /** t0's minute is one of the six that end at t's. */
  predicate InWindow(t: int, t0: int) {
    Minute(t) - NUM_BUCKETS <= Minute(t0) <= Minute(t)
  }

  ghost predicate Covers(t: int, user: string) {
    forall user0, t0 :: Reads(Six(t), user, Key(Filed(user0, t0))) <==> user0 == user && InWindow(t, t0)
  }

  /** With one clock reading, the key written at t0 is read at t exactly when the user is the
      same and t0 lies in the six-minute window; and that holds at every time but those in the
      first five minutes after the epoch that are not on a full minute. */
  lemma WindowIsExact(t: int, user: string)
    ensures Covers(t, user) <==> Unix(t) <= 0 || Unix(t) >= 300 || Unix(t) % 60 == 0
  {
    var s := Unix(t);
    if s <= 0 || s >= 300 || s % 60 == 0 {
      forall user0, t0 ensures Reads(Six(t), user, Key(Filed(user0, t0))) <==> user0 == user && InWindow(t, t0) {
        ReadsAt(t, user, user0, t0);
        forall k | -NUM_BUCKETS <= k <= 0 ensures Trunc(s + 60 * k, 60) == Trunc(s, 60) + k { TruncBack(s, k); }
        if InWindow(t, t0) { assert Back(t, t0, Minute(t0) - Minute(t)); }
      }
    } else {
      var t0 := (Minute(t) - NUM_BUCKETS) * BUCKET_SIZE;
      FirstMissed(t, t0);
      ReadsAt(t, user, user, t0);
    }
  }

  /** The oldest minute of the window is not read then. */
  lemma FirstMissed(t: int, t0: int)
    requires 0 < Unix(t) < 300 && Unix(t) % 60 != 0 && t0 == (Minute(t) - NUM_BUCKETS) * BUCKET_SIZE
    ensures InWindow(t, t0) && forall k :: -NUM_BUCKETS <= k <= 0 ==> !Back(t, t0, k)
  {
    assert Unix(t0) == 60 * (Minute(t) - NUM_BUCKETS);
    assert Minute(t0) == Minute(t) - NUM_BUCKETS;
    forall k | -NUM_BUCKETS <= k <= 0 ensures !Back(t, t0, k) {
      TruncBack(Unix(t), k);
    }
  }

  // ----- the clock ticks during the range -----

  predicate Later(nows: seq<int>) {
    forall i, j :: 0 <= i <= j < |nows| ==> nows[i] <= nows[j]
  }

  /** All six minutes that end at the last reading are read. */
  ghost predicate NoHole(nows: seq<int>, user: string)
    requires |nows| == NUM_BUCKETS + 1
  {
    forall t0 :: InWindow(nows[NUM_BUCKETS], t0) ==> Reads(nows, user, Key(Filed(user, t0)))
  }

  predicate OneMinute(nows: seq<int>) {
    forall i, j :: 0 <= i < |nows| && 0 <= j < |nows| ==> Minute(nows[i]) == Minute(nows[j])
  }

  /** The clock is read anew for each bucket, and nothing is missed exactly when all readings
      fall into one minute: when a minute ends between two readings, one bucket is skipped. */
  lemma ClockMustNotTurn(nows: seq<int>, user: string)
    requires |nows| == NUM_BUCKETS + 1 && Later(nows) && Unix(nows[0]) >= 300
    ensures NoHole(nows, user) <==> OneMinute(nows)
  {
    LaterMinutes(nows);
    hide Minute, Key, Filed;
    var last := nows[NUM_BUCKETS];
    if OneMinute(nows) {
      forall t0 | InWindow(last, t0) ensures Reads(nows, user, Key(Filed(user, t0))) {
        var i := Minute(t0) - Minute(last) + NUM_BUCKETS;
        ReadIndex(nows, user, t0, i);
      }
    }
    if NoHole(nows, user) {
      Tight(nows, user, 0);
      forall i | 0 <= i < |nows| ensures Minute(nows[0]) <= Minute(nows[i]) <= Minute(last) {}
    }
  }

  lemma LaterMinutes(nows: seq<int>)
    requires |nows| == NUM_BUCKETS + 1 && Later(nows) && Unix(nows[0]) >= 300
    ensures forall i, j :: 0 <= i <= j < |nows| ==> Minute(nows[i]) <= Minute(nows[j])
    ensures forall i :: 0 <= i < |nows| ==> Unix(nows[i]) >= 300
  {
  }

  lemma ReadIndex(nows: seq<int>, user: string, t0: int, i: int)
    requires |nows| == NUM_BUCKETS + 1 && 0 <= i <= NUM_BUCKETS && Unix(nows[i]) >= 300
    ensures ReadBy(nows[i], user, Key(Filed(user, t0)), i) <==> Minute(t0) == Minute(nows[i]) + i - NUM_BUCKETS
  {
    ReadByIndex(nows[i], user, user, t0, i);
    TruncBack(Unix(nows[i]), i - NUM_BUCKETS);
  }

  /** The indices read grow with i and end at the last minute; so, when none of the six is
      missing, reading i gives the last minute for every i, from the last one down. */
  lemma {:induction false} Tight(nows: seq<int>, user: string, i: nat)
    requires |nows| == NUM_BUCKETS + 1 && NoHole(nows, user) && i <= NUM_BUCKETS
    requires forall i, j :: 0 <= i <= j < |nows| ==> Minute(nows[i]) <= Minute(nows[j])
    requires forall i :: 0 <= i < |nows| ==> Unix(nows[i]) >= 300
    ensures Minute(nows[i]) == Minute(nows[NUM_BUCKETS])
    decreases NUM_BUCKETS - i
  {
    if i < NUM_BUCKETS {
      Tight(nows, user, i + 1);
      var t0 := (Minute(nows[NUM_BUCKETS]) - NUM_BUCKETS + i) * BUCKET_SIZE;
      AtMinute(Minute(nows[NUM_BUCKETS]) - NUM_BUCKETS + i);
      hide Minute, Key, Filed, ReadBy;
      assert InWindow(nows[NUM_BUCKETS], t0);
      assert Reads(nows, user, Key(Filed(user, t0)));
      var k :| 0 <= k <= NUM_BUCKETS && ReadBy(nows[k], user, Key(Filed(user, t0)), k);
      ReadIndex(nows, user, t0, k);
    }
  }

  lemma AtMinute(m: int)
    ensures Minute(m * BUCKET_SIZE) == m
  {
    assert Unix(m * BUCKET_SIZE) == 60 * m;
  }

  // ----- device keys -----

  /** The registered device types and their names. */
  const TYPE_NAMES: map<int, string> := map[0 := "WS"]

  datatype Device = Device(id: string, kind: int, userId: string, online: bool)

  /** An enum value prints as its name, or as its number when it has none. */
  function TypeString(kind: int): string {
    if kind in TYPE_NAMES then TYPE_NAMES[kind] else Decimal(kind)
  }

  function MakeKey(d: Device): string {
    TypeString(d.kind) + [':'] + d.id
  }

  /** strings.SplitN(s, ":", 2), when there is a colon. */
  function SplitFirst(s: string): Option<(string, string)> {
    if s == [] then None
    else if s[0] == ':' then Some(([], s[1..]))
    else
      match SplitFirst(s[1..])
      case None => None
      case Some((a, b)) => Some(([s[0]] + a, b))
  }

  function ParseType(name: string): Option<int> {
    if name == TYPE_NAMES[0] then Some(0) else None
  }

  function ParseDevice(userId: string, key: string): Option<Device> {
    match SplitFirst(key)
    case None => None
    case Some((name, id)) =>
      match ParseType(name)
      case None => None
      case Some(kind) => Some(Device(id, kind, userId, true))
  }

  lemma {:induction false} SplitsAtFirst(a: string, b: string)
    requires ':' !in a
    ensures SplitFirst(a + [':'] + b) == Some((a, b))
  {
    var s := a + [':'] + b;
    if a == [] {
      assert s[1..] == b;
    } else {
      assert s[1..] == a[1..] + [':'] + b;
      SplitsAtFirst(a[1..], b);
      assert [a[0]] + a[1..] == a;
    }
  }

  /** The names of the types are told apart from numbers, and have no colon. */
  lemma TypeStringParses(kind: int)
    ensures ':' !in TypeString(kind)
    ensures ParseType(TypeString(kind)) == if kind in TYPE_NAMES then Some(kind) else None
  {
    NoColon(kind);
    SignShows(kind);
    assert TYPE_NAMES[0][0] == 'W';
  }

  /** A device key gives back id and type exactly for the registered types, whatever colons
      the id has; the key of any other type does not parse at all. */
  lemma DeviceComesBack(d: Device, userId: string)
    ensures ParseDevice(userId, MakeKey(d))
         == if d.kind in TYPE_NAMES then Some(Device(d.id, d.kind, userId, true)) else None
  {
    TypeStringParses(d.kind);
    SplitsAtFirst(TypeString(d.kind), d.id);
  }

  lemma DeviceKeyExample()
    ensures MakeKey(Device("d:1", 0, "u", true)) == "WS:d:1"
  {
  }

  /** So keys of registered types tell devices apart. */
  lemma DeviceKeysInjective(a: Device, b: Device)
    requires a.kind in TYPE_NAMES && MakeKey(a) == MakeKey(b)
    ensures a.id == b.id && a.kind == b.kind
  {
    TypeStringParses(a.kind);
    TypeStringParses(b.kind);
    SplitsAtFirst(TypeString(a.kind), a.id);
    SplitsAtFirst(TypeString(b.kind), b.id);
  }
}
