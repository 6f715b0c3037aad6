/** Bytes, and the little-endian base-128 numbers that Snappy, HPACK and protocol buffers
    all build on. Bitwise operations on disjoint bits are written as sums. */
module Base128 {
  import opened Wrappers

  type byte = b: int | 0 <= b < 256

  lemma Joined(a: seq<byte>, b: seq<byte>, c: seq<byte>)
    ensures a + b + c == a + (b + c)
  {
  }

  function Concat(pieces: seq<seq<byte>>): seq<byte> {
    if pieces == [] then [] else pieces[0] + Concat(pieces[1..])
  }

  function Pow2(n: nat): (p: nat)
    ensures p > 0
  {
    if n == 0 then 1 else 2 * Pow2(n - 1)
  }

  lemma {:induction false} Pow2Adds(m: nat, n: nat)
    ensures Pow2(m + n) == Pow2(m) * Pow2(n)
  {
    if m > 0 {
      Pow2Adds(m - 1, n);
      assert Pow2(m + n) == 2 * Pow2(m - 1 + n);
      assert 2 * (Pow2(m - 1) * Pow2(n)) == (2 * Pow2(m - 1)) * Pow2(n);
    }
  }

  lemma {:induction false} Pow2Monotone(m: nat, n: nat)
    requires m <= n
    ensures Pow2(m) <= Pow2(n)
  {
    if m < n { Pow2Monotone(m, n - 1); }
  }

  /** The powers of two that the formats mention. */
  lemma Powers()
    ensures Pow2(0) == 1 && Pow2(7) == 0x80 && Pow2(8) == 0x100 && Pow2(14) == 0x4000 && Pow2(16) == 0x1_0000
    ensures Pow2(28) == 0x1000_0000 && Pow2(32) == 0x1_0000_0000 && Pow2(35) == 0x8_0000_0000
    ensures Pow2(63) == 0x8000_0000_0000_0000 && Pow2(64) == 0x1_0000_0000_0000_0000
  {
    assert Pow2(7) == 0x80 && Pow2(8) == 0x100;
    Pow2Adds(7, 7);
    Pow2Adds(8, 8);
    Pow2Adds(14, 14);
    Pow2Adds(16, 16);
    Pow2Adds(7, 28);
    Pow2Adds(28, 35);
    assert Pow2(64) == 2 * Pow2(63);
  }

  lemma Pow2Seven(i: nat)
    requires i > 0
    ensures Pow2(7 * i) == 128 * Pow2(7 * (i - 1))
  {
    assert Pow2(7) == 128;
    Pow2Adds(7, 7 * (i - 1));
  }

  lemma Distribute(g: nat, p: nat, v: nat)
    ensures 128 * (g + p * v) == 128 * g + (128 * p) * v
  {
  }

  lemma OneGroup(b: byte, g: nat, p: nat, v: nat)
    requires b >= 128
    ensures (b as int - 128) + 128 * (g + p * v) == (b % 128 + 128 * g) + (128 * p) * v
  {
    Distribute(g, p, v);
  }

  function Encode(x: nat): (b: seq<byte>)
    ensures b != []
  {
    if x < 128 then [x] else [x % 128 + 128] + Encode(x / 128)
  }

  /** The number at the front of b and how many bytes it takes, if b holds all of it. */
  function Scan(b: seq<byte>): (r: Option<(nat, nat)>)
    ensures r.Some? ==> 1 <= r.value.1 <= |b|
  {
    if b == [] then None
    else if b[0] < 128 then Some((b[0], 1))
    else
      var r := Scan(b[1..]);
      if r.None? then None else Some((b[0] - 128 + 128 * r.value.0, r.value.1 + 1))
  }

  lemma {:induction false} ScanEncode(x: nat, rest: seq<byte>)
    ensures Scan(Encode(x) + rest) == Some((x, |Encode(x)|))
  {
    if x >= 128 {
      ScanEncode(x / 128, rest);
      assert (Encode(x) + rest)[1..] == Encode(x / 128) + rest;
    }
  }

  /** k groups of seven bits hold every number below 2^(7k). */
  lemma {:induction false} EncodeLength(x: nat, k: nat)
    requires k > 0 && x < Pow2(7 * k)
    ensures |Encode(x)| <= k
  {
    if x >= 128 {
      Pow2Seven(k);
      EncodeLength(x / 128, k - 1);
    }
  }

  /** Scan only looks at the bytes of its number. */
  lemma {:induction false} ScanPrefix(b: seq<byte>, c: seq<byte>)
    requires Scan(b).Some?
    ensures Scan(b + c) == Scan(b)
  {
    assert (b + c)[0] == b[0];
    if b[0] >= 128 {
      assert (b + c)[1..] == b[1..] + c;
      ScanPrefix(b[1..], c);
    }
  }

  /** The shape of what Scan reads: continuation bytes, then one byte below 128. */
  lemma {:induction false} ScanShape(b: seq<byte>)
    requires Scan(b).Some?
    ensures b[Scan(b).value.1 - 1] < 128
    ensures forall i :: 0 <= i < Scan(b).value.1 - 1 ==> b[i] >= 128
  {
    if b[0] >= 128 { ScanShape(b[1..]); }
  }

  lemma {:induction false} ScanNone(b: seq<byte>)
    ensures Scan(b).None? <==> forall i :: 0 <= i < |b| ==> b[i] >= 128
  {
    if b != [] && b[0] >= 128 {
      ScanNone(b[1..]);
      assert forall i :: 1 <= i < |b| ==> b[i] == b[1..][i - 1];
    }
  }

  /** Scan with the first i groups already taken in, worth x. */
  lemma {:induction false} ScanSplit(b: seq<byte>, i: nat)
    requires i <= |b| && (forall k :: 0 <= k < i ==> b[k] >= 128)
    ensures Scan(b) == (var r := Scan(b[i..]);
                        if r.None? then None else Some((Groups(b, i) + Pow2(7 * i) * r.value.0, i + r.value.1)))
  {
    if i == 0 {
      assert b[0..] == b;
    } else {
      hide Pow2;
      assert b[0] >= 128;
      assert b[1..][i - 1..] == b[i..];
      ScanSplit(b[1..], i - 1);
      Pow2Seven(i);
      var r := Scan(b[i..]);
      if r.Some? { OneGroup(b[0], Groups(b[1..], i - 1), Pow2(7 * (i - 1)), r.value.0); }
    }
  }

  /** The value of the first i seven-bit groups. */
  function Groups(b: seq<byte>, i: nat): nat
    requires i <= |b|
  {
    if i == 0 then 0 else b[0] % 128 + 128 * Groups(b[1..], i - 1)
  }

  lemma {:induction false} GroupsNext(b: seq<byte>, i: nat)
    requires i < |b|
    ensures Groups(b, i + 1) == Groups(b, i) + Pow2(7 * i) * (b[i] % 128)
  {
    if i > 0 {
      hide Pow2;
      GroupsNext(b[1..], i - 1);
      Pow2Seven(i);
      Distribute(Groups(b[1..], i - 1), Pow2(7 * (i - 1)), b[i] % 128);
    }
  }

  lemma GroupsNone(q: seq<byte>)
    ensures Groups(q, 0) == 0
  {
  }

  /** The low seven bits of b, shifted left. */
  function Part(shift: nat, b: byte): nat {
    Pow2(shift) * (b % 128)
  }

  /** What the byte after k continuation bytes tells. */
  lemma ScanAt(q: seq<byte>, k: nat)
    requires k < |q| && forall j :: 0 <= j < k ==> q[j] >= 128
    ensures Groups(q, k + 1) == Groups(q, k) + Part(7 * k, q[k])
    ensures q[k] < 128 ==> Scan(q) == Some((Groups(q, k) + Part(7 * k, q[k]), k + 1))
    ensures q[k] >= 128 && Scan(q).Some? ==> Scan(q).value.1 > k + 1
  {
    hide Pow2, Groups;
    ScanSplit(q, k);
    GroupsNext(q, k);
    assert q[k..][0] == q[k];
  }

  lemma ModUnique(x: nat, p: nat, q: nat, r: nat)
    requires p > 0 && x == p * q + r && r < p
    ensures x % p == r
  {
    var k := x / p - q;
    assert x == p * (x / p) + x % p;
    assert p * (x / p) == p * q + p * k;
    assert p * k == r - x % p;
    SmallMultiple(p, k);
  }

  lemma SmallMultiple(p: nat, k: int)
    ensures k >= 1 ==> p * k >= p
    ensures k <= -1 ==> p * k + p <= 0
  {
  }

  lemma Factored(p: nat, q: int, r: int)
    ensures p * q + p * r == p * (q + r)
  {
  }

  lemma DivMod(a: nat, p: nat)
    requires p > 0
    ensures a == p * (a / p) + a % p && a % p < p
  {
  }

  lemma ModAdd(a: nat, b: nat, p: nat)
    requires p > 0
    ensures (a % p + b) % p == (a + b) % p
  {
    DivMod(a, p);
    DivMod(a % p + b, p);
    ModSum(a, a % p, b, p, a / p, (a % p + b) / p, (a % p + b) % p);
  }

  lemma ModSum(a: nat, m: nat, b: nat, p: nat, q: nat, k: nat, r: nat)
    requires p > 0 && a == p * q + m && m + b == p * k + r && r < p
    ensures (a + b) % p == r
  {
    Factored(p, q, k);
    ModUnique(a + b, p, q + k, r);
  }
}
