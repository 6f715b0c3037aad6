/** Big-endian numbers of a fixed width, as Kafka and HTTP/2 write them. */
module BigEndian {
  import opened Base128

  /** The low n bytes of v, the most significant first. */
  function Big(v: nat, n: nat): (b: seq<byte>)
    ensures |b| == n
  {
    if n == 0 then [] else Big(v / 256, n - 1) + [v % 256]
  }

  function FromBig(b: seq<byte>): nat {
    if b == [] then 0 else 256 * FromBig(b[..|b| - 1]) + b[|b| - 1]
  }

  lemma {:induction false} BigBack(v: nat, n: nat)
    requires v < Pow2(8 * n)
    ensures FromBig(Big(v, n)) == v
  {
    if n > 0 {
      Pow2Eight(n);
      BigBack(v / 256, n - 1);
      assert Big(v, n)[..n - 1] == Big(v / 256, n - 1);
    }
  }

  lemma Pow2Eight(n: nat)
    requires n > 0
    ensures Pow2(8 * n) == 256 * Pow2(8 * (n - 1))
  {
    assert Pow2(8) == 256;
    Pow2Adds(8, 8 * (n - 1));
  }

  /** The top byte tells the upper half. */
  lemma {:induction false} Top(b: seq<byte>)
    requires b != []
    ensures FromBig(b) < Pow2(8 * |b|)
    ensures b[0] >= 128 <==> 2 * FromBig(b) >= Pow2(8 * |b|)
  {
    Pow2Eight(|b|);
    var a := b[..|b| - 1];
    if a == [] {
      assert Pow2(0) == 1 && FromBig([]) == 0;
    } else {
      Top(a);
      Pow2Eight(|b| - 1);
      assert FromBig(b) == 256 * FromBig(a) + b[|b| - 1] && a[0] == b[0];
      hide Pow2, FromBig;
    }
  }

  /** Numbers of three, four and eight bytes. */
  lemma ThreeBytes(v: nat)
    ensures Big(v, 3) == [v / 0x1_0000 % 256, v / 0x100 % 256, v % 256]
  {
    assert v / 256 / 256 == v / 0x1_0000;
    assert Big(v, 3) == Big(v / 256, 2) + [v % 256];
    assert Big(v / 256, 2) == Big(v / 256 / 256, 1) + [v / 256 % 256];
    assert Big(v / 256 / 256, 1) == Big(v / 256 / 256 / 256, 0) + [v / 256 / 256 % 256];
  }

  lemma FourBytes(v: nat)
    ensures Big(v, 4) == [v / 0x100_0000 % 256, v / 0x1_0000 % 256, v / 0x100 % 256, v % 256]
  {
    ThreeBytes(v / 256);
    assert v / 256 / 0x1_0000 == v / 0x100_0000 && v / 256 / 0x100 == v / 0x1_0000;
    assert Big(v, 4) == Big(v / 256, 3) + [v % 256];
  }

  lemma EightBytes(v: nat)
    ensures Big(v, 8) == Big(v / 0x1_0000_0000, 4) + Big(v, 4)
  {
    var a, b, c, d := v / 256, v / 256 / 256, v / 256 / 256 / 256, v / 256 / 256 / 256 / 256;
    assert d == v / 0x1_0000_0000;
    assert Big(v, 8) == Big(a, 7) + [v % 256] && Big(v, 4) == Big(a, 3) + [v % 256];
    assert Big(a, 7) == Big(b, 6) + [a % 256] && Big(a, 3) == Big(b, 2) + [a % 256];
    assert Big(b, 6) == Big(c, 5) + [b % 256] && Big(b, 2) == Big(c, 1) + [b % 256];
    assert Big(c, 5) == Big(d, 4) + [c % 256] && Big(c, 1) == Big(d, 0) + [c % 256];
  }
}
