/** The Snappy block format: what the encoder emits, and the decoder as a function of the
    compressed bytes and the destination buffer it starts from. */
module Snappy {
  import opened Wrappers
  import opened Base128

  /** HeaderOverflow stands for the index out of range that a header longer than 64 bits
      leads to. */
  datatype Error = Corrupt | UnsupportedCopy4 | HeaderOverflow

  // ----- emitting -----

  /** The tag and length bytes of a literal chunk; n is the length minus one. */
  function LiteralTag(n: nat): (b: seq<byte>)
    requires n < 0x1_0000_0000
    ensures 1 <= |b| <= 5
  {
    if n < 60 then [n * 4]
    else if n < 0x100 then [60 * 4, n]
    else if n < 0x1_0000 then [61 * 4, n % 0x100, n / 0x100]
    else if n < 0x100_0000 then [62 * 4, n % 0x100, n / 0x100 % 0x100, n / 0x1_0000]
    else [63 * 4, n % 0x100, n / 0x100 % 0x100, n / 0x1_0000 % 0x100, n / 0x100_0000]
  }

  function LiteralChunk(lit: seq<byte>): (b: seq<byte>)
    requires 0 < |lit| <= 0x1_0000_0000
  {
    LiteralTag(|lit| - 1) + lit
  }

  /** One copy of a match: its bytes, and how much of the length it covers. */
  function CopyOnce(offset: nat, length: nat): (r: (seq<byte>, nat))
    requires offset < 0x8000 && length > 0
    ensures 0 < r.1 <= length && |r.0| <= 3
  {
    if 4 <= length < 12 && offset < 0x800 then
      ([offset / 0x100 * 32 + (length - 4) * 4 + 1, offset % 0x100], length)
    else
      var x := if length > 64 then 64 else length;
      ([(x - 1) * 4 + 2, offset % 0x100, offset / 0x100], x)
  }

  function CopyChunks(offset: nat, length: nat): (b: seq<byte>)
    requires offset < 0x8000
    decreases length
  {
    if length == 0 then []
    else
      var (c, x) := CopyOnce(offset, length);
      c + CopyChunks(offset, length - x)
  }

  function MaxEncodedLen(srcLen: nat): nat {
    32 + srcLen + srcLen / 6
  }

  // ----- decoding -----

  /** encoding/binary's Uvarint: 0 bytes read when b ends too early, a negative count when
      the number does not fit in 64 bits. */
  function Uvarint(b: seq<byte>): (nat, int) {
    match Scan(b)
    case None => (0, 0)
    case Some((v, n)) => if n < 10 || (n == 10 && b[9] <= 1) then (v, n) else (0, -(n as int))
  }

  /** Conversion of a 64-bit number to int, which is 64 bits wide and signed. */
  function ToInt(v: nat): int {
    if v < 0x8000_0000_0000_0000 then v else v - 0x1_0000_0000_0000_0000
  }

  /** The decoded length and the size of the header. On 64-bit platforms the test that the
      length survives the conversion to int always passes; a length of 2^63 or more comes
      out negative and is found corrupt at the end. */
  function DecodedLen(src: seq<byte>): (r: Result<(int, nat), Error>) {
    var (v, n) := Uvarint(src);
    if n == 0 then Err(Corrupt)
    else if n < 0 then Err(HeaderOverflow)
    else Ok((ToInt(v), n))
  }

  function Word(b0: nat, b1: nat, b2: nat, b3: nat): nat {
    b0 + b1 * 0x100 + b2 * 0x1_0000 + b3 * 0x100_0000
  }

  /** A chunk's effect: bytes consumed, and the destination with its new fill mark. */
  type Effect = Result<(nat, seq<byte>, nat), Error>

  /** A literal of x + 1 bytes whose tag and length take t bytes. */
  function Literal(b: seq<byte>, t: nat, x: nat, dst: seq<byte>, d: nat): (r: Effect)
    requires t <= |b| && d <= |dst|
    ensures r.Ok? ==> t < r.value.0 <= |b| && |r.value.1| == |dst| && d <= r.value.2 <= |dst|
  {
    if x + 1 > |dst| - d || x + 1 > |b| - t then Err(Corrupt)
    else Ok((t + x + 1, dst[..d] + b[t..t + x + 1] + dst[d + x + 1..], d + x + 1))
  }

  /** The decoder's copy loop: byte by byte, so that a match may overlap its own output. */
  function Overlap(dst: seq<byte>, d: nat, offset: nat, n: nat): (r: seq<byte>)
    requires offset <= d && d + n <= |dst|
    ensures |r| == |dst|
    decreases n
  {
    if n == 0 then dst else Overlap(dst[d := dst[d - offset]], d + 1, offset, n - 1)
  }

  function Copy(t: nat, offset: nat, length: nat, dst: seq<byte>, d: nat): (r: Effect)
    requires d <= |dst|
    ensures r.Ok? ==> r.value.0 == t && |r.value.1| == |dst| && d <= r.value.2 <= |dst|
  {
    if offset > d || d + length > |dst| then Err(Corrupt)
    else Ok((t, Overlap(dst, d, offset, length), d + length))
  }

  /** The size of a literal's tag and length bytes, and the literal's length minus one. */
  function LiteralLength(b: seq<byte>): (r: Option<(nat, nat)>)
    requires b != []
    ensures r.Some? ==> 0 < r.value.0 <= |b|
  {
    var m := b[0] / 4;
    if m < 60 then Some((1, m))
    else if |b| < m - 58 then None
    else if m == 60 then Some((2, b[1]))
    else if m == 61 then Some((3, Word(b[1], b[2], 0, 0)))
    else if m == 62 then Some((4, Word(b[1], b[2], b[3], 0)))
    else Some((5, Word(b[1], b[2], b[3], b[4])))
  }

  /** A copy chunk's size, offset and length. */
  function CopyTag(b: seq<byte>): (r: Result<(nat, nat, nat), Error>)
    requires b != [] && b[0] % 4 != 0
    ensures r.Ok? ==> 0 < r.value.0 <= |b|
  {
    var m := b[0] / 4;
    if b[0] % 4 == 1 then
      if |b| < 2 then Err(Corrupt) else Ok((2, Word(b[1], b[0] / 32, 0, 0), 4 + m % 8))
    else if b[0] % 4 == 2 then
      if |b| < 3 then Err(Corrupt) else Ok((3, Word(b[1], b[2], 0, 0), 1 + m))
    else Err(UnsupportedCopy4)
  }

  /** The chunk at the front of b. */
  function Chunk(b: seq<byte>, dst: seq<byte>, d: nat): (r: Effect)
    requires b != [] && d <= |dst|
    ensures r.Ok? ==> 0 < r.value.0 <= |b| && |r.value.1| == |dst| && d <= r.value.2 <= |dst|
  {
    if b[0] % 4 == 0 then
      match LiteralLength(b)
      case None => Err(Corrupt)
      case Some((t, x)) => Literal(b, t, x, dst, d)
    else
      match CopyTag(b)
      case Err(e) => Err(e)
      case Ok((t, offset, length)) => Copy(t, offset, length, dst, d)
  }

  /** All chunks of b, from a destination filled up to d. */
  function Chunks(b: seq<byte>, dst: seq<byte>, d: nat): (r: Result<(seq<byte>, nat), Error>)
    requires d <= |dst|
    ensures r.Ok? ==> |r.value.0| == |dst| && d <= r.value.1 <= |dst|
    decreases |b|
  {
    if b == [] then Ok((dst, d))
    else
      match Chunk(b, dst, d)
      case Err(e) => Err(e)
      case Ok((n, dst', d')) => Chunks(b[n..], dst', d')
  }

  function Zeros(n: nat): (z: seq<byte>)
    ensures |z| == n
  {
    seq(n, _ => 0)
  }

  /** The whole block, into the caller's buffer when it is large enough. */
  function Decode(buffer: seq<byte>, src: seq<byte>): Result<seq<byte>, Error> {
    match DecodedLen(src)
    case Err(e) => Err(e)
    case Ok((dLen, n)) =>
      UvarintRead(src);
      var dst := if |buffer| < dLen then Zeros(dLen) else buffer;
      match Chunks(src[n..], dst, 0)
      case Err(e) => Err(e)
      case Ok((dst', d)) => if d != dLen then Err(Corrupt) else Ok(dst'[..d])
  }

  lemma UvarintRead(b: seq<byte>)
    ensures Uvarint(b).1 <= |b|
  {
  }
}
