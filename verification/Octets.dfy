/** Bytes, and big-endian integers as bytes. */
module Octets {
  /** A byte as a number */
  type Octet = x: int | 0 <= x < 256

  /** A byte as eight bits, where the source masks, shifts or xors */
  type Byte = bv8

  const TWO_TO_THE_16: int := 0x1_0000
  const TWO_TO_THE_31: int := 0x8000_0000
  const TWO_TO_THE_32: int := 0x1_0000_0000
  const TWO_TO_THE_64: int := 0x1_0000_0000_0000_0000

  // ----- big-endian integers; a value is cut to its width when written

  function U8(x: int): seq<Octet> { [x % 256] }

  function U16(x: int): seq<Octet> { U8(x / 256) + U8(x) }

  function U32(x: int): seq<Octet> { U16(x / TWO_TO_THE_16) + U16(x) }

  function U64(x: int): seq<Octet> { U32(x / TWO_TO_THE_32) + U32(x) }

  function Read16(b: seq<Octet>): (x: nat)
    requires |b| == 2
    ensures x < TWO_TO_THE_16
  {
    256 * (b[0] as int) + b[1]
  }

  function Read32(b: seq<Octet>): (x: nat)
    requires |b| == 4
    ensures x < TWO_TO_THE_32
  {
    TWO_TO_THE_16 * Read16(b[..2]) + Read16(b[2..])
  }

  function Read64(b: seq<Octet>): (x: nat)
    requires |b| == 8
    ensures x < TWO_TO_THE_64
  {
    TWO_TO_THE_32 * Read32(b[..4]) + Read32(b[4..])
  }

  /** The 32 bits read as a signed integer. */
  function Signed32(x: int): int {
    if x < TWO_TO_THE_31 then x else x - TWO_TO_THE_32
  }

  lemma {:induction false} Read16U16(x: int)
    ensures |U16(x)| == 2 && Read16(U16(x)) == x % TWO_TO_THE_16
  {
    assert x == 256 * (x / 256) + x % 256;
    assert x / 256 == 256 * (x / 256 / 256) + x / 256 % 256;
    DivDiv(x, 256, 256);
  }

  lemma {:induction false} Read32U32(x: int)
    ensures |U32(x)| == 4 && Read32(U32(x)) == x % TWO_TO_THE_32
  {
    Read16U16(x / TWO_TO_THE_16);
    Read16U16(x);
    DivDiv(x, TWO_TO_THE_16, TWO_TO_THE_16);
    assert U32(x)[..2] == U16(x / TWO_TO_THE_16) && U32(x)[2..] == U16(x);
  }

  lemma {:induction false} Read64U64(x: int)
    ensures |U64(x)| == 8 && Read64(U64(x)) == x % TWO_TO_THE_64
  {
    Read32U32(x / TWO_TO_THE_32);
    Read32U32(x);
    DivDiv(x, TWO_TO_THE_32, TWO_TO_THE_32);
    assert U64(x)[..4] == U32(x / TWO_TO_THE_32) && U64(x)[4..] == U32(x);
  }

  /** The most significant byte comes first. */
  lemma {:induction false} BigEndian(x: int)
    ensures U16(x) == [x / 0x100 % 256, x % 256]
    ensures U32(x) == [x / 0x100_0000 % 256, x / 0x1_0000 % 256, x / 0x100 % 256, x % 256]
  {
    Quotients(x);
  }

  lemma {:induction false} Quotients(x: int)
    ensures x / 0x1_0000 / 0x100 == x / 0x100_0000
  {
  }

  /** Splitting off the lower digit and then the next one. */
  lemma {:induction false} DivDiv(x: int, a: int, b: int)
    requires a > 0 && b > 0
    ensures a * b > 0 && x % (a * b) == a * (x / a % b) + x % a
  {
    Digits(x, a, b, x / a / b, x / a % b, x % a);
    ModUnique(x, a * b, x / a / b, a * (x / a % b) + x % a);
  }

  lemma {:induction false} Digits(x: int, a: int, b: int, q: int, r: int, r': int)
    requires a > 0 && b > 0 && x == a * (b * q + r) + r' && 0 <= r < b && 0 <= r' < a
    ensures a * b > 0 && x == (a * b) * q + (a * r + r') && 0 <= a * r + r' < a * b
  {
    Distribute(a, b, q, r);
    MulBelow(a, b, r);
  }

  lemma {:induction false} Distribute(a: int, b: int, q: int, r: int)
    ensures a * (b * q + r) == (a * b) * q + a * r
  {
  }

  lemma {:induction false} MulBelow(a: int, b: int, r: int)
    requires a > 0 && 0 <= r < b
    ensures a * b > 0 && 0 <= a * r <= a * b - a
  {
    MulGrows(a, b - r);
    assert a * (b - r) == a * b - a * r;
    assert r > 0 ==> a * r >= a;
  }

  lemma {:induction false} ModUnique(x: int, m: int, q: int, r: int)
    requires m > 0 && x == m * q + r && 0 <= r < m
    ensures x % m == r
  {
    var d := x / m - q;
    assert m * d == r - x % m;
    MulGrows(m, d);
  }

  lemma {:induction false} MulGrows(m: int, d: int)
    requires m > 0
    ensures d >= 1 ==> m * d >= m
    ensures d <= -1 ==> m * d <= -m
  {
  }
}
