/** Masks and shifts by powers of two, as the hash table uses them. */
module PowersOfTwo {
  function Pow2(k: nat): (p: nat)
    ensures p > 0
  {
    if k == 0 then 1 else 2 * Pow2(k - 1)
  }

  /** x & y */
  function And(x: nat, y: nat): nat {
    if x == 0 || y == 0 then 0 else (x % 2) * (y % 2) + 2 * And(x / 2, y / 2)
  }

  /** x >> k */
  function ShiftRight(x: nat, k: nat): nat {
    if k == 0 then x else ShiftRight(x / 2, k - 1)
  }

  /** Masking with a power of two less one gives the remainder. */
  lemma {:induction false} MaskIsRemainder(x: nat, k: nat)
    ensures And(x, Pow2(k) - 1) == x % Pow2(k)
  {
    if k == 0 {
      assert And(x, 0) == 0;
    } else {
      var m, h := Pow2(k) - 1, Pow2(k - 1);
      MaskIsRemainder(x / 2, k - 1);
      assert m % 2 == 1 && m / 2 == h - 1;
      RemainderStep(x, h);
      if x == 0 {
        assert 0 % h == 0;
      } else {
        assert x % 2 * (m % 2) == x % 2;
      }
    }
  }

  lemma {:induction false} RemainderStep(x: nat, h: nat)
    requires h > 0
    ensures x % (2 * h) == 2 * (x / 2 % h) + x % 2
  {
    var q, r := x / 2 / h, x / 2 % h;
    assert x / 2 == h * q + r;
    assert x == 2 * (h * q + r) + x % 2;
    assert 2 * (h * q) == (2 * h) * q;
    RemainderUnique(x, 2 * h, q, 2 * r + x % 2);
  }

  lemma {:induction false} RemainderUnique(x: int, m: int, q: int, r: int)
    requires m > 0 && x == m * q + r && 0 <= r < m
    ensures x % m == r && x / m == q
  {
    var d := x / m - q;
    assert m * d == r - x % m;
    assert d >= 1 ==> m * d >= m;
    assert d <= -1 ==> m * d <= -m;
  }

  lemma {:induction false} ShiftIsQuotient(x: nat, k: nat)
    ensures ShiftRight(x, k) == x / Pow2(k)
  {
    if k > 0 {
      ShiftIsQuotient(x / 2, k - 1);
      QuotientStep(x, Pow2(k - 1));
    }
  }

  lemma {:induction false} QuotientStep(x: nat, h: nat)
    requires h > 0
    ensures x / 2 / h == x / (2 * h)
  {
    var q, r := x / 2 / h, x / 2 % h;
    assert x / 2 == h * q + r;
    assert 2 * (h * q) == (2 * h) * q;
    RemainderUnique(x, 2 * h, q, 2 * r + x % 2);
  }

  /** The least c with c buckets' worth of room: ceil(x / p). */
  predicate IsCeiling(c: nat, x: nat, p: nat) {
    c * p >= x && (c > 0 ==> (c - 1) * p < x)
  }

  /** The shift, plus one if the mask finds a rest, is the quotient rounded up. */
  lemma {:induction false} ShiftAndMaskRoundUp(x: nat, k: nat)
    ensures IsCeiling(ShiftRight(x, k) + if And(x, Pow2(k) - 1) != 0 then 1 else 0, x, Pow2(k))
  {
    MaskIsRemainder(x, k);
    ShiftIsQuotient(x, k);
    hide And, ShiftRight, Pow2;
    QuotientRoundUp(x, Pow2(k), x / Pow2(k), x % Pow2(k));
  }

  lemma {:induction false} QuotientRoundUp(x: nat, p: nat, q: nat, r: nat)
    requires p > 0 && x == p * q + r && r < p
    ensures IsCeiling(q + if r != 0 then 1 else 0, x, p)
  {
    assert (q + 1) * p == p * q + p;
    assert (q - 1) * p == p * q - p;
  }
}
