/**
 Low-order bits of natural numbers, written with division by the constant 2 only, so that every
 proof about hash bits stays linear.  `LowIsMod` and `BitIsShift` tie the two functions to the
 masks `h & ((1 << d) - 1)` and `h & (1 << d)` of the hash table.
 */
module Bits {

  function Pow2(d: nat): (r: nat)
    ensures r > 0
  {
    if d == 0 then 1 else 2 * Pow2(d - 1)
  }

  /** The `d` low-order bits of `x`. */
  function Low(x: nat, d: nat): nat {
    if d == 0 then 0 else x % 2 + 2 * Low(x / 2, d - 1)
  }

  /** Bit number `d` of `x`. */
  function Bit(x: nat, d: nat): nat {
    if d == 0 then x % 2 else Bit(x / 2, d - 1)
  }

  lemma {:induction false} LowIsMod(x: nat, d: nat)
    ensures Low(x, d) == x % Pow2(d)
  {
    if d != 0 {
      LowIsMod(x / 2, d - 1);
      HalveDivisor(x, Pow2(d - 1));
    }
  }

  lemma {:induction false} BitIsShift(x: nat, d: nat)
    ensures Bit(x, d) == x / Pow2(d) % 2
  {
    if d != 0 {
      BitIsShift(x / 2, d - 1);
      HalveDivisor(x, Pow2(d - 1));
    }
  }

  /** Dividing by `2 * p` is dropping the lowest bit and dividing by `p`. */
  lemma HalveDivisor(x: nat, p: nat)
    requires 0 < p
    ensures x / (2 * p) == x / 2 / p
    ensures x % (2 * p) == 2 * (x / 2 % p) + x % 2
  {
    var q, r := x / 2 / p, x / 2 % p;
    assert x / 2 == p * q + r;
    assert p * q * 2 == 2 * p * q;
    QuotientUnique(x, 2 * p, q, 2 * r + x % 2);
  }

  lemma QuotientUnique(x: nat, m: nat, q: nat, r: nat)
    requires 0 < m && x == m * q + r && r < m
    ensures x / m == q && x % m == r
  {
    var q', r' := x / m, x % m;
    assert x == m * q' + r';
    assert m * (q' - q) == r - r';
    MultipleOutOfRange(m, q' - q);
  }

  lemma MultipleOutOfRange(m: int, k: int)
    requires 0 < m
    ensures k >= 1 ==> m * k >= m
    ensures k <= -1 ==> m * k <= -m
  {
    if k >= 1 { assert m * (k - 1) >= 0; }
    if k <= -1 { assert m * (-1 - k) >= 0; }
  }

  lemma {:induction false} LowBound(x: nat, d: nat)
    ensures Low(x, d) < Pow2(d)
    ensures Bit(x, d) < 2
  {
    if d != 0 { LowBound(x / 2, d - 1); }
  }

  lemma {:induction false} LowSmall(x: nat, d: nat)
    requires x < Pow2(d)
    ensures Low(x, d) == x
  {
    if d != 0 { LowSmall(x / 2, d - 1); }
  }

  lemma {:induction false} LowSplit(x: nat, d: nat)
    ensures Low(x, d + 1) == Low(x, d) + Bit(x, d) * Pow2(d)
  {
    if d != 0 { LowSplit(x / 2, d - 1); }
  }

  /** One more bit adds `2^d` or nothing. */
  lemma LowStep(x: nat, d: nat)
    ensures Low(x, d + 1) == Low(x, d) + if Bit(x, d) == 0 then 0 else Pow2(d)
  {
    LowSplit(x, d);
    LowBound(x, d);
  }

  /** Truncating to `e` bits does not disturb the bits below `e`. */
  lemma {:induction false} LowLow(x: nat, e: nat, d: nat)
    requires d <= e
    ensures Low(Low(x, e), d) == Low(x, d)
    ensures d < e ==> Bit(Low(x, e), d) == Bit(x, d)
  {
    if e != 0 {
      assert Low(x, e) / 2 == Low(x / 2, e - 1);
      if d != 0 { LowLow(x / 2, e - 1, d - 1); }
    }
  }

  /** Agreement on `d + 1` bits is agreement on `d` bits and on bit `d`. */
  lemma SameLowStep(x: nat, y: nat, d: nat)
    ensures Low(x, d + 1) == Low(y, d + 1) <==> Low(x, d) == Low(y, d) && Bit(x, d) == Bit(y, d)
  {
    LowStep(x, d);
    LowStep(y, d);
    LowBound(x, d);
    LowBound(y, d);
  }

  /** Adding `2^e` changes bit `e` and nothing below it. */
  lemma {:induction false} LowAddPow2(x: nat, e: nat, d: nat)
    requires d <= e && x < Pow2(e)
    ensures Low(x + Pow2(e), d) == Low(x, d)
    ensures Bit(x + Pow2(e), e) == 1 && Bit(x, e) == 0
  {
    if e != 0 {
      assert (x + Pow2(e)) / 2 == x / 2 + Pow2(e - 1);
      LowAddPow2(x / 2, e - 1, if d == 0 then 0 else d - 1);
    }
  }

  lemma {:induction false} Pow2Monotone(d: nat, e: nat)
    requires d <= e
    ensures Pow2(d) <= Pow2(e)
  {
    if d != e { Pow2Monotone(d, e - 1); }
  }

  lemma {:induction false} Pow2Add(d: nat, e: nat)
    ensures Pow2(d + e) == Pow2(d) * Pow2(e)
  {
    if d != 0 {
      Pow2Add(d - 1, e);
      assert Pow2(d + e) == 2 * (Pow2(d - 1) * Pow2(e)) == (2 * Pow2(d - 1)) * Pow2(e);
    }
  }

  lemma {:induction false} Pow2Exceeds(n: nat)
    ensures n < Pow2(n)
  {
    if n != 0 { Pow2Exceeds(n - 1); }
  }

  lemma ThriceExceeds(n: nat, d: nat, e: nat)
    requires n >= 3 && d <= e
    ensures n * Pow2(e) > Pow2(d + 1)
  {
    Pow2Monotone(d, e);
    assert n * Pow2(e) >= 3 * Pow2(e);
  }

  lemma Pow2Of31()
    ensures Pow2(31) == 0x8000_0000
  {
    assert Pow2(4) == 16 && Pow2(3) == 8;
    Pow2Add(4, 4);
    Pow2Add(4, 3);
    Pow2Add(8, 8);
    Pow2Add(8, 7);
    Pow2Add(16, 15);
  }
}
