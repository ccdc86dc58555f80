/** Bitwise operations on 64-bit signed integers, bit by bit, and the arithmetic they come to. */
module Bits {

  const TWO_TO_64 := 0x1_0000_0000_0000_0000
  const TWO_TO_63 := 0x8000_0000_0000_0000
  const TWO_TO_41 := 0x200_0000_0000

  function Pow2(k: nat): (p: nat)
    ensures p >= 1
  {
    if k == 0 then 1 else 2 * Pow2(k - 1)
  }

  /** The bit pattern of a 64-bit integer, and back. */
  function Pattern(x: int): int {
    x % TWO_TO_64
  }

  function Signed(p: int): int {
    if p < TWO_TO_63 then p else p - TWO_TO_64
  }

  function OrBits(a: nat, b: nat): nat
    decreases a + b
  {
    if a == 0 && b == 0 then 0
    else (if a % 2 == 1 || b % 2 == 1 then 1 else 0) + 2 * OrBits(a / 2, b / 2)
  }

  function AndBits(a: nat, b: nat): nat {
    if a == 0 then 0
    else (if a % 2 == 1 && b % 2 == 1 then 1 else 0) + 2 * AndBits(a / 2, b / 2)
  }

  function Or(x: int, y: int): int {
    Signed(OrBits(Pattern(x), Pattern(y)))
  }

  function And(x: int, y: int): int {
    Signed(AndBits(Pattern(x), Pattern(y)))
  }

  /** Bits shifted past the top are lost. */
  function ShiftLeft(x: int, k: nat): int {
    Signed(Pattern(x * Pow2(k)))
  }

  /** The arithmetic shift rounds down. */
  function ShiftRight(x: int, k: nat): int {
    x / Pow2(k)
  }

  lemma AtLeastOnce(x: int, d: int)
    requires x >= 1 && d >= 0
    ensures x * d >= d
  {
  }

  /** Quotient and remainder are determined by the division equation. */
  lemma DivMod(a: int, d: int, q: int, r: int)
    requires 0 <= r < d && a == q * d + r
    ensures a / d == q && a % d == r
  {
    var x := q - a / d;
    assert x * d == a % d - r by {
      assert x * d == q * d - a / d * d;
    }
    if x >= 1 {
      AtLeastOnce(x, d);
    } else if x <= -1 {
      AtLeastOnce(-x, d);
    }
  }

  lemma {:induction false} OrZero(a: nat)
    ensures OrBits(a, 0) == a
    decreases a
  {
    if a != 0 {
      OrZero(a / 2);
    }
  }

  /** OR with bits below a shifted value adds them. */
  lemma {:induction false} OrBelow(a: nat, k: nat, b: nat)
    requires b < Pow2(k)
    ensures OrBits(a * Pow2(k), b) == a * Pow2(k) + b
    decreases k
  {
    if k == 0 {
      OrZero(a);
    } else {
      var h := a * Pow2(k - 1);
      assert a * Pow2(k) == 2 * h;
      OrBelow(a, k - 1, b / 2);
    }
  }

  /** Putting a lowest bit back under a quotient and a remainder. */
  lemma HalvedRemainder(a: nat, m: nat)
    requires m >= 1
    ensures a % (2 * m) == a % 2 + 2 * (a / 2 % m)
  {
    var h := a / 2;
    var q, r := h / m, h % m;
    assert h == q * m + r;
    assert q * (2 * m) == 2 * (q * m);
    DivMod(a, 2 * m, q, 2 * r + a % 2);
  }

  lemma {:induction false} AndZero(a: nat)
    ensures AndBits(a, 0) == 0
    decreases a
  {
    if a != 0 {
      AndZero(a / 2);
    }
  }

  /** AND with a mask of k ones is the remainder by 2^k. */
  lemma {:induction false} AndMask(a: nat, k: nat)
    ensures AndBits(a, Pow2(k) - 1) == a % Pow2(k)
    decreases k
  {
    if k == 0 {
      AndZero(a);
    } else if a != 0 {
      var m := Pow2(k - 1);
      AndMask(a / 2, k - 1);
      HalvedRemainder(a, m);
      assert (2 * m - 1) % 2 == 1 && (2 * m - 1) / 2 == m - 1;
    }
  }

  /** The same on 64-bit integers that are not negative. */
  lemma AndLow(x: int, k: nat, mask: int)
    requires 0 <= x < TWO_TO_63 && mask == Pow2(k) - 1 && mask < TWO_TO_63
    ensures And(x, mask) == x % Pow2(k)
  {
    AndMask(x, k);
    assert Pattern(x) == x && Pattern(mask) == mask;
    RemainderFits(x, Pow2(k));
  }

  lemma RemainderFits(x: int, d: nat)
    requires 0 <= x < TWO_TO_63 && d >= 1
    ensures 0 <= x % d <= x
    ensures Signed(x % d) == x % d
  {
  }

  lemma PatternOfSigned(p: int)
    requires 0 <= p < TWO_TO_64
    ensures Pattern(p) == Pattern(Signed(p)) == p
  {
  }

  /** On 64-bit integers: OR of a pattern whose low k bits are clear and bits below them. */
  lemma OrLow(x: int, high: nat, a: nat, k: nat, b: nat)
    requires Pattern(x) == high == a * Pow2(k) && Pattern(b) == b < Pow2(k)
    ensures Or(x, b) == Signed(high + b)
  {
    OrBelow(a, k, b);
  }
}
