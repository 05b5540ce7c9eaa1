/** The bitwise operators of the varint loops, bit by bit. A shift by n bits is a product or quotient with Pow2(n). */
module Bits {

  function Pow2(n: nat): (p: nat)
    ensures p > 0
  {
    if n == 0 then 1 else 2 * Pow2(n - 1)
  }

  /** The lowest bit of a & b, and of a | b. */
  function AndBit(a: nat, b: nat): nat { if a % 2 == 1 && b % 2 == 1 then 1 else 0 }
  function OrBit(a: nat, b: nat): nat { if a % 2 == 1 || b % 2 == 1 then 1 else 0 }

  /** a & b */
  function And(a: nat, b: nat): nat { if a == 0 then 0 else AndBit(a, b) + 2 * And(a / 2, b / 2) }

  /** a | b */
  function Or(a: nat, b: nat): nat { if a == 0 then b else OrBit(a, b) + 2 * Or(a / 2, b / 2) }

  lemma AndDouble(x: nat, y: nat, bit: nat)
    requires bit < 2
    ensures And(2 * x + bit, 2 * y + 1) == bit + 2 * And(x, y)
  {
    assert (2 * x + bit) / 2 == x && (2 * y + 1) / 2 == y;
  }

  lemma OrDouble(x: nat, y: nat, bit: nat)
    requires bit < 2
    ensures Or(2 * x + bit, 2 * y) == bit + 2 * Or(x, y)
  {
    assert (2 * x + bit) / 2 == x && (2 * y) / 2 == y;
  }

  lemma Twice(c: nat, p: nat)
    ensures c * (2 * p) == 2 * (c * p) >= 0
  {}

  /** Numbers without a common bit, for one is below a power of two and the other a multiple of it. */
  lemma {:induction false} OrIsPlus(a: nat, c: nat, n: nat)
    requires a < Pow2(n)
    ensures c * Pow2(n) >= 0 && Or(a, c * Pow2(n)) == a + c * Pow2(n)
  {
    if n > 0 {
      var p := Pow2(n - 1);
      Twice(c, p);
      OrIsPlus(a / 2, c, n - 1);
      OrDouble(a / 2, c * p, a % 2);
    }
  }

  lemma {:induction false} AndNothing(a: nat)
    ensures And(a, 0) == 0
  {
    if a > 0 { AndNothing(a / 2); }
  }

  /** A mask of n bits takes the part below 2^n. */
  lemma {:induction false} MaskKeeps(q: nat, r: nat, n: nat)
    requires r < Pow2(n)
    ensures q * Pow2(n) >= 0 && And(q * Pow2(n) + r, Pow2(n) - 1) == r
  {
    if n == 0 {
      AndNothing(q);
    } else {
      hide And;
      var p := Pow2(n - 1);
      Twice(q, p);
      MaskKeeps(q, r / 2, n - 1);
      AndDouble(q * p + r / 2, p - 1, r % 2);
    }
  }

  /** The wire type of a tag. */
  lemma LowThree(a: nat)
    ensures And(a, 7) == a % 8
  {
    hide And;
    assert Pow2(3) == 8;
    MaskKeeps(a / 8, a % 8, 3);
  }

  /** The payload of a byte. */
  lemma LowSeven(a: nat)
    ensures And(a, 0x7f) == a % 128
  {
    hide And;
    assert Pow2(7) == 128 by { assert Pow2(3) == 8; }
    MaskKeeps(a / 128, a % 128, 7);
  }

  /** A byte that others follow. */
  lemma Continuation(a: nat)
    ensures Or(And(a, 0x7f), 0x80) == a % 128 + 128
  {
    LowSeven(a);
    assert Pow2(7) == 128 by { assert Pow2(3) == 8; }
    OrIsPlus(a % 128, 1, 7);
  }

  lemma OrOne(a: nat)
    ensures Or(a, 1) == if a % 2 == 0 then a + 1 else a
  {
    if a > 0 { OrNothing(a / 2); }
  }

  lemma {:induction false} OrNothing(a: nat)
    ensures Or(a, 0) == a
  {
    if a > 0 { OrNothing(a / 2); }
  }
}
