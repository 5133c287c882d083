/** Bitwise "and" of natural numbers, and powers of two (lib/kernel/hash.c:337-347). */
module Bits {
  import Arithmetic

  function And(x: nat, y: nat): nat {
    if x == 0 || y == 0 then 0 else (if x % 2 == 1 && y % 2 == 1 then 1 else 0) + 2 * And(x / 2, y / 2)
  }

  /** turn_off_least_1bit. */
  function TurnOffLeast1Bit(x: nat): nat
    requires x > 0
  {
    And(x, x - 1)
  }

  /** is_power_of_2. */
  predicate IsPowerOf2(x: nat) {
    x != 0 && TurnOffLeast1Bit(x) == 0
  }

  /** 2, 4, 8, ... by definition. */
  predicate Power(x: nat) {
    x == 1 || (x > 1 && x % 2 == 0 && Power(x / 2))
  }

  lemma {:induction false} AndSelf(x: nat)
    ensures And(x, x) == x
  {
    if x > 0 {
      AndSelf(x / 2);
    }
  }

  lemma AndOfEven(z: nat)
    requires z > 0
    ensures And(2 * z, 2 * z - 1) == 2 * And(z, z - 1)
  {
    assert (2 * z) % 2 == 0 && (2 * z) / 2 == z && (2 * z - 1) / 2 == z - 1;
    if z == 1 {
      assert And(2, 1) == 0;
    }
  }

  lemma AndOfOdd(x: nat)
    requires x % 2 == 1
    ensures And(x, x - 1) == x - 1
  {
    if x > 1 {
      AndSelf(x / 2);
      assert (x - 1) / 2 == x / 2 && (x - 1) % 2 == 0;
    }
  }

  /** Turning off the lowest bit leaves zero exactly for powers of two, and else keeps the highest bit. */
  lemma {:induction false} TurnOff(x: nat, p: nat)
    requires Power(p) && p <= x < 2 * p
    ensures TurnOffLeast1Bit(x) < x && (TurnOffLeast1Bit(x) == 0 <==> x == p)
    ensures x != p ==> p <= TurnOffLeast1Bit(x)
  {
    if x % 2 == 1 {
      AndOfOdd(x);
    } else {
      AndOfEven(x / 2);
      TurnOff(x / 2, p / 2);
    }
  }

  /** The largest power of two that is at most x. */
  function Highest(x: nat): (p: nat)
    requires x > 0
    ensures Power(p) && p <= x < 2 * p
  {
    if x == 1 then 1 else 2 * Highest(x / 2)
  }

  lemma {:induction false} PowerIsUnique(x: nat, p: nat, q: nat)
    requires Power(p) && Power(q) && p <= x < 2 * p && q <= x < 2 * q
    ensures p == q
  {
    if p > 1 && q > 1 {
      PowerIsUnique(x / 2, p / 2, q / 2);
    }
  }

  lemma IsPower(x: nat)
    requires x > 0
    ensures IsPowerOf2(x) <==> Power(x)
  {
    var p := Highest(x);
    TurnOff(x, p);
    if Power(x) {
      PowerIsUnique(x, x, p);
    }
  }

  /** The loop of rehash: the largest power of two that is at most n. */
  method RoundDown(n: nat) returns (p: nat)
    requires n > 0
    ensures p == Highest(n)
  {
    p := n;
    while !IsPowerOf2(p)
      invariant 0 < p && Highest(n) <= p <= n
      decreases p
    {
      TurnOff(p, Highest(n));
      p := TurnOffLeast1Bit(p);
    }
    IsPower(p);
    PowerIsUnique(p, p, Highest(n));
  }

  lemma MaskStep(x: nat, q: nat)
    requires q > 0
    ensures And(x, 2 * q - 1) == x % 2 + 2 * And(x / 2, q - 1)
  {
    assert (2 * q - 1) % 2 == 1 && (2 * q - 1) / 2 == q - 1;
  }

  /** Masking with a power of two less one is the remainder. */
  lemma {:induction false} MaskIsRemainder(x: nat, p: nat)
    requires Power(p)
    ensures And(x, p - 1) == x % p
  {
    if p > 1 {
      var q := p / 2;
      MaskIsRemainder(x / 2, q);
      MaskStep(x, q);
      HalfRemainder(x, q);
    }
  }

  lemma HalfRemainder(x: nat, q: nat)
    requires q > 0
    ensures x % (2 * q) == x % 2 + 2 * (x / 2 % q)
  {
    var k, r := x / 2 / q, x / 2 % q;
    Arithmetic.Euclid(x / 2, q);
    Remainder(x, 2 * q, k, 2 * r + x % 2);
  }

  lemma Remainder(x: nat, d: nat, k: nat, r: nat)
    requires x == k * d + r && r < d
    ensures x % d == r
  {
    Arithmetic.Quotient(x, d, k);
    Arithmetic.Euclid(x, d);
  }
}
