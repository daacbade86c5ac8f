/** Bitwise operations on unsigned integers, stated on `nat` through their
    binary digits: Rust's `|` and `&` and the powers of two that `<<` makes. */
module Bits {

  function Pow2(m: nat): (p: nat)
    ensures p >= 1
  {
    if m == 0 then 1 else 2 * Pow2(m - 1)
  }

  /** Bit `k` of `n`. */
  predicate Bit(n: nat, k: nat)
  {
    if k == 0 then n % 2 == 1 else Bit(n / 2, k - 1)
  }

  /** Bitwise or, `|`, on the binary digits of `a` and `b`. */
  function Or(a: nat, b: nat): nat
    decreases a + b
  {
    if a == 0 then b
    else if b == 0 then a
    else 2 * Or(a / 2, b / 2) + (if a % 2 == 1 || b % 2 == 1 then 1 else 0)
  }

  lemma {:induction false} ZeroBit(k: nat)
    ensures !Bit(0, k)
  {
    if k > 0 {
      ZeroBit(k - 1);
    }
  }

  /** `Or` sets exactly the bits set in either operand. */
  lemma {:induction false} OrBit(a: nat, b: nat, k: nat)
    ensures Bit(Or(a, b), k) <==> Bit(a, k) || Bit(b, k)
    decreases k
  {
    ZeroBit(k);
    if a != 0 && b != 0 && k > 0 {
      OrBit(a / 2, b / 2, k - 1);
      var r := if a % 2 == 1 || b % 2 == 1 then 1 else 0;
      assert (2 * Or(a / 2, b / 2) + r) / 2 == Or(a / 2, b / 2);
    }
  }

  lemma {:induction false} Pow2Bit(m: nat, k: nat)
    ensures Bit(Pow2(m), k) <==> k == m
    decreases k
  {
    if k > 0 && m > 0 {
      Pow2Bit(m - 1, k - 1);
    } else if k > 0 {
      ZeroBit(k - 1);
    } else if m > 0 {
      assert Pow2(m) % 2 == 0;
    }
  }

  /** The `Or` of two numbers below 2^m is below 2^m. */
  lemma {:induction false} OrBound(a: nat, b: nat, m: nat)
    requires a < Pow2(m) && b < Pow2(m)
    ensures Or(a, b) < Pow2(m)
    decreases m
  {
    if a != 0 && b != 0 {
      OrBound(a / 2, b / 2, m - 1);
    }
  }

  lemma OrDouble(a: nat, b: nat)
    ensures Or(2 * a, 2 * b) == 2 * Or(a, b)
  {
    if a != 0 && b != 0 {
      assert (2 * a) / 2 == a && (2 * b) / 2 == b;
    }
  }


  /** Bitwise and, `&`, on the binary digits of `a` and `b`. */
  function And(a: nat, b: nat): nat
    decreases a + b
  {
    if a == 0 || b == 0 then 0
    else 2 * And(a / 2, b / 2) + (if a % 2 == 1 && b % 2 == 1 then 1 else 0)
  }

  /** `Or` works digit by digit from the lowest one, also when an operand is
      0, where the definition stops early. */
  lemma OrStep(a: nat, b: nat)
    ensures Or(a, b) == 2 * Or(a / 2, b / 2) + (if a % 2 == 1 || b % 2 == 1 then 1 else 0)
  {
  }

  /** `And` works digit by digit from the lowest one, also when an operand
      is 0, where the definition stops early. */
  lemma AndStep(a: nat, b: nat)
    ensures And(a, b) == 2 * And(a / 2, b / 2) + (if a % 2 == 1 && b % 2 == 1 then 1 else 0)
  {
  }

  /** `And` keeps exactly the bits set in both operands. */
  lemma {:induction false} AndBit(a: nat, b: nat, k: nat)
    ensures Bit(And(a, b), k) <==> Bit(a, k) && Bit(b, k)
    decreases k
  {
    AndStep(a, b);
    var r := if a % 2 == 1 && b % 2 == 1 then 1 else 0;
    assert (2 * And(a / 2, b / 2) + r) / 2 == And(a / 2, b / 2);
    assert (2 * And(a / 2, b / 2) + r) % 2 == r;
    if k > 0 {
      AndBit(a / 2, b / 2, k - 1);
    }
  }

  /** Anding with 2^m - 1, m ones, keeps a number below 2^m. */
  lemma {:induction false} AndOnes(a: nat, m: nat)
    requires a < Pow2(m)
    ensures And(a, Pow2(m) - 1) == a
    decreases m
  {
    if a != 0 {
      AndOnes(a / 2, m - 1);
      assert (Pow2(m) - 1) / 2 == Pow2(m - 1) - 1;
    }
  }

  lemma {:induction false} Pow2Add(a: nat, b: nat)
    ensures Pow2(a + b) == Pow2(a) * Pow2(b)
  {
    if a > 0 {
      Pow2Add(a - 1, b);
    }
  }

  lemma {:induction false} Pow2Mono(a: nat, b: nat)
    requires a <= b
    ensures Pow2(a) <= Pow2(b)
    decreases b
  {
    if a < b {
      Pow2Mono(a, b - 1);
    }
  }
}
