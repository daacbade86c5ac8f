/** Facts about Euclidean division that the solver does not find unaided. */
module Arith {
  lemma MulAtLeast(d: int, b: int)
    requires d >= 1 && b > 0
    ensures d * b >= b
  {
    if d > 1 {
      MulAtLeast(d - 1, b);
      assert d * b == (d - 1) * b + b;
    }
  }

  /** Quotient and remainder are unique: `q * b + r` with `0 <= r < b` has
      remainder `r` and quotient `q`. */
  lemma ModUnique(a: int, b: int, q: int, r: int)
    requires b > 0 && 0 <= r < b && a == q * b + r
    ensures a % b == r && a / b == q
  {
    var q', r' := a / b, a % b;
    assert a == q' * b + r';
    if q > q' {
      MulAtLeast(q - q', b);
    } else if q < q' {
      MulAtLeast(q' - q, b);
    }
  }

  /** Adding multiples of `b` leaves the remainder modulo `b` unchanged. */
  lemma ModMultiple(a: int, m: int, b: int)
    requires b > 0
    ensures (a + m * b) % b == a % b
  {
    var q := a / b;
    assert a == q * b + a % b;
    assert a + m * b == (q + m) * b + a % b;
    ModUnique(a + m * b, b, q + m, a % b);
  }

  /** A factor may be reduced modulo `b` before multiplying. */
  lemma MulMod(x: nat, y: nat, b: nat)
    requires b > 0
    ensures (x * y) % b == ((x % b) * y) % b
  {
    var q, r := x / b, x % b;
    assert x * y == r * y + (q * y) * b;
    ModMultiple(r * y, q * y, b);
  }
}
