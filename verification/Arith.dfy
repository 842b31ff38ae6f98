/** Integer division as the C source sees it, and the few facts about it the clocks rest on. */
module Arith {

  /** C's `/` on signed operands with a positive divisor: rounds toward zero. */
  function TruncDiv(a: int, b: int): (q: int)
    requires b > 0
  {
    if a >= 0 then a / b else -((-a) / b)
  }

  /** C's `%` on signed operands: takes the sign of the dividend. */
  function TruncMod(a: int, b: int): (r: int)
    requires b > 0
  {
    a - b * TruncDiv(a, b)
  }

  lemma MulAtLeast(b: int, x: int)
    requires b > 0 && x >= 1
    ensures b * x >= b
  {
  }

  lemma MulNonNegative(a: int, b: int)
    requires a >= 0 && b >= 0
    ensures a * b >= 0
  {
  }

  lemma DivNonNegative(a: int, b: int)
    requires a >= 0 && b > 0
    ensures a / b >= 0
  {
  }

  /** No two quotients share a remainder range. */
  lemma QuotientUnique(b: int, q: int, r: int, q': int, r': int)
    requires b > 0 && 0 <= r < b && 0 <= r' < b
    requires b * q + r == b * q' + r'
    ensures q == q' && r == r'
  {
    if q > q' {
      MulAtLeast(b, q - q');
    } else if q < q' {
      MulAtLeast(b, q' - q);
    }
  }

  lemma DivUnique(a: int, b: int, q: int, r: int)
    requires b > 0 && a == b * q + r && 0 <= r < b
    ensures a / b == q && a % b == r
  {
    QuotientUnique(b, q, r, a / b, a % b);
  }

  lemma MulAssoc(a: int, b: int, c: int)
    ensures a * (b * c) == (a * b) * c
  {
  }

  /** Two-stage division with remainders, as one stage. */
  lemma Regroup(a: int, b: int, c: int, q: int, r: int, q2: int, r2: int)
    requires b > 0 && c > 0 && 0 <= r < b && 0 <= r2 < c
    requires a == b * q + r && q == c * q2 + r2
    ensures b * c > 0 && 0 <= b * r2 + r < b * c && a == (b * c) * q2 + (b * r2 + r)
  {
    MulAtLeast(b, c);
    MulAtLeast(b, c - r2);
    assert b * (c - r2) == b * c - b * r2;
    MulNonNegative(b, r2);
    MulAssoc(b, c, q2);
    assert b * q == b * (c * q2) + b * r2;
  }

  lemma DivDiv(a: int, b: int, c: int)
    requires b > 0 && c > 0
    ensures b * c > 0 && a / (b * c) == a / b / c
  {
    var q := a / b;
    Regroup(a, b, c, q, a % b, q / c, q % c);
    DivUnique(a, b * c, q / c, b * (q % c) + a % b);
  }

  /** Adding whole multiples of the divisor moves the quotient by exactly that many. */
  lemma DivShift(a: int, b: int, k: int)
    requires b > 0
    ensures (a + k * b) / b == a / b + k
  {
    assert b * (a / b + k) == b * (a / b) + k * b;
    DivUnique(a + k * b, b, a / b + k, a % b);
  }
}
