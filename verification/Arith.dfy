/** Division facts the solver does not find by itself. */
module Arith {

  lemma MulLe(d: nat, a: int, b: int)
    requires a <= b
    ensures d * a <= d * b
  {
  }

  lemma MulCancel(d: nat, a: int, b: int)
    requires d * a < d * b
    ensures a < b
  {
    if b <= a {
      MulLe(d, b, a);
    }
  }

  lemma MulCancelLe(d: nat, a: int, b: int)
    requires d > 0 && d * a <= d * b
    ensures a <= b
  {
    assert d * (b + 1) == d * b + d;
    MulCancel(d, a, b + 1);
  }

  /** The quotient is the only number that fits. */
  lemma DivIs(x: int, d: nat, q: int)
    requires d > 0 && d * q <= x < d * q + d
    ensures x / d == q
  {
    assert x == d * (x / d) + x % d;
    assert d * (q + 1) == d * q + d && d * (x / d + 1) == d * (x / d) + d;
    MulCancel(d, q, x / d + 1);
    MulCancel(d, x / d, q + 1);
  }

  /** The same for the remainder. */
  lemma ModIs(x: nat, d: nat, q: nat, r: nat)
    requires x == r + d * q && r < d
    ensures x % d == r
    ensures x < d <==> q == 0
  {
    DivIs(x, d, q);
    assert x == d * (x / d) + x % d;
    if q > 0 {
      MulLe(d, 1, q);
    }
  }

  lemma DivBounds(x: int, d: nat)
    requires d > 0
    ensures d * (x / d) <= x < d * (x / d) + d
  {
  }

  lemma DivNonneg(x: nat, d: nat)
    requires d > 0
    ensures x / d >= 0
  {
    DivBounds(x, d);
    assert d * (x / d + 1) == d * (x / d) + d;
    MulCancel(d, 0, x / d + 1);
  }

  /** DIV64_U64_ROUND_UP */
  function CeilDiv(x: nat, d: nat): (q: nat)
    requires d > 0
    ensures x <= d * q < x + d
  {
    DivBounds(x + d - 1, d);
    (x + d - 1) / d
  }

  lemma CeilIs(x: nat, d: nat, q: nat)
    requires d > 0 && x <= d * q < x + d
    ensures CeilDiv(x, d) == q
  {
    DivIs(x + d - 1, d, q);
  }
}
