/** Facts about products and quotients that the solver should not have to rediscover. */
module Arithmetic {

  function Min(a: int, b: int): int {
    if a < b then a else b
  }

  function Max(a: int, b: int): int {
    if a < b then b else a
  }

  lemma MulLe(a: nat, b: int, c: int)
    requires b <= c
    ensures a * b <= a * c && b * a <= c * a
  {
  }

  lemma MulStep(d: nat, p: int, q: int)
    requires p < q
    ensures d * p + d <= d * q
  {
    MulLe(d, p + 1, q);
  }

  lemma DivMonotone(a: nat, b: nat, d: nat)
    requires a <= b && d >= 1
    ensures a / d <= b / d
  {
    if b / d < a / d {
      assert a == d * (a / d) + a % d && b == d * (b / d) + b % d;
      MulStep(d, b / d, a / d);
    }
  }

  lemma DivUnique(v: nat, d: nat, q: nat, r: nat)
    requires d > 0 && v == d * q + r && r < d
    ensures v / d == q && v % d == r
  {
    var q1 := v / d;
    assert v == d * q1 + v % d;
    if q1 > q {
      MulLe(d, q + 1, q1);
    } else if q1 < q {
      MulLe(d, q1 + 1, q);
    }
  }

  lemma MulDiv(a: nat, d: nat)
    requires d >= 1
    ensures a * d / d == a
  {
    assert d * a == a * d;
    DivUnique(a * d, d, a, 0);
  }

  function Power(base: nat, n: nat): nat {
    if n == 0 then 1 else base * Power(base, n - 1)
  }

  lemma {:induction false} PowerPositive(base: nat, n: nat)
    requires base >= 1
    ensures Power(base, n) >= 1
  {
    if n > 0 {
      PowerPositive(base, n - 1);
      MulPositive(base, Power(base, n - 1));
    }
  }

  lemma MulPositive(a: nat, b: nat)
    requires a >= 1 && b >= 1
    ensures a * b >= 1
  {
  }

  /** Growing by the factor b / a once more. */
  lemma Compound(p: nat, q: nat, s: nat, a: nat, b: nat, x: nat, y: nat)
    requires p * a >= q * b && q * x >= s * y
    ensures p * (a * x) >= s * (b * y)
  {
    MulLe(x, q * b, p * a);
    MulLe(b, s * y, q * x);
    assert p * (a * x) == p * a * x;
    assert q * b * x == b * (q * x);
    assert s * (b * y) == b * (s * y);
  }
}
