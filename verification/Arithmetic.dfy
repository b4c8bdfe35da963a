/** Monotonicity of products and quotients. */
module Arithmetic {
  lemma {:induction false} TimesMonotone(d: int, x: int, y: int)
    requires d >= 0 && x <= y
    ensures d * x <= d * y
  {
  }

  lemma {:induction false} QuotientMonotone(a: int, b: int, d: int)
    requires d > 0 && a <= b
    ensures a / d <= b / d
  {
    var p, q := a / d, b / d;
    assert d * p <= a && b < d * q + d;
    if p >= q + 1 {
      TimesMonotone(d, q + 1, p);
      assert false;
    }
  }
}
