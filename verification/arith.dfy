/** Facts about products of reals that the solver does not find on its own. */
module Arith {

  lemma NonNegativeProduct(x: real, y: real)
    requires x >= 0.0 && y >= 0.0
    ensures x * y >= 0.0
  {
  }

  lemma PositiveProduct(x: real, y: real)
    requires x > 0.0 && y > 0.0
    ensures x * y > 0.0
  {
  }

  /** Multiplication of non-negative reals is monotone in both factors. */
  lemma MulMonotone(a: real, b: real, c: real, d: real)
    requires 0.0 <= a <= b && 0.0 <= c <= d
    ensures a * c <= b * d
  {
    NonNegativeProduct(a, d - c);
    NonNegativeProduct(b - a, d);
    var ac, ad, bd := a * c, a * d, b * d;
    assert ad - ac == a * (d - c);
    assert bd - ad == (b - a) * d;
  }
}
