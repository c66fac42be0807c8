/** The few facts about products and quotients of reals the other proofs need. */
module Fractions {
  lemma Division(x: real, d: real)
    requires d != 0.0
    ensures x / d * d == x
  {
  }

  lemma NegativeProduct(a: real, b: real)
    requires a < 0.0 && b > 0.0
    ensures a * b < 0.0
  {
  }

  lemma NonNegativeFactor(a: real, b: real)
    requires b > 0.0
    ensures a * b >= 0.0 ==> a >= 0.0
    ensures a * b > 0.0 ==> a > 0.0
  {
    if a < 0.0 { NegativeProduct(a, b); }
  }

  lemma Scaled(rise: real, z: real)
    requires rise >= 0.0 && z >= 0.0
    ensures rise * z >= 0.0
  {
  }

  lemma Fraction(a: real, b: real, d: real)
    requires d > 0.0 && 0.0 <= a <= b
    ensures 0.0 <= a / d <= b / d
    ensures b <= d ==> b / d <= 1.0
  {
    var x, y := a / d, b / d;
    Division(a, d);
    Division(b, d);
    NonNegativeFactor(x, d);
    assert (y - x) * d == y * d - x * d;
    NonNegativeFactor(y - x, d);
    assert (1.0 - y) * d == d - y * d;
    NonNegativeFactor(1.0 - y, d);
  }
}
