/** Facts about squares and quotients of real numbers. */
module Reals {

  /** A square; naming it keeps the solver from rewriting comparisons of x * x with 0. */
  function Squared(x: real): real { x * x }

  lemma SquarePositive(x: real)
    ensures Squared(x) >= 0.0
  {
  }

  lemma ProductPositive(x: real, y: real)
    requires x > 0.0 && y > 0.0
    ensures x * y > 0.0
  {
  }

  /** A product; naming it keeps x * x apart from a product of two names. */
  function Times(x: real, y: real): real { x * y }

  lemma TimesPositive(x: real, y: real)
    requires (x > 0.0 && y > 0.0) || (x < 0.0 && y < 0.0)
    ensures Times(x, y) > 0.0
  {
    if x > 0.0 { ProductPositive(x, y); } else { ProductPositive(-x, -y); }
  }

  lemma SquareTimes(x: real)
    ensures Squared(x) == Times(x, x)
  {
  }

  lemma SquareStrict(x: real)
    requires x != 0.0
    ensures Squared(x) > 0.0
  {
    hide Squared, Times;
    SquareTimes(x);
    TimesPositive(x, x);
  }

  lemma SquareOfSum(x: real, y: real)
    ensures Squared(x + y) == Squared(x) + 2.0 * (x * y) + Squared(y)
  {
    var s := x + y;
    assert Squared(s) == x * s + y * s;
    assert x * s == x * x + x * y;
    assert y * s == x * y + y * y;
  }

  lemma SquareOfProduct(x: real, y: real)
    ensures Squared(x * y) == Squared(x) * Squared(y)
  {
    var w := x * y;
    assert w * w == x * (y * w);
    assert y * w == x * (y * y);
    assert x * (x * (y * y)) == (x * x) * (y * y);
  }

  lemma SquareOfDifference(x: real, y: real)
    ensures Squared(x - y) == Squared(x) - 2.0 * (x * y) + Squared(y)
  {
    var d := x - y;
    assert Squared(d) == x * d - y * d;
    assert x * d == x * x - x * y;
    assert y * d == x * y - y * y;
  }

  lemma DifferenceBound(x: real, y: real)
    ensures 0.0 <= Squared(x - y) <= 2.0 * Squared(x) + 2.0 * Squared(y)
  {
    SquareOfSum(x, y);
    SquareOfDifference(x, y);
    SquarePositive(x + y);
    SquarePositive(x - y);
  }

  /** Comparing a quotient with a number is comparing products. */
  lemma QuotientOrder(a: real, n: real, b: real)
    requires n > 0.0
    ensures a / n <= b <==> a <= b * n
    ensures a / n >= b <==> a >= b * n
  {
    var t := a / n;
    assert t * n == a;
    if t < b { assert (b - t) * n > 0.0; }
    if t > b { assert (t - b) * n > 0.0; }
  }
}
