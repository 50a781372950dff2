/** Inverses modulo a prime. */
module Modular {

  predicate Divides(d: int, n: int)
    requires d > 0
  {
    n % d == 0
  }

  ghost predicate Prime(n: int) {
    n > 1 && forall d | 1 < d < n :: !Divides(d, n)
  }

  lemma MulAtLeast(k: int, n: int)
    requires n > 0
    ensures k >= 1 ==> k * n >= n
    ensures k <= -1 ==> k * n <= -n
  {
    if k >= 1 { assert (k - 1) * n >= 0; }
    if k <= -1 { assert (-k - 1) * n >= 0; }
  }

  /** Quotient and remainder are unique. */
  lemma RemainderUnique(x: int, q: int, r: int, n: int)
    requires n > 0 && x == q * n + r && 0 <= r < n
    ensures x % n == r
  {
    var q', r' := x / n, x % n;
    assert x == q' * n + r';
    assert (q - q') * n == r' - r;
    MulAtLeast(q - q', n);
  }

  /** Greatest common divisor with its Bezout coefficients and the two cofactors. */
  datatype Bezout = Bezout(g: int, x: int, y: int, ka: int, kb: int)

  function Egcd(a: nat, b: nat): (r: Bezout)
    requires a > 0 || b > 0
    ensures r.g > 0
    decreases b
  {
    if b == 0 then Bezout(a, 1, 0, 1, 0)
    else
      Combine(a / b, Egcd(b, a % b))
  }

  /** The coefficients for q * b + m and b from those for b and m. */
  function Combine(q: int, r: Bezout): (c: Bezout)
    ensures c.g == r.g
  {
    Bezout(r.g, r.y, r.x - q * r.y, q * r.ka + r.kb, r.ka)
  }

  ghost predicate Coefficients(a: int, b: int, r: Bezout) {
    a * r.x + b * r.y == r.g && a == r.g * r.ka && b == r.g * r.kb
  }

  lemma {:induction false} EgcdCorrect(a: nat, b: nat)
    requires a > 0 || b > 0
    ensures Coefficients(a, b, Egcd(a, b))
    decreases b
  {
    hide Combine;
    if b == 0 {
      assert Egcd(a, b) == Bezout(a, 1, 0, 1, 0);
    } else {
      hide Coefficients;
      var q, m := a / b, a % b;
      EgcdCorrect(b, m);
      assert a == q * b + m;
      Recombine(q, b, m, Egcd(b, m));
    }
  }

  lemma Recombine(q: int, b: int, m: int, r: Bezout)
    requires Coefficients(b, m, r)
    ensures Coefficients(q * b + m, b, Combine(q, r))
  {
    assert (q * b + m) * r.y == q * b * r.y + m * r.y;
    assert b * (r.x - q * r.y) == b * r.x - q * b * r.y;
    assert q * b == r.g * (q * r.ka);
  }

  /** The inverse of a modulo n. */
  function Invert(a: nat, n: nat): (i: nat)
    requires 0 < a < n
    ensures i < n
  {
    Egcd(a, n).x % n
  }

  lemma DivisorBound(a: int, g: int, k: int)
    requires a > 0 && g > 0 && a == g * k
    ensures g <= a && a % g == 0
  {
    MulAtLeast(k, g);
    RemainderUnique(a, k, 0, g);
  }

  lemma CoprimeToPrime(a: nat, n: nat)
    requires Prime(n) && 0 < a < n
    ensures Egcd(a, n).g == 1
  {
    EgcdCorrect(a, n);
    hide Egcd;
    var r := Egcd(a, n);
    DivisorBound(a, r.g, r.ka);
    DivisorBound(n, r.g, r.kb);
    assert Divides(r.g, n);
  }

  lemma InverseQuotient(a: int, n: int, x: int, y: int, q: int, i: int)
    requires a * x + n * y == 1 && x == q * n + i
    ensures a * i == (-(a * q) - y) * n + 1
  {
    assert a * x == a * (q * n) + a * i;
    assert a * (q * n) == (a * q) * n;
  }

  lemma InverseResidue(a: int, n: int, x: int, y: int)
    requires n > 1 && a * x + n * y == 1
    ensures x % n != 0 && (a * (x % n)) % n == 1
  {
    var q, i := x / n, x % n;
    assert x == q * n + i;
    InverseQuotient(a, n, x, y, q, i);
    RemainderUnique(a * i, -(a * q) - y, 1, n);
  }

  lemma UnitCoefficients(a: int, n: int, r: Bezout)
    requires Coefficients(a, n, r) && r.g == 1
    ensures a * r.x + n * r.y == 1
  {
  }

  /** Modulo a prime every non-zero residue has an inverse, itself a non-zero residue. */
  lemma InvertCorrect(a: nat, n: nat)
    requires Prime(n) && 0 < a < n
    ensures 0 < Invert(a, n) < n && (a * Invert(a, n)) % n == 1
  {
    hide Egcd, Coefficients;
    CoprimeToPrime(a, n);
    EgcdCorrect(a, n);
    UnitCoefficients(a, n, Egcd(a, n));
    InverseResidue(a, n, Egcd(a, n).x, Egcd(a, n).y);
  }

  lemma CancelAlgebra(s: int, r: int, i: int, n: int, q1: int, m: int, q2: int)
    requires r * s == q1 * n + m && r * i == q2 * n + 1
    ensures m * i == (s * q2 - q1 * i) * n + s
  {
    calc {
      m * i;
      (r * s - q1 * n) * i;
      (r * s) * i - (q1 * n) * i;
      { assert (r * s) * i == s * (r * i) && (q1 * n) * i == (q1 * i) * n; }
      s * (q2 * n + 1) - (q1 * i) * n;
      { assert s * (q2 * n + 1) == (s * q2) * n + s; }
      (s * q2) * n - (q1 * i) * n + s;
      (s * q2 - q1 * i) * n + s;
    }
  }

  /** Multiplying by s * r and then by the inverse of r leaves s. */
  lemma CancelInverse(s: nat, r: nat, n: nat)
    requires Prime(n) && 0 < r < n && s < n
    ensures ((r * s) % n * Invert(r, n)) % n == s
  {
    InvertCorrect(r, n);
    hide Invert;
    var i := Invert(r, n);
    var m, q1, q2 := (r * s) % n, (r * s) / n, (r * i) / n;
    CancelAlgebra(s, r, i, n, q1, m, q2);
    RemainderUnique(m * i, s * q2 - q1 * i, s, n);
  }
}
