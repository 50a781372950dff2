/** What the coefficient of multi_chain_probe.py means: scale, origin and order do not matter, 1 and -1 are lines. */
module PearsonExact {
  import opened Bounds
  import opened Pearson
  import opened Reals
  import opened Sums

  /** The square root of the spread around the mean. */
  function Width(root: real -> real, xs: seq<real>): real
    requires xs != []
  {
    root(Spread(xs, Mean(xs)))
  }

  /** Enough samples, as many on both sides, and neither side flat. */
  ghost predicate Measurable(root: real -> real, xs: seq<real>, ys: seq<real>) {
    IsRoot(root) && |xs| == |ys| >= 5 && Width(root, xs) >= 0.000000000001 && Width(root, ys) >= 0.000000000001
  }

  ghost predicate Affine(xs: seq<real>, ys: seq<real>, a: real, b: real) {
    |xs| == |ys| && forall i | 0 <= i < |xs| :: ys[i] == a * xs[i] + b
  }

  /** The coefficient in terms of the three sums. */
  lemma Quotient(root: real -> real, xs: seq<real>, ys: seq<real>)
    requires Measurable(root, xs, ys)
    ensures var dx, dy, c := Width(root, xs), Width(root, ys), Codeviation(xs, Mean(xs), ys, Mean(ys), |xs|);
      && dx > 0.0 && dy > 0.0 && Correlation(root, xs, ys) * (dx * dy) == c
      && Squared(dx) == Spread(xs, Mean(xs)) && Squared(dy) == Spread(ys, Mean(ys))
  {
    hide Codeviation, Spread, Sum, Squared;
    SpreadPositive(xs, Mean(xs));
    SpreadPositive(ys, Mean(ys));
    var dx, dy := Width(root, xs), Width(root, ys);
    ProductPositive(dx, dy);
    Ratio(Codeviation(xs, Mean(xs), ys, Mean(ys), |xs|), dx * dy);
  }

  lemma Ratio(c: real, w: real)
    requires w > 0.0
    ensures c / w * w == c
  {
  }

  /** A coefficient is determined by the product it forms with the two widths. */
  lemma QuotientIs(r: real, r': real, w: real)
    requires w > 0.0 && r * w == r' * w
    ensures r == r'
  {
    assert (r - r') * w == 0.0;
  }

  // ---------- symmetry ----------

  lemma {:induction false} CodeviationSymmetric(xs: seq<real>, mx: real, ys: seq<real>, my: real, k: nat)
    requires k <= |xs| && k <= |ys|
    ensures Codeviation(xs, mx, ys, my, k) == Codeviation(ys, my, xs, mx, k)
  {
    if k > 0 { CodeviationSymmetric(xs, mx, ys, my, k - 1); }
  }

  /** Two series of one length correlate the same in either order. */
  lemma CorrelationSymmetric(root: real -> real, xs: seq<real>, ys: seq<real>)
    requires |xs| == |ys|
    ensures Correlation(root, xs, ys) == Correlation(root, ys, xs)
  {
    hide Codeviation, Spread, Sum;
    if |xs| >= 5 { CodeviationSymmetric(xs, Mean(xs), ys, Mean(ys), |xs|); }
  }

  // ---------- scale and origin ----------

  lemma {:induction false} AffineSum(xs: seq<real>, ys: seq<real>, a: real, b: real)
    requires Affine(xs, ys, a, b)
    ensures Sum(ys) == Times(a, Sum(xs)) + Times(|xs| as real, b)
  {
    if xs != [] {
      hide Affine, Times;
      AffineLast(xs, ys, a, b);
      AffineSum(xs[..|xs| - 1], ys[..|ys| - 1], a, b);
      AffineTerm(a, Sum(xs[..|xs| - 1]), xs[|xs| - 1], (|xs| - 1) as real, b);
    }
  }

  lemma AffineLast(xs: seq<real>, ys: seq<real>, a: real, b: real)
    requires Affine(xs, ys, a, b) && xs != []
    ensures |xs| == |ys| && ys[|ys| - 1] == Times(a, xs[|xs| - 1]) + b
    ensures Affine(xs[..|xs| - 1], ys[..|ys| - 1], a, b)
  {
  }

  lemma AffineTerm(a: real, s: real, x: real, n: real, b: real)
    ensures (Times(a, s) + Times(n, b)) + (Times(a, x) + b) == Times(a, s + x) + Times(n + 1.0, b)
  {
  }

  lemma CodeviationLast(xs: seq<real>, mx: real, ys: seq<real>, my: real, k: nat, x: real, y: real)
    requires 0 < k <= |xs| && k <= |ys| && x == xs[k - 1] - mx && y == ys[k - 1] - my
    ensures Codeviation(xs, mx, ys, my, k) == Codeviation(xs, mx, ys, my, k - 1) + Times(x, y)
  {
  }

  lemma AffineMean(xs: seq<real>, ys: seq<real>, a: real, b: real)
    requires Affine(xs, ys, a, b) && xs != []
    ensures Mean(ys) == a * Mean(xs) + b
  {
    hide Sum;
    AffineSum(xs, ys, a, b);
    var n := |xs| as real;
    Ratio(Sum(xs), n);
    Ratio(Sum(ys), n);
    assert (a * Mean(xs) + b) * n == a * (Mean(xs) * n) + n * b;
    QuotientIs(Mean(ys), a * Mean(xs) + b, n);
  }

  /** Deviations from the means are scaled by the factor of the map. */
  lemma AffineDeviation(xs: seq<real>, ys: seq<real>, a: real, b: real, i: nat)
    requires Affine(xs, ys, a, b) && i < |xs|
    ensures ys[i] - Mean(ys) == Times(a, xs[i] - Mean(xs))
  {
    hide Mean;
    AffineMean(xs, ys, a, b);
    assert a * (xs[i] - Mean(xs)) == a * xs[i] - a * Mean(xs);
  }

  lemma AffineDeviations(xs: seq<real>, ys: seq<real>, a: real, b: real)
    requires Affine(xs, ys, a, b)
    ensures forall i | 0 <= i < |xs| :: ys[i] - Mean(ys) == Times(a, xs[i] - Mean(xs))
  {
    hide Mean, Times;
    forall i | 0 <= i < |xs| ensures ys[i] - Mean(ys) == Times(a, xs[i] - Mean(xs)) {
      AffineDeviation(xs, ys, a, b, i);
    }
  }

  lemma {:induction false} ScaledCodeviation(xs: seq<real>, mx: real, ys: seq<real>, my: real,
                                             zs: seq<real>, mz: real, a: real, k: nat)
    requires k <= |xs| && k <= |ys| && k <= |zs|
    requires forall i | 0 <= i < k :: zs[i] - mz == Times(a, ys[i] - my)
    ensures Codeviation(xs, mx, zs, mz, k) == Times(a, Codeviation(xs, mx, ys, my, k))
  {
    if k > 0 {
      hide Codeviation, Times;
      ScaledCodeviation(xs, mx, ys, my, zs, mz, a, k - 1);
      var x, y, z := xs[k - 1] - mx, ys[k - 1] - my, zs[k - 1] - mz;
      CodeviationLast(xs, mx, ys, my, k, x, y);
      CodeviationLast(xs, mx, zs, mz, k, x, z);
      ScaledTerm(a, Codeviation(xs, mx, ys, my, k - 1), x, y, z);
    } else {
      hide Codeviation;
      NothingYet(xs, mx, ys, my, zs, mz, a);
    }
  }

  lemma NothingYet(xs: seq<real>, mx: real, ys: seq<real>, my: real, zs: seq<real>, mz: real, a: real)
    ensures Codeviation(xs, mx, zs, mz, 0) == Times(a, Codeviation(xs, mx, ys, my, 0))
  {
  }

  lemma ScaledTerm(a: real, c: real, x: real, y: real, z: real)
    requires z == Times(a, y)
    ensures Times(a, c) + Times(x, z) == Times(a, c + Times(x, y))
  {
    assert x * (a * y) == a * (x * y);
  }

  lemma {:induction false} ScaledSpread(ys: seq<real>, my: real, zs: seq<real>, mz: real, a: real)
    requires |ys| == |zs| && forall i | 0 <= i < |ys| :: zs[i] - mz == Times(a, ys[i] - my)
    ensures Spread(zs, mz) == Times(Squared(a), Spread(ys, my))
  {
    hide Squared, Times, Spread;
    if ys == [] {
      NothingSpreads(ys, my, zs, mz, a);
    } else {
      var y, z := ys[|ys| - 1] - my, zs[|zs| - 1] - mz;
      ScaledSpread(ys[..|ys| - 1], my, zs[..|zs| - 1], mz, a);
      SpreadLast(ys, my, y);
      SpreadLast(zs, mz, z);
      ScaledSquare(a, Spread(ys[..|ys| - 1], my), y, z);
    }
  }

  lemma NothingSpreads(ys: seq<real>, my: real, zs: seq<real>, mz: real, a: real)
    requires ys == [] && zs == []
    ensures Spread(zs, mz) == Times(Squared(a), Spread(ys, my))
  {
  }

  lemma SpreadLast(s: seq<real>, m: real, d: real)
    requires s != [] && d == s[|s| - 1] - m
    ensures Spread(s, m) == Spread(s[..|s| - 1], m) + Squared(d)
  {
  }

  lemma ScaledSquare(a: real, s: real, y: real, z: real)
    requires z == Times(a, y)
    ensures Times(Squared(a), s) + Squared(z) == Times(Squared(a), s + Squared(y))
  {
    hide Squared;
    SquareOfProduct(a, y);
    assert Squared(a) * (s + Squared(y)) == Squared(a) * s + Squared(a) * Squared(y);
  }

  lemma SquaresEqual(u: real, v: real)
    requires u > 0.0 && v > 0.0 && Squared(u) == Squared(v)
    ensures u == v
  {
    assert Squared(u) - Squared(v) == (u - v) * (u + v);
    assert (u - v) * (u + v) == 0.0;
  }

  lemma AbsSquared(a: real)
    requires a != 0.0
    ensures Abs(a) > 0.0 && Squared(Abs(a)) == Squared(a)
  {
  }

  /** The width of a scaled series. */
  lemma ScaledWidth(a: real, dy: real, dz: real)
    requires a != 0.0 && dy > 0.0 && dz > 0.0 && Squared(dz) == Times(Squared(a), Squared(dy))
    ensures dz == Abs(a) * dy
  {
    hide Squared, Abs;
    AbsSquared(a);
    var m, d, e := Abs(a), Squared(dy), Squared(a);
    var v := m * dy;
    assert Squared(v) == Squared(m) * d by { SquareOfProduct(m, dy); }
    assert Squared(m) * d == e * d;
    ProductPositive(m, dy);
    SquaresEqual(dz, v);
  }

  function Sign(a: real): real { if a < 0.0 then -1.0 else 1.0 }

  lemma SignedRatio(r: real, r': real, dx: real, dy: real, dz: real, a: real, c: real)
    requires dx > 0.0 && dy > 0.0 && a != 0.0 && dz == Abs(a) * dy
    requires r * (dx * dy) == c && r' * (dx * dz) == Times(a, c)
    ensures r' == Sign(a) * r
  {
    var w, m := dx * dy, Abs(a);
    ProductPositive(dx, dy);
    assert dx * dz == m * w;
    assert m == Sign(a) * a && m > 0.0;
    ProductPositive(m, w);
    assert (Sign(a) * r) * (m * w) == (Sign(a) * m) * (r * w);
    assert Sign(a) * m == a;
    QuotientIs(r', Sign(a) * r, m * w);
  }

  /** Another unit or origin on one side leaves the coefficient as it is, or turns its sign with the direction. */
  lemma CorrelationRescaled(root: real -> real, xs: seq<real>, ys: seq<real>, zs: seq<real>, a: real, b: real)
    requires Measurable(root, xs, ys) && Measurable(root, xs, zs) && Affine(ys, zs, a, b) && a != 0.0
    ensures Correlation(root, xs, zs) == Sign(a) * Correlation(root, xs, ys)
  {
    hide Correlation, Codeviation, Spread, Sum, Mean, Width, Squared, Abs, Sign, Times;
    AffineDeviations(ys, zs, a, b);
    Quotient(root, xs, ys);
    Quotient(root, xs, zs);
    ScaledSums(xs, Mean(xs), ys, Mean(ys), zs, Mean(zs), a, Width(root, ys), Width(root, zs));
    SignedRatio(Correlation(root, xs, ys), Correlation(root, xs, zs), Width(root, xs), Width(root, ys), Width(root, zs),
                a, Codeviation(xs, Mean(xs), ys, Mean(ys), |xs|));
  }

  lemma ScaledSums(xs: seq<real>, mx: real, ys: seq<real>, my: real, zs: seq<real>, mz: real, a: real,
                   dy: real, dz: real)
    requires |xs| == |ys| == |zs| && a != 0.0 && dy > 0.0 && dz > 0.0
    requires Squared(dy) == Spread(ys, my) && Squared(dz) == Spread(zs, mz)
    requires forall i | 0 <= i < |ys| :: zs[i] - mz == Times(a, ys[i] - my)
    ensures Codeviation(xs, mx, zs, mz, |xs|) == Times(a, Codeviation(xs, mx, ys, my, |xs|)) && dz == Abs(a) * dy
  {
    hide Codeviation, Spread, Squared, Abs, Times;
    ScaledCodeviation(xs, mx, ys, my, zs, mz, a, |xs|);
    ScaledSpread(ys, my, zs, mz, a);
    ScaledWidth(a, dy, dz);
  }

  // ---------- the extreme values ----------

  lemma {:induction false} SelfCodeviation(xs: seq<real>, m: real, k: nat)
    requires k <= |xs|
    ensures Codeviation(xs, m, xs, m, k) == Spread(xs[..k], m)
  {
    if k > 0 {
      SelfCodeviation(xs, m, k - 1);
      assert xs[..k][..k - 1] == xs[..k - 1];
    }
  }

  /** A series that is not flat correlates with itself perfectly. */
  lemma SelfIsOne(root: real -> real, xs: seq<real>)
    requires Measurable(root, xs, xs)
    ensures Correlation(root, xs, xs) == 1.0
  {
    Quotient(root, xs, xs);
    SelfCodeviation(xs, Mean(xs), |xs|);
    assert xs[..|xs|] == xs;
    var d := Width(root, xs);
    hide Correlation, Measurable, Codeviation, Spread, Mean, Width;
    ProductPositive(d, d);
    QuotientIs(Correlation(root, xs, xs), 1.0, d * d);
  }

  function Mix(p: real, q: real, x: real, y: real): real { p * x + q * y }

  /** The sum of squares of p x + q y over the first k deviations. */
  function Residue(p: real, q: real, xs: seq<real>, mx: real, ys: seq<real>, my: real, k: nat): real
    requires k <= |xs| && k <= |ys|
  {
    if k == 0 then 0.0
    else Residue(p, q, xs, mx, ys, my, k - 1) + Squared(Mix(p, q, xs[k - 1] - mx, ys[k - 1] - my))
  }

  /** A quadratic form in p and q. */
  function Form(p: real, q: real, s: real, c: real, t: real): real {
    Squared(p) * s + 2.0 * (p * q) * c + Squared(q) * t
  }

  lemma SquareOfMixed(p: real, q: real, a: real, b: real)
    ensures Squared(Mix(p, q, a, b)) == Form(p, q, Squared(a), Times(a, b), Squared(b))
  {
    hide Squared;
    SquareOfSum(p * a, q * b);
    SquareOfProduct(p, a);
    SquareOfProduct(q, b);
    assert (p * a) * (q * b) == (p * q) * (a * b);
  }

  lemma FormAdds(p: real, q: real, s: real, c: real, t: real, s': real, c': real, t': real)
    ensures Form(p, q, s + s', c + c', t + t') == Form(p, q, s, c, t) + Form(p, q, s', c', t')
  {
    var e, f, g := Squared(p), 2.0 * (p * q), Squared(q);
    assert e * (s + s') == e * s + e * s';
    assert f * (c + c') == f * c + f * c';
    assert g * (t + t') == g * t + g * t';
  }

  lemma ResidueLast(p: real, q: real, xs: seq<real>, mx: real, ys: seq<real>, my: real, k: nat, a: real, b: real)
    requires 0 < k <= |xs| && k <= |ys| && a == xs[k - 1] - mx && b == ys[k - 1] - my
    ensures Residue(p, q, xs, mx, ys, my, k)
         == Residue(p, q, xs, mx, ys, my, k - 1) + Form(p, q, Squared(a), Times(a, b), Squared(b))
  {
    hide Squared, Form, Mix;
    SquareOfMixed(p, q, a, b);
  }

  lemma {:induction false} ResidueExact(p: real, q: real, xs: seq<real>, mx: real, ys: seq<real>, my: real, k: nat)
    requires k <= |xs| && k <= |ys|
    ensures Residue(p, q, xs, mx, ys, my, k)
         == Form(p, q, Spread(xs[..k], mx), Codeviation(xs, mx, ys, my, k), Spread(ys[..k], my))
  {
    hide Squared, Form, Times, Spread, Codeviation, Residue;
    if k > 0 {
      ResidueExact(p, q, xs, mx, ys, my, k - 1);
      PrefixSpread(xs, mx, k - 1);
      PrefixSpread(ys, my, k - 1);
      var a, b, c := xs[k - 1] - mx, ys[k - 1] - my, Codeviation(xs, mx, ys, my, k - 1);
      CodeviationLast(xs, mx, ys, my, k, a, b);
      ResidueLast(p, q, xs, mx, ys, my, k, a, b);
      FormAdds(p, q, Spread(xs[..k - 1], mx), c, Spread(ys[..k - 1], my), Squared(a), Times(a, b), Squared(b));
    } else {
      ResidueOfNothing(p, q, xs, mx, ys, my);
    }
  }

  lemma ResidueOfNothing(p: real, q: real, xs: seq<real>, mx: real, ys: seq<real>, my: real)
    ensures Residue(p, q, xs, mx, ys, my, 0)
         == Form(p, q, Spread(xs[..0], mx), Codeviation(xs, mx, ys, my, 0), Spread(ys[..0], my))
  {
    assert xs[..0] == [] && ys[..0] == [];
  }

  /** A sum of squares is zero only if every term is. */
  lemma {:induction false} ResidueZero(p: real, q: real, xs: seq<real>, mx: real, ys: seq<real>, my: real, k: nat)
    requires k <= |xs| && k <= |ys|
    ensures Residue(p, q, xs, mx, ys, my, k) >= 0.0
    ensures Residue(p, q, xs, mx, ys, my, k) == 0.0 ==>
      forall i | 0 <= i < k :: Mix(p, q, xs[i] - mx, ys[i] - my) == 0.0
  {
    hide Squared, Mix;
    if k > 0 {
      var t := Mix(p, q, xs[k - 1] - mx, ys[k - 1] - my);
      ResidueZero(p, q, xs, mx, ys, my, k - 1);
      SquarePositive(t);
      if t != 0.0 { SquareStrict(t); }
    }
  }

  lemma Cancels(dx: real, dy: real, s: real, c: real)
    requires (s == 1.0 || s == -1.0) && c == s * (dx * dy)
    ensures Form(dy, -s * dx, Squared(dx), c, Squared(dy)) == 0.0
  {
    var w := dx * dy;
    SquareOfProduct(dx, dy);
    assert Squared(-s * dx) == Squared(dx);
    assert dy * (-s * dx) == -s * w;
    assert -s * w * (s * w) == -Squared(w);
  }

  lemma OnLine(dx: real, dy: real, s: real, x: real, y: real)
    requires dx > 0.0 && (s == 1.0 || s == -1.0) && Mix(dy, -s * dx, x, y) == 0.0
    ensures y == s * (dy / dx) * x
  {
    var t := dy / dx;
    assert t * dx == dy;
    assert (s * t * x) * dx == s * (dy * x);
    assert s * (s * dx * y) == dx * y;
    QuotientIs(y, s * t * x, dx);
  }

  lemma AllOnLine(dx: real, dy: real, s: real, xs: seq<real>, mx: real, ys: seq<real>, my: real, a: real, b: real)
    requires |xs| == |ys| && dx > 0.0 && dy > 0.0 && (s == 1.0 || s == -1.0)
    requires a == s * (dy / dx) && b == my - a * mx
    requires forall i | 0 <= i < |xs| :: Mix(dy, -s * dx, xs[i] - mx, ys[i] - my) == 0.0
    ensures Affine(xs, ys, a, b) && a * s > 0.0
  {
    forall i | 0 <= i < |xs| ensures ys[i] == a * xs[i] + b {
      OnLine(dx, dy, s, xs[i] - mx, ys[i] - my);
      assert a * (xs[i] - mx) == a * xs[i] - a * mx;
    }
    QuotientOrder(dy, dx, 0.0);
  }

  /** A coefficient of 1 or -1 puts all points on one line, rising or falling. */
  lemma ExtremeOnLine(root: real -> real, xs: seq<real>, ys: seq<real>, s: real) returns (a: real, b: real)
    requires Measurable(root, xs, ys) && (s == 1.0 || s == -1.0) && Correlation(root, xs, ys) == s
    ensures Affine(xs, ys, a, b) && a * s > 0.0
  {
    hide Correlation, Codeviation, Spread, Mean, Width, Squared, Affine, Mix;
    Quotient(root, xs, ys);
    var dx, dy, mx, my := Width(root, xs), Width(root, ys), Mean(xs), Mean(ys);
    MixVanishes(dx, dy, s, xs, mx, ys, my);
    a := s * (dy / dx);
    b := my - a * mx;
    AllOnLine(dx, dy, s, xs, mx, ys, my, a, b);
  }

  lemma MixVanishes(dx: real, dy: real, s: real, xs: seq<real>, mx: real, ys: seq<real>, my: real)
    requires |xs| == |ys| && (s == 1.0 || s == -1.0)
    requires Squared(dx) == Spread(xs, mx) && Squared(dy) == Spread(ys, my)
    requires Codeviation(xs, mx, ys, my, |xs|) == s * (dx * dy)
    ensures forall i | 0 <= i < |xs| :: Mix(dy, -s * dx, xs[i] - mx, ys[i] - my) == 0.0
  {
    hide Codeviation, Spread, Squared, Residue, Form, Mix;
    ResidueExact(dy, -s * dx, xs, mx, ys, my, |xs|);
    assert xs[..|xs|] == xs && ys[..|ys|] == ys;
    Cancels(dx, dy, s, Codeviation(xs, mx, ys, my, |xs|));
    ResidueZero(dy, -s * dx, xs, mx, ys, my, |xs|);
  }

  /** The coefficient is 1 exactly when one series is an increasing affine image of the other, -1 for a falling one. */
  lemma ExtremesExactly(root: real -> real, xs: seq<real>, ys: seq<real>)
    requires Measurable(root, xs, ys)
    ensures Correlation(root, xs, ys) == 1.0 <==> exists a, b :: a > 0.0 && Affine(xs, ys, a, b)
    ensures Correlation(root, xs, ys) == -1.0 <==> exists a, b :: a < 0.0 && Affine(xs, ys, a, b)
  {
    hide Correlation;
    forall a, b | a != 0.0 && Affine(xs, ys, a, b) ensures Correlation(root, xs, ys) == Sign(a) {
      SelfIsOne(root, xs);
      CorrelationRescaled(root, xs, xs, ys, a, b);
    }
    if Correlation(root, xs, ys) == 1.0 {
      var a, b := ExtremeOnLine(root, xs, ys, 1.0);
    }
    if Correlation(root, xs, ys) == -1.0 {
      var a, b := ExtremeOnLine(root, xs, ys, -1.0);
    }
  }

  /** A constant series correlates with nothing. */
  lemma ConstantIsZero(root: real -> real, xs: seq<real>, ys: seq<real>)
    requires IsRoot(root) && |xs| == |ys|
    requires (forall i | 0 <= i < |xs| :: xs[i] == xs[0]) || (forall i | 0 <= i < |ys| :: ys[i] == ys[0])
    ensures Correlation(root, xs, ys) == 0.0
  {
    hide Codeviation;
    if |xs| >= 5 {
      if forall i | 0 <= i < |xs| :: xs[i] == xs[0] { ConstantWidth(root, xs); } else { ConstantWidth(root, ys); }
    }
  }

  lemma ConstantWidth(root: real -> real, xs: seq<real>)
    requires IsRoot(root) && xs != [] && forall i | 0 <= i < |xs| :: xs[i] == xs[0]
    ensures Width(root, xs) == 0.0
  {
    hide Squared;
    assert Affine(xs, xs, 0.0, xs[0]);
    forall i | 0 <= i < |xs| ensures xs[i] - Mean(xs) == 0.0 * (xs[i] - Mean(xs)) {
      AffineDeviation(xs, xs, 0.0, xs[0], i);
    }
    hide Spread, Mean;
    ScaledSpread(xs, Mean(xs), xs, Mean(xs), 0.0);
    assert Squared(0.0) == 0.0 by { ZeroSquared(); }
    if root(0.0) != 0.0 { SquareStrict(root(0.0)); }
  }

  lemma ZeroSquared()
    ensures Squared(0.0) == 0.0
  {
  }

  /** Nor do fewer than five samples. */
  lemma FewAreZero(root: real -> real, xs: seq<real>, ys: seq<real>)
    requires |xs| < 5
    ensures Correlation(root, xs, ys) == 0.0
  {
  }

  // ---------- in the report ----------

  /** The samples of a pair that count: the latest ones of each buffer, as many as the shortest buffer has. */
  ghost predicate Latest(snap: Snapshot, p: Pair, xs: seq<real>, ys: seq<real>) {
    && snap.Valid() && p.0 < p.1 < |snap.chains| && |xs| == |ys| == snap.len
    && xs == snap.rtt[p.0][|snap.rtt[p.0]| - snap.len..] && ys == snap.rtt[p.1][|snap.rtt[p.1]| - snap.len..]
  }

  /**
   * What a report says about two chains: their latest samples' coefficient under their names, reported as a pair
   * exactly when it exceeds 0.85 either way, and never above the reported maximum.
   */
  lemma ReportedPair(snap: Snapshot, p: Pair, xs: seq<real>, ys: seq<real>)
    requires Latest(snap, p, xs, ys)
    ensures var r, report, all := Correlation(snap.root, xs, ys), snap.Published(), AllPairs(|snap.chains|);
      && snap.Covers(all)
      && (snap.KeysDistinct(all) ==>
            var key := snap.chains[p.0] + "_" + snap.chains[p.1];
            key in report.matrix && report.matrix[key] == snap.round(r))
      && (Abs(r) > 0.85 ==> (snap.chains[p.0], snap.chains[p.1], snap.round(r)) in report.syncPairs)
      && (Abs(r) > 0.85 <==> p in snap.Syncs(all))
      && Abs(r) <= snap.Maximum(all) && report.maxCorrelation == snap.round(snap.Maximum(all))
  {
    hide Correlation, Abs;
    var all := AllPairs(|snap.chains|);
    AllPairsOnce(|snap.chains|);
    snap.AllCovered();
    assert snap.Correlate(p) == Correlation(snap.root, xs, ys);
    hide Rows;
    snap.MaximumIsReached(all);
    assert p in all;
    if snap.KeysDistinct(all) {
      snap.MatrixEntries(all);
      var k :| 0 <= k < |all| && all[k] == p;
      assert snap.Key(all[k]) == snap.chains[p.0] + "_" + snap.chains[p.1];
    }
    snap.SyncsExact(all);
    SyncedListed(snap, all, p);
  }

  lemma SyncedListed(snap: Snapshot, all: seq<Pair>, p: Pair)
    requires snap.Valid() && snap.Covers(all) && p in all
    requires multiset(snap.Syncs(all))[p] == if p in all && snap.Synced(p) then multiset(all)[p] else 0
    ensures p.0 < |snap.chains| && p.1 < |snap.chains|
    ensures p in snap.Syncs(all) <==> Abs(snap.Correlate(p)) > 0.85
    ensures p in snap.Syncs(all) ==>
      (snap.chains[p.0], snap.chains[p.1], snap.round(snap.Correlate(p))) in snap.Entries(snap.Syncs(all))
  {
    hide Snapshot.Correlate, Snapshot.Syncs, Abs;
    assert p in multiset(all);
    assert p in snap.Syncs(all) <==> p in multiset(snap.Syncs(all));
    if p in snap.Syncs(all) {
      var k :| 0 <= k < |snap.Syncs(all)| && snap.Syncs(all)[k] == p;
      assert snap.Entries(snap.Syncs(all))[k] in snap.Entries(snap.Syncs(all));
    }
  }

  /** Two chains whose latest samples rise and fall along a line are reported with a coefficient of exactly 1. */
  lemma LockstepReported(snap: Snapshot, p: Pair, xs: seq<real>, ys: seq<real>, a: real, b: real)
    requires Latest(snap, p, xs, ys) && Measurable(snap.root, xs, ys) && Affine(xs, ys, a, b) && a > 0.0
    ensures (snap.chains[p.0], snap.chains[p.1], snap.round(1.0)) in snap.Published().syncPairs
  {
    hide Correlation, Measurable, Affine, Latest;
    ExtremesExactly(snap.root, xs, ys);
    ReportedPair(snap, p, xs, ys);
  }
}
