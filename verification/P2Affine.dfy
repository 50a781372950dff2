/** The P-square estimate does not depend on the unit or the origin of the samples. */
module P2Affine {
  import opened Sorting
  import opened P2Markers
  import opened P2Heights

  /** A change of unit and origin. */
  function Scale(a: real, b: real): real -> real { x => a * x + b }

  ghost predicate Affine(f: real -> real) { exists a, b :: a > 0.0 && f == Scale(a, b) }

  function Rescaled(f: real -> real, m: Markers): Markers {
    Markers(Map(f, m.q), m.n, m.np)
  }

  lemma ScaleUp(a: real, x: real, y: real)
    requires a > 0.0 && x < y
    ensures a * x < a * y
  {
    var d := y - x;
    assert a * d > 0.0;
    assert a * d == a * y - a * x;
  }

  lemma ScaleOrder(a: real, b: real, x: real, y: real)
    requires a > 0.0
    ensures x < y <==> Scale(a, b)(x) < Scale(a, b)(y)
  {
    if x < y {
      ScaleUp(a, x, y);
    } else if y < x {
      ScaleUp(a, y, x);
    }
  }

  lemma ScaleKeys(a: real, b: real, key: real -> real, x: real, y: real)
    requires a > 0.0 && key == Real
    ensures key(x) <= key(y) <==> key(Scale(a, b)(x)) <= key(Scale(a, b)(y))
  {
    ScaleOrder(a, b, y, x);
  }

  lemma ScaleMonotone(a: real, b: real, key: real -> real)
    requires a > 0.0 && key == Real
    ensures Monotone(key, Scale(a, b))
  {
    var f := Scale(a, b);
    forall x: real, y: real {:trigger key(f(x)), key(f(y))}
      ensures key(x) <= key(y) <==> key(f(x)) <= key(f(y))
    {
      ScaleKeys(a, b, key, x, y);
    }
  }

  lemma ScaleSlope(a: real, c: int, rise: real, rise': real, gap: int)
    requires gap != 0 && rise' == a * rise
    ensures Slope(c, rise', gap) == a * Slope(c, rise, gap)
  {
    var t, g := Slope(c, rise, gap), gap as real;
    assert t * g == c as real * rise;
    assert (a * t) * g == a * (t * g);
    assert c as real * rise' == a * (c as real * rise);
  }

  lemma ScaleSum(a: real, b: real, x: real, w: real, s: real, s': real, t: real, t': real)
    requires s' == a * s && t' == a * t
    ensures (a * x + b) + w * (s' + t') == a * (x + w * (s + t)) + b
  {
    var u := s + t;
    assert s' + t' == a * u;
    assert w * (a * u) == a * (w * u);
    assert a * (x + w * u) == a * x + a * (w * u);
  }

  lemma ScaleParabola(a: real, b: real, q0: real, q1: real, q2: real, r0: real, r1: real, r2: real,
                      n0: int, n1: int, n2: int, d: int)
    requires n0 < n1 < n2
    requires r0 == a * q0 + b && r1 == a * q1 + b && r2 == a * q2 + b
    ensures Parabola(r0, r1, r2, n0, n1, n2, d) == a * Parabola(q0, q1, q2, n0, n1, n2, d) + b
  {
    hide Slope;
    var c, e := n1 - n0 + d, n2 - n1 - d;
    ScaleSlope(a, c, q2 - q1, r2 - r1, n2 - n1);
    ScaleSlope(a, e, q1 - q0, r1 - r0, n1 - n0);
    var s, s' := Slope(c, q2 - q1, n2 - n1), Slope(c, r2 - r1, n2 - n1);
    var t, t' := Slope(e, q1 - q0, n1 - n0), Slope(e, r1 - r0, n1 - n0);
    ScaleSum(a, b, q1, d as real / (n2 - n0) as real, s, s', t, t');
  }

  lemma ScaleParabolic(a: real, b: real, q: seq<real>, n: seq<int>, i: nat, d: int)
    requires |q| == 5 && Increasing(n) && 1 <= i <= 3
    ensures Parabolic(Map(Scale(a, b), q), n, i, d) == Scale(a, b)(Parabolic(q, n, i, d))
  {
    hide Parabola;
    var r := Map(Scale(a, b), q);
    ScaleParabola(a, b, q[i - 1], q[i], q[i + 1], r[i - 1], r[i], r[i + 1], n[i - 1], n[i], n[i + 1], d);
  }

  lemma ScaleLinear(a: real, b: real, q: seq<real>, n: seq<int>, i: nat, d: int)
    requires |q| == 5 && Increasing(n) && 1 <= i <= 3 && (d == 1 || d == -1)
    ensures Linear(Map(Scale(a, b), q), n, i, d) == Scale(a, b)(Linear(q, n, i, d))
  {
    hide Slope;
    var r := Map(Scale(a, b), q);
    var rise, rise', gap := q[i + d] - q[i], r[i + d] - r[i], n[i + d] - n[i];
    ScaleSlope(a, d, rise, rise', gap);
    ScaleSum(a, b, q[i], 1.0, Slope(d, rise, gap), Slope(d, rise', gap), 0.0, 0.0);
  }

  lemma ScaleHeight(a: real, b: real, q: seq<real>, n: seq<int>, i: nat, d: int)
    requires a > 0.0 && |q| == 5 && Increasing(n) && 1 <= i <= 3 && (d == 1 || d == -1)
    ensures Height(Map(Scale(a, b), q), n, i, d) == Scale(a, b)(Height(q, n, i, d))
  {
    hide Parabolic, Linear;
    ScaleParabolic(a, b, q, n, i, d);
    ScaleLinear(a, b, q, n, i, d);
    ScaleOrder(a, b, q[i - 1], Parabolic(q, n, i, d));
    ScaleOrder(a, b, Parabolic(q, n, i, d), q[i + 1]);
  }

  lemma ScaleAdjust(a: real, b: real, m: Markers, i: nat)
    requires a > 0.0 && Usable(m) && 1 <= i <= 3
    ensures Adjust(Rescaled(Scale(a, b), m), i) == Rescaled(Scale(a, b), Adjust(m, i))
  {
    hide Height;
    var d := Move(m.n, m.np, i);
    if d != 0 {
      ScaleHeight(a, b, m.q, m.n, i, d);
      var h := Height(m.q, m.n, i, d);
      assert Map(Scale(a, b), m.q)[i := Scale(a, b)(h)] == Map(Scale(a, b), m.q[i := h]);
    }
  }

  lemma {:induction false} ScaleAdjustUpTo(a: real, b: real, m: Markers, i: nat)
    requires a > 0.0 && Usable(m) && i <= 3
    ensures AdjustUpTo(Rescaled(Scale(a, b), m), i) == Rescaled(Scale(a, b), AdjustUpTo(m, i))
  {
    hide Adjust;
    if i > 0 {
      ScaleAdjustUpTo(a, b, m, i - 1);
      ScaleAdjust(a, b, AdjustUpTo(m, i - 1), i);
    }
  }

  lemma {:induction false} ScaleScan(a: real, b: real, q: seq<real>, x: real, i: nat)
    requires a > 0.0 && |q| == 5 && i <= 4
    ensures Scan(Map(Scale(a, b), q), Scale(a, b)(x), i) == Scan(q, x, i)
    decreases 4 - i
  {
    if i < 4 {
      ScaleOrder(a, b, x, q[i]);
      ScaleOrder(a, b, x, q[i + 1]);
      ScaleScan(a, b, q, x, i + 1);
    }
  }

  lemma ScalePlace(p: real, a: real, b: real, m: Markers, x: real)
    requires a > 0.0 && Usable(m)
    ensures Place(p, Rescaled(Scale(a, b), m), Scale(a, b)(x)) == Rescaled(Scale(a, b), Place(p, m, x))
  {
    ScaleOrder(a, b, x, m.q[0]);
    ScaleOrder(a, b, x, m.q[4]);
    ScaleScan(a, b, m.q, x, 0);
    assert Widen(Map(Scale(a, b), m.q), Scale(a, b)(x)) == Map(Scale(a, b), Widen(m.q, x));
  }

  lemma ScaleStep(p: real, a: real, b: real, m: Markers, x: real)
    requires a > 0.0 && Usable(m)
    ensures Step(p, Rescaled(Scale(a, b), m), Scale(a, b)(x)) == Rescaled(Scale(a, b), Step(p, m, x))
  {
    ScalePlace(p, a, b, m, x);
    ScaleAdjustUpTo(a, b, Place(p, m, x), 3);
  }

  lemma StartRescaled(p: real, f: real -> real, first: seq<real>)
    requires Affine(f) && |first| == 5
    ensures Start(p, Map(f, first)) == Rescaled(f, Start(p, first))
  {
    var a, b :| a > 0.0 && f == Scale(a, b);
    ScaleMonotone(a, b, Real);
    SortMap(Real, f, first);
  }

  lemma StepRescaled(p: real, f: real -> real, m: Markers, x: real)
    requires Affine(f) && Usable(m)
    ensures Step(p, Rescaled(f, m), f(x)) == Rescaled(f, Step(p, m, x))
  {
    var a, b :| a > 0.0 && f == Scale(a, b);
    ScaleStep(p, a, b, m, x);
  }

  lemma MapExtend<S, T>(f: S -> T, front: seq<S>, x: S)
    ensures Map(f, front + [x]) == Map(f, front) + [f(x)]
  {
  }

  /** Rescaled samples give the same positions and the rescaled heights, after every stream. */
  lemma {:induction false} RunRescaled(p: real, f: real -> real, s: seq<real>)
    requires Affine(f) && |s| >= 5
    ensures Run(p, Map(f, s)) == Rescaled(f, Run(p, s))
  {
    if |s| == 5 {
      StartRescaled(p, f, s);
    } else {
      var front, x := s[..|s| - 1], s[|s| - 1];
      assert s == front + [x];
      MapExtend(f, front, x);
      RunExtend(p, Map(f, front), f(x));
      RunRescaled(p, f, front);
      StepRescaled(p, f, Run(p, front), x);
    }
  }

  lemma EarlyRescaled(p: real, f: real -> real, s: seq<real>)
    requires ValidQuantile(p) && Affine(f) && 1 <= |s| < 5
    ensures Value(p, Map(f, s)) == Estimate(f(Value(p, s).value))
  {
    EarlyIndexInRange(p, |s|);
    var a, b :| a > 0.0 && f == Scale(a, b);
    ScaleMonotone(a, b, Real);
    SortMap(Real, f, s);
  }

  /** The reported value is equivariant at every stream length, early values included. */
  lemma ValueRescaled(p: real, f: real -> real, s: seq<real>)
    requires ValidQuantile(p) && Affine(f) && s != []
    ensures Value(p, Map(f, s)) == Estimate(f(Value(p, s).value))
  {
    if |s| < 5 {
      EarlyRescaled(p, f, s);
    } else {
      RunRescaled(p, f, s);
    }
  }
}
