/** Heights of the P-square markers: order, extremes, and where the estimate lies. */
module P2Heights {
  import opened Sorting
  import opened P2Markers

  ghost predicate Sorted5(q: seq<real>) {
    |q| == 5 && q[0] <= q[1] <= q[2] <= q[3] <= q[4]
  }

  /** The scan always finds the cell of a sample that is not a new extreme. */
  lemma CellContains(q: seq<real>, x: real)
    requires Sorted5(q) && q[0] <= x < q[4]
    ensures q[Cell(q, x)] <= x < q[Cell(q, x) + 1]
  {
    assert x < q[1] ==> Scan(q, x, 0) == 0;
    assert q[1] <= x < q[2] ==> Scan(q, x, 0) == Scan(q, x, 1) == 1;
    assert q[2] <= x < q[3] ==> Scan(q, x, 0) == Scan(q, x, 1) == Scan(q, x, 2) == 2;
    assert q[3] <= x ==> Scan(q, x, 0) == Scan(q, x, 1) == Scan(q, x, 2) == Scan(q, x, 3) == 3;
  }

  /** A step of u/g with g at least 1 does not overshoot u. */
  lemma NoOvershoot(u: real, g: int)
    requires g >= 1
    ensures u >= 0.0 ==> 0.0 <= u / g as real <= u
    ensures u <= 0.0 ==> u <= u / g as real <= 0.0
  {
    var r := u / g as real;
    assert r * g as real == u;
  }

  lemma SlopeForward(u: real, g: int)
    requires g >= 1
    ensures Slope(1, u, g) == u / g as real
  {
  }

  lemma SlopeBack(u: real, g: int)
    requires g >= 1
    ensures Slope(-1, u, -g) == u / g as real
  {
    assert (-g) as real == -(g as real);
    assert (-u) / -(g as real) == u / g as real;
  }

  lemma LinearBetween(q: seq<real>, n: seq<int>, i: nat, d: int)
    requires Sorted5(q) && Increasing(n) && 1 <= i <= 3 && (d == 1 || d == -1)
    ensures q[i - 1] <= Linear(q, n, i, d) <= q[i + 1]
  {
    hide Slope;
    if d == 1 {
      var u, g := q[i + 1] - q[i], n[i + 1] - n[i];
      NoOvershoot(u, g);
      SlopeForward(u, g);
    } else {
      var u, g := q[i - 1] - q[i], n[i] - n[i - 1];
      NoOvershoot(u, g);
      SlopeBack(u, g);
      assert n[i - 1] - n[i] == -g;
    }
  }

  /** The quadratic with value y and slope b at 0. */
  function Quadratic(y: real, b: real, c: real, t: real): real { y + b * t + c * (t * t) }

  /** Any quadratic through the three markers has the interpolated value at the new place of the middle one. */
  lemma ParabolaThrough(q0: real, q1: real, q2: real, n0: int, n1: int, n2: int, d: int, b: real, c: real)
    requires n0 < n1 < n2
    requires Quadratic(q1, b, c, (n0 - n1) as real) == q0 && Quadratic(q1, b, c, (n2 - n1) as real) == q2
    ensures Parabola(q0, q1, q2, n0, n1, n2, d) == Quadratic(q1, b, c, d as real)
  {
    hide Slope, Quadratic, Parabola;
    ParabolaSum(q0, q1, q2, n0, n1, n2, d);
    var g, h, t := (n2 - n1) as real, (n1 - n0) as real, d as real;
    RisesOf(q0, q1, q2, g, h, b, c, (n0 - n1) as real);
    SlopeOfChord(h + t, g, b + c * g, q2 - q1, n1 - n0 + d, n2 - n1);
    SlopeOfChord(g - t, h, b - c * h, q1 - q0, n2 - n1 - d, n1 - n0);
    assert (n2 - n0) as real == g + h;
    Combined(g, h, t, b, c);
    FractionOf(t, g + h, (h + t) * (b + c * g) + (g - t) * (b - c * h), b + c * t);
    QuadraticAt(q1, b, c, t);
  }

  lemma ParabolaSum(q0: real, q1: real, q2: real, n0: int, n1: int, n2: int, d: int)
    requires n0 < n1 < n2
    ensures Parabola(q0, q1, q2, n0, n1, n2, d) == q1 + d as real / (n2 - n0) as real *
      (Slope(n1 - n0 + d, q2 - q1, n2 - n1) + Slope(n2 - n1 - d, q1 - q0, n1 - n0))
  {
  }

  lemma RisesOf(q0: real, q1: real, q2: real, g: real, h: real, b: real, c: real, back: real)
    requires back == -h && Quadratic(q1, b, c, back) == q0 && Quadratic(q1, b, c, g) == q2
    ensures q2 - q1 == (b + c * g) * g && q1 - q0 == (b - c * h) * h
  {
    assert back * back == h * h;
    assert (b + c * g) * g == b * g + c * (g * g);
    assert (b - c * h) * h == b * h - c * (h * h);
  }

  lemma SlopeOfChord(k: real, g: real, s: real, rise: real, n: int, gap: int)
    requires gap >= 1 && gap as real == g && n as real == k && rise == s * g
    ensures Slope(n, rise, gap) == k * s
  {
    assert k * rise == (k * s) * g;
    var r := Slope(n, rise, gap);
    assert r * g == k * rise;
    assert (r - k * s) * g == 0.0;
  }

  lemma Combined(g: real, h: real, t: real, b: real, c: real)
    ensures (h + t) * (b + c * g) + (g - t) * (b - c * h) == (g + h) * (b + c * t)
  {
    assert (h + t) * (b + c * g) == h * b + t * b + h * (c * g) + t * (c * g);
    assert (g - t) * (b - c * h) == g * b - t * b - g * (c * h) + t * (c * h);
    assert (g + h) * (b + c * t) == g * b + h * b + g * (c * t) + h * (c * t);
    assert h * (c * g) == g * (c * h) && t * (c * g) == g * (c * t) && t * (c * h) == h * (c * t);
  }

  lemma FractionOf(t: real, w: real, sum: real, s: real)
    requires w > 0.0 && sum == w * s
    ensures t / w * sum == t * s
  {
    var r := t / w;
    assert r * w == t;
    assert r * (w * s) == (r * w) * s;
  }

  lemma QuadraticAt(y: real, b: real, c: real, t: real)
    ensures Quadratic(y, b, c, t) == y + t * (b + c * t)
  {
    assert t * (b + c * t) == b * t + c * (t * t);
  }

  /** There is a quadratic through any three markers. */
  lemma QuadraticExists(q0: real, q1: real, q2: real, n0: int, n1: int, n2: int) returns (b: real, c: real)
    requires n0 < n1 < n2
    ensures Quadratic(q1, b, c, (n0 - n1) as real) == q0 && Quadratic(q1, b, c, (n2 - n1) as real) == q2
  {
    var g, h := (n2 - n1) as real, (n1 - n0) as real;
    var u, v := (q2 - q1) / g, (q1 - q0) / h;
    c := (u - v) / (g + h);
    b := u - c * g;
    assert u * g == q2 - q1 && v * h == q1 - q0 && c * (g + h) == u - v;
    assert b == v + c * h;
    QuadraticAt(q1, b, c, g);
    QuadraticAt(q1, b, c, -h);
    assert (n0 - n1) as real == -h;
    assert -h * (b + c * -h) == -(v * h) by {
      assert b + c * -h == v;
    }
    assert g * (b + c * g) == u * g;
  }

  /** The line through the marker and its neighbour on the side of the move. */
  lemma LinearOnChord(q: seq<real>, n: seq<int>, i: nat, d: int)
    requires |q| == 5 && Increasing(n) && 1 <= i <= 3 && (d == 1 || d == -1)
    ensures (Linear(q, n, i, d) - q[i]) * (n[i + d] - n[i]) as real == d as real * (q[i + d] - q[i])
  {
    var gap, rise := n[i + d] - n[i], d as real * (q[i + d] - q[i]);
    assert rise / gap as real * gap as real == rise;
  }

  /**
   * One correction: the marker moves a place exactly when its desired position is that far away and the neighbour
   * leaves room, and its new height is the value there of the quadratic through the three markers, if that lies
   * strictly between the neighbouring heights, else of the line to the neighbour on that side.
   */
  lemma CorrectionExact(m: Markers, i: nat) returns (b: real, c: real)
    requires Usable(m) && 1 <= i <= 3
    ensures Quadratic(m.q[i], b, c, (m.n[i - 1] - m.n[i]) as real) == m.q[i - 1]
    ensures Quadratic(m.q[i], b, c, (m.n[i + 1] - m.n[i]) as real) == m.q[i + 1]
    ensures var r := Adjust(m, i);
      var d := r.n[i] - m.n[i];
      && r.np == m.np && r.n == m.n[i := m.n[i] + d] && r.q == m.q[i := r.q[i]]
      && (d == 1 <==> m.np[i] >= m.n[i] as real + 1.0 && m.n[i + 1] > m.n[i] + 1)
      && (d == -1 <==> m.np[i] <= m.n[i] as real - 1.0 && m.n[i - 1] < m.n[i] - 1)
      && (d == 0 ==> r.q == m.q)
      && (d != 0 ==>
            && -1 <= d <= 1
            && var h := Quadratic(m.q[i], b, c, d as real);
               if m.q[i - 1] < h < m.q[i + 1] then r.q[i] == h
               else (r.q[i] - m.q[i]) * (m.n[i + d] - m.n[i]) as real == d as real * (m.q[i + d] - m.q[i]))
  {
    hide Quadratic, Parabola, Linear;
    var q, n := m.q, m.n;
    b, c := QuadraticExists(q[i - 1], q[i], q[i + 1], n[i - 1], n[i], n[i + 1]);
    var d := Move(n, m.np, i);
    if d != 0 {
      ParabolaThrough(q[i - 1], q[i], q[i + 1], n[i - 1], n[i], n[i + 1], d, b, c);
      LinearOnChord(q, n, i, d);
    }
  }

  lemma AdjustHeights(m: Markers, i: nat)
    requires Usable(m) && Sorted5(m.q) && 1 <= i <= 3
    ensures Sorted5(Adjust(m, i).q)
    ensures Adjust(m, i).q[0] == m.q[0] && Adjust(m, i).q[4] == m.q[4]
  {
    var d := Move(m.n, m.np, i);
    if d != 0 {
      LinearBetween(m.q, m.n, i, d);
      assert m.q[i - 1] <= Height(m.q, m.n, i, d) <= m.q[i + 1];
    }
  }

  /** One step keeps the heights sorted and the outer two are the running extremes. */
  lemma StepHeights(p: real, m: Markers, x: real)
    requires Usable(m) && Sorted5(m.q)
    ensures var q := Step(p, m, x).q;
      && Sorted5(q)
      && q[0] == (if x < m.q[0] then x else m.q[0])
      && q[4] == (if x > m.q[4] then x else m.q[4])
  {
    assert Sorted5(Place(p, m, x).q);
    AdjustUpToHeights(Place(p, m, x), 3);
  }

  lemma {:induction false} AdjustUpToHeights(m: Markers, i: nat)
    requires Usable(m) && Sorted5(m.q) && i <= 3
    ensures Sorted5(AdjustUpTo(m, i).q)
    ensures AdjustUpTo(m, i).q[0] == m.q[0] && AdjustUpTo(m, i).q[4] == m.q[4]
  {
    hide Adjust;
    if i > 0 {
      AdjustUpToHeights(m, i - 1);
      AdjustHeights(AdjustUpTo(m, i - 1), i);
    }
  }

  function Least(s: seq<real>): (v: real)
    requires s != []
  {
    var x := s[|s| - 1];
    if |s| == 1 then x else var v := Least(s[..|s| - 1]); if x < v then x else v
  }

  function Greatest(s: seq<real>): (v: real)
    requires s != []
  {
    var x := s[|s| - 1];
    if |s| == 1 then x else var v := Greatest(s[..|s| - 1]); if x > v then x else v
  }

  /** Least and Greatest are what they are called: two samples that bound all the others. */
  lemma {:induction false} ExtremesBound(s: seq<real>)
    requires s != []
    ensures Least(s) in s && Greatest(s) in s
    ensures forall i | 0 <= i < |s| :: Least(s) <= s[i] <= Greatest(s)
  {
    if |s| > 1 { ExtremesBound(s[..|s| - 1]); }
  }

  lemma SortedEnds(s: seq<real>)
    requires s != []
    ensures var t := Sort(Real, s);
      && t[0] == Least(s) && t[|t| - 1] == Greatest(s)
      && forall k | 0 <= k < |t| :: t[0] <= t[k] <= t[|t| - 1]
  {
    hide Sort, Least, Greatest;
    var t := Sort(Real, s);
    SortMembers(Real, s);
    ExtremesBound(s);
    forall k | 0 <= k < |t| ensures t[0] <= t[k] <= t[|t| - 1] {
      assert Real(t[0]) <= Real(t[k]) <= Real(t[|t| - 1]);
    }
    assert t[0] in s && t[|t| - 1] in s;
    assert Least(s) in t && Greatest(s) in t;
  }

  /** Sorted heights whose outer two are the extreme samples. */
  ghost predicate Bracket(m: Markers, s: seq<real>)
    requires s != []
  {
    Sorted5(m.q) && m.q[0] == Least(s) && m.q[4] == Greatest(s)
  }

  lemma StartHeights(p: real, first: seq<real>)
    requires |first| == 5
    ensures Bracket(Start(p, first), first)
  {
    hide Sort, Least, Greatest;
    SortedEnds(first);
    var t := Sort(Real, first);
    assert Real(t[0]) <= Real(t[1]) <= Real(t[2]) <= Real(t[3]) <= Real(t[4]);
  }

  /** After every stream: heights sorted, the outer two exactly the least and the greatest sample. */
  lemma {:induction false} HeightsBracketStream(p: real, s: seq<real>)
    requires |s| >= 5
    ensures Bracket(Run(p, s), s)
  {
    if |s| == 5 {
      hide Start, Least, Greatest;
      StartHeights(p, s);
    } else {
      hide Step;
      HeightsBracketStream(p, s[..|s| - 1]);
      StepHeights(p, Run(p, s[..|s| - 1]), s[|s| - 1]);
    }
  }

  // ---------- the reported value ----------

  datatype Estimate = NoData | Estimate(value: real)

  /** Index of the reported element while fewer than five samples are known. */
  function EarlyIndex(p: real, len: nat): int {
    var k := (p * len as real).Floor;
    var lo := if k < 0 then 0 else k;
    if lo < len - 1 then lo else len - 1
  }

  function Value(p: real, s: seq<real>): Estimate
    requires ValidQuantile(p)
  {
    if s == [] then NoData
    else if |s| < 5 then
      EarlyIndexInRange(p, |s|);
      Estimate(Sort(Real, s)[EarlyIndex(p, |s|)])
    else Estimate(Run(p, s).q[2])
  }

  /** The clamps never act: the index is the floor of p times the count. */
  lemma EarlyIndexInRange(p: real, len: nat)
    requires ValidQuantile(p) && len >= 1
    ensures 0 <= EarlyIndex(p, len) < len
    ensures EarlyIndex(p, len) as real <= p * len as real < EarlyIndex(p, len) as real + 1.0
  {
    assert 0.0 < p * len as real < len as real;
  }

  lemma SortedOrderStatistic(s: seq<real>, k: nat)
    requires k < |s|
    ensures var v := Sort(Real, s)[k];
      v in s && Tally(Less(v), s) <= k < Tally(AtMost(v), s)
  {
    var t := Sort(Real, s);
    SortMembers(Real, s);
    assert t[k] in t;
    OrderStatistic(t, k);
    TallySort(Real, Less(t[k]), s);
    TallySort(Real, AtMost(t[k]), s);
  }

  /** v is a p-quantile of s: no more than a share p lies below it, more than a share p at or below it. */
  ghost predicate IsQuantile(p: real, v: real, s: seq<real>) {
    v in s && Tally(Less(v), s) as real <= p * |s| as real < Tally(AtMost(v), s) as real
  }

  /** Before five samples the value is an exact p-quantile of the samples. */
  lemma EarlyValueIsQuantile(p: real, s: seq<real>)
    requires ValidQuantile(p) && 1 <= |s| < 5
    ensures IsQuantile(p, Value(p, s).value, s)
  {
    EarlyIndexInRange(p, |s|);
    EarlyStatistic(p, s, EarlyIndex(p, |s|));
  }

  lemma EarlyStatistic(p: real, s: seq<real>, k: nat)
    requires ValidQuantile(p) && k < |s|
    requires k as real <= p * |s| as real < k as real + 1.0
    ensures IsQuantile(p, Sort(Real, s)[k], s)
  {
    SortedOrderStatistic(s, k);
    var above := Tally(AtMost(Sort(Real, s)[k]), s);
    assert (k + 1) as real <= above as real;
  }

  /** At any time the value lies between the least and the greatest sample of the stream. */
  lemma ValueWithinStream(p: real, s: seq<real>)
    requires ValidQuantile(p) && s != []
    ensures Value(p, s).Estimate? && Least(s) <= Value(p, s).value <= Greatest(s)
  {
    hide Step, Start, Least, Greatest, EarlyIndex;
    if |s| < 5 {
      EarlyIndexInRange(p, |s|);
      SortedEnds(s);
    } else {
      HeightsBracketStream(p, s);
    }
  }

  /**
   * From five samples on the reported value is the height of the one marker that tracks the p-quantile: its desired
   * position is 1 + (n - 1) p, no other marker's is, and its actual position is never three places off.
   */
  lemma ValueTracksQuantile(p: real, s: seq<real>) returns (i: nat)
    requires ValidQuantile(p) && |s| >= 5
    ensures var m, rank := Run(p, s), 1.0 + (|s| - 1) as real * p;
      && i < 5 && (forall j | 0 <= j < 5 :: m.np[j] == rank <==> j == i)
      && Value(p, s) == Estimate(m.q[i])
      && -2.0 < rank - m.n[i] as real < 3.0
  {
    hide Run, RankInvariant, Lag;
    i := 2;
    RanksNeverDrift(p, s);
    TrackedRank(p, |s|, Run(p, s).n, Run(p, s).np, 1.0 + (|s| - 1) as real * p);
  }

  lemma TrackedRank(p: real, cnt: int, n: seq<int>, np: seq<real>, rank: real)
    requires ValidQuantile(p) && cnt >= 5 && RankInvariant(p, cnt, n, np) && rank == 1.0 + (cnt - 1) as real * p
    ensures |np| == 5 && |n| == 5 && (forall j | 0 <= j < 5 :: np[j] == rank <==> j == 2)
    ensures -2.0 < rank - n[2] as real < 3.0
  {
    hide Desired;
    MiddleDesired(p, cnt, np, rank);
    DesiredOrdered(p, cnt, np);
    MiddleLag(p, cnt, n, np);
    hide RankInvariant, Lag;
    OneOfFive(np, rank);
  }

  lemma MiddleDesired(p: real, cnt: int, np: seq<real>, rank: real)
    requires Desired(p, cnt, np) && rank == 1.0 + (cnt - 1) as real * p
    ensures np[2] == rank
  {
    DesiredExplicit(p, cnt, np);
    hide Desired;
  }

  lemma MiddleLag(p: real, cnt: int, n: seq<int>, np: seq<real>)
    requires RankInvariant(p, cnt, n, np)
    ensures |np| == 5 && |n| == 5 && -2.0 < np[2] - n[2] as real < 3.0
  {
    assert |np| == 5;
    hide Desired;
  }

  lemma OneOfFive(np: seq<real>, rank: real)
    requires |np| == 5 && np[0] < np[1] < np[2] < np[3] < np[4] && np[2] == rank
    ensures forall j | 0 <= j < 5 :: np[j] == rank <==> j == 2
  {
  }

  /** The first value reported after the start is the median of the five samples, whatever p. */
  lemma FifthValueIsMedian(p: real, s: seq<real>)
    requires ValidQuantile(p) && |s| == 5
    ensures var v := Value(p, s);
      v.Estimate? && v.value in s && Tally(Less(v.value), s) <= 2 && Tally(AtMost(v.value), s) >= 3
  {
    SortedOrderStatistic(s, 2);
  }
}
