/** Tie-averaged ranks and the Spearman coefficient of math.ts. */
module Spearman {
  import opened Reals
  import opened Sorting
  import opened Sums

  // ---------- the code ----------

  /** First index at which v occurs, -1 when it does not. */
  function IndexOf(s: seq<real>, v: real): (i: int)
    ensures -1 <= i < |s|
    ensures i >= 0 ==> s[i] == v && v !in s[..i]
    ensures i < 0 ==> v !in s
  {
    if s == [] then -1
    else if s[0] == v then 0
    else
      var i := IndexOf(s[1..], v);
      if i < 0 then -1 else i + 1
  }

  function Rank(arr: seq<real>, v: real): real {
    var sorted := Sort(Real, arr);
    var first := IndexOf(sorted, v);
    var count := Tally(Equal(v), sorted);
    first as real + 1.0 + (count - 1) as real / 2.0
  }

  function CalculateRank(arr: seq<real>): (r: seq<real>)
    ensures |r| == |arr|
  {
    seq(|arr|, i requires 0 <= i < |arr| => Rank(arr, arr[i]))
  }

  /** Sum of squared differences, in index order. */
  function SquaredDistance(u: seq<real>, v: seq<real>): real
    requires |u| == |v|
  {
    if u == [] then 0.0
    else SquaredDistance(u[..|u| - 1], v[..|v| - 1]) + Squared(u[|u| - 1] - v[|v| - 1])
  }

  function Denominator(n: nat): (r: int)
    ensures n >= 2 ==> r > 0
  {
    n * (n * n - 1)
  }

  function Rho(x: seq<real>, y: seq<real>): real {
    var n := |x|;
    if n < 2 || n != |y| then 0.0
    else 1.0 - 6.0 * SquaredDistance(CalculateRank(x), CalculateRank(y)) / Denominator(n) as real
  }

  lemma SquaredDistanceExtends(u: seq<real>, v: seq<real>, i: nat)
    requires i < |u| == |v|
    ensures SquaredDistance(u[..i + 1], v[..i + 1]) == SquaredDistance(u[..i], v[..i]) + Squared(u[i] - v[i])
  {
    assert u[..i + 1][..i] == u[..i] && v[..i + 1][..i] == v[..i];
  }

  method SpearmanRankCorrelation(x: seq<real>, y: seq<real>) returns (rho: real)
    ensures rho == Rho(x, y)
  {
    hide SquaredDistance, CalculateRank;
    var n := |x|;
    if n < 2 || n != |y| { return 0.0; }
    var rankX := CalculateRank(x);
    var rankY := CalculateRank(y);
    var d2Sum := 0.0;
    assert SquaredDistance(rankX[..0], rankY[..0]) == 0.0 by { EmptyDistance(rankX[..0], rankY[..0]); }
    for i := 0 to n
      invariant d2Sum == SquaredDistance(rankX[..i], rankY[..i])
    {
      SquaredDistanceExtends(rankX, rankY, i);
      var d := rankX[i] - rankY[i];
      d2Sum := d2Sum + d * d;
    }
    assert rankX[..n] == rankX && rankY[..n] == rankY;
    var denominator := Denominator(n);
    if denominator == 0 { return 0.0; }
    return 1.0 - 6.0 * d2Sum / denominator as real;
  }

  lemma EmptyDistance(u: seq<real>, v: seq<real>)
    requires u == [] && v == []
    ensures SquaredDistance(u, v) == 0.0
  {
  }

  // ---------- ranks are half the row sums of the comparison matrix ----------

  function Sign(x: real, y: real): int { if x > y then 1 else if x < y then -1 else 0 }

  /** How many elements of s lie below x, less how many lie above it. */
  function Standing(s: seq<real>, x: real): int {
    if s == [] then 0 else Standing(s[..|s| - 1], x) + Sign(x, s[|s| - 1])
  }

  lemma {:induction false} StandingTally(s: seq<real>, x: real)
    ensures Standing(s, x) == 2 * Tally(Less(x), s) + Tally(Equal(x), s) - |s|
  {
    if s != [] { StandingTally(s[..|s| - 1], x); }
  }

  lemma NoSmallerFrom(t: seq<real>, i: nat)
    requires Ascending(Real, t) && i < |t|
    ensures Tally(Less(t[i]), t[i..]) == 0
  {
    var high := t[i..];
    forall j | 0 <= j < |high| ensures !Less(t[i])(high[j]) {
      assert j == 0 || Real(t[i]) <= Real(t[i + j]);
    }
    TallyNone(Less(t[i]), high);
  }

  lemma AllSmallerBefore(t: seq<real>, i: nat)
    requires Ascending(Real, t) && i < |t| && t[i] !in t[..i]
    ensures Tally(Less(t[i]), t[..i]) == i
  {
    var low := t[..i];
    forall j | 0 <= j < |low| ensures Less(t[i])(low[j]) {
      assert low[j] in low && Real(t[j]) <= Real(t[i]);
    }
    TallyAll(Less(t[i]), low);
  }

  /** In an ascending sequence the first occurrence of a member has exactly the smaller elements before it. */
  lemma IndexOfAscending(t: seq<real>, v: real)
    requires Ascending(Real, t) && v in t
    ensures IndexOf(t, v) == Tally(Less(v), t)
  {
    var i := IndexOf(t, v);
    assert t == t[..i] + t[i..];
    TallyConcat(Less(v), t[..i], t[i..]);
    AllSmallerBefore(t, i);
    NoSmallerFrom(t, i);
  }

  /** Twice the centred rank of a member is its standing. */
  lemma RankIsStanding(arr: seq<real>, v: real)
    requires v in arr
    ensures 2.0 * Rank(arr, v) - (|arr| + 1) as real == Standing(arr, v) as real
  {
    SortMembers(Real, arr);
    IndexOfAscending(Sort(Real, arr), v);
    TallySort(Real, Less(v), arr);
    TallySort(Real, Equal(v), arr);
    StandingTally(arr, v);
  }

  // ---------- the sum of squared standings ----------

  /** Sum over b of the squared standing within a. */
  function Energy(a: seq<real>, b: seq<real>): int {
    if b == [] then 0
    else
      var s := Standing(a, b[|b| - 1]);
      Energy(a, b[..|b| - 1]) + s * s
  }

  function Cross(a: seq<real>, b: seq<real>, x: real): int {
    if b == [] then 0
    else Cross(a, b[..|b| - 1], x) + Sign(b[|b| - 1], x) * Standing(a, b[|b| - 1])
  }

  function Both(b: seq<real>, x: real, y: real): int {
    if b == [] then 0 else Both(b[..|b| - 1], x, y) + Sign(b[|b| - 1], x) * Sign(b[|b| - 1], y)
  }

  /** Three comparisons cannot all agree around a cycle. */
  lemma Triangle(x: real, y: real, z: real)
    ensures Sign(z, x) * Sign(z, y) + Sign(y, x) * Sign(y, z) + Sign(x, y) * Sign(x, z) <= 1
    ensures x != y && y != z && x != z ==>
      Sign(z, x) * Sign(z, y) + Sign(y, x) * Sign(y, z) + Sign(x, y) * Sign(x, z) == 1
  {
  }

  ghost predicate Distinct(a: seq<real>) {
    forall i, j | 0 <= i < j < |a| :: a[i] != a[j]
  }

  lemma {:induction false} TriangleSum(a: seq<real>, x: real, y: real)
    ensures Both(a, x, y) + Sign(y, x) * Standing(a, y) + Sign(x, y) * Standing(a, x) <= |a|
    ensures x != y && x !in a && y !in a ==>
      Both(a, x, y) + Sign(y, x) * Standing(a, y) + Sign(x, y) * Standing(a, x) == |a|
  {
    if a != [] {
      var front, z := a[..|a| - 1], a[|a| - 1];
      TriangleSum(front, x, y);
      Triangle(x, y, z);
      Distribute(Sign(y, x), Standing(front, y), Sign(y, z));
      Distribute(Sign(x, y), Standing(front, x), Sign(x, z));
    }
  }

  lemma Distribute(c: int, s: int, t: int)
    ensures c * (s + t) == c * s + c * t
  {
  }

  lemma StandingExtends(a: seq<real>, x: real, y: real)
    ensures Standing(a + [x], y) == Standing(a, y) + Sign(y, x)
  {
    assert (a + [x])[..|a + [x]| - 1] == a;
  }

  lemma {:induction false} CrossExtends(a: seq<real>, b: seq<real>, x: real, y: real)
    ensures Cross(a + [y], b, x) == Cross(a, b, x) + Both(b, x, y)
  {
    if b != [] {
      CrossExtends(a, b[..|b| - 1], x, y);
      StandingExtends(a, y, b[|b| - 1]);
      Distribute(Sign(b[|b| - 1], x), Standing(a, b[|b| - 1]), Sign(b[|b| - 1], y));
    }
  }

  lemma {:induction false} EnergyExtends(a: seq<real>, b: seq<real>, x: real)
    ensures Energy(a + [x], b) == Energy(a, b) + 2 * Cross(a, b, x) + Both(b, x, x)
  {
    if b != [] {
      EnergyExtends(a, b[..|b| - 1], x);
      StandingExtends(a, x, b[|b| - 1]);
      Square(Standing(a, b[|b| - 1]), Sign(b[|b| - 1], x));
    }
  }

  lemma Square(s: int, t: int)
    ensures (s + t) * (s + t) == s * s + 2 * (t * s) + t * t
  {
  }

  lemma {:induction false} BothSelf(b: seq<real>, x: real)
    ensures Both(b, x, x) <= |b|
    ensures Both(b, x, x) == |b| <==> x !in b
  {
    if b != [] {
      BothSelf(b[..|b| - 1], x);
      assert b == b[..|b| - 1] + [b[|b| - 1]];
    }
  }

  lemma {:induction false} CrossBound(a: seq<real>, x: real)
    ensures 2 * Cross(a, a, x) + Standing(a, x) * Standing(a, x) <= |a| * |a|
    ensures Distinct(a) && x !in a ==> 2 * Cross(a, a, x) + Standing(a, x) * Standing(a, x) == |a| * |a|
  {
    if a != [] {
      var front, y := a[..|a| - 1], a[|a| - 1];
      assert a == front + [y];
      CrossBound(front, x);
      TriangleSum(front, x, y);
      CrossExtends(front, front, x, y);
      StandingExtends(front, y, y);
      Square(Standing(front, x), Sign(x, y));
      Square(|front|, 1);
      assert Distinct(a) ==> Distinct(front) && y !in front;
    }
  }

  lemma DistinctExtends(front: seq<real>, x: real)
    ensures Distinct(front + [x]) <==> Distinct(front) && x !in front
  {
    var a := front + [x];
    if Distinct(a) {
      assert forall i | 0 <= i < |front| :: a[i] == front[i] && a[i] != a[|front|];
    }
    if Distinct(front) && x !in front {
      forall i, j | 0 <= i < j < |a| ensures a[i] != a[j] {
        assert a[i] == front[i] && a[i] in front;
      }
    }
  }

  /** 3 times the energy of n numbers is at most n(n^2 - 1), with equality exactly when there are no ties. */
  lemma {:induction false} EnergyBound(a: seq<real>)
    ensures 3 * Energy(a, a) <= Denominator(|a|)
    ensures 3 * Energy(a, a) == Denominator(|a|) <==> Distinct(a)
  {
    if a != [] {
      hide Energy, Standing, Cross, Both, Distinct, Denominator;
      var front, x := a[..|a| - 1], a[|a| - 1];
      assert a == front + [x];
      EnergyBound(front);
      EnergyOfLast(front, x);
      EnergyExtends(front, front, x);
      BothSelf(front, x);
      CrossBound(front, x);
      DistinctExtends(front, x);
      CubeStep(|front|);
      BoundsAdd(Energy(front, front), Denominator(|front|), |front|, |front| * |front|, Both(front, x, x),
                Cross(front, front, x), Standing(front, x) * Standing(front, x));
    }
  }

  /** Two bounded terms reach the sum of their bounds only together. */
  lemma BoundsAdd(e: int, den: int, n: int, n2: int, both: int, cross: int, square: int)
    requires 3 * e <= den && both <= n && 2 * cross + square <= n2
    ensures 3 * (e + 2 * cross + both + square) <= den + 3 * n2 + 3 * n
    ensures 3 * (e + 2 * cross + both + square) == den + 3 * n2 + 3 * n <==>
      3 * e == den && both == n && 2 * cross + square == n2
  {
  }

  lemma EnergyOfLast(front: seq<real>, x: real)
    ensures Energy(front + [x], front + [x])
         == Energy(front + [x], front) + Standing(front, x) * Standing(front, x)
  {
    hide Standing;
    var a := front + [x];
    assert a[..|a| - 1] == front;
    StandingExtends(front, x, x);
  }

  lemma CubeStep(n: nat)
    ensures Denominator(n + 1) == Denominator(n) + 3 * (n * n) + 3 * n
  {
  }

  // ---------- the promises ----------

  /** Sum of the standings of b within a. */
  function Balance(a: seq<real>, b: seq<real>): int {
    if b == [] then 0 else Balance(a, b[..|b| - 1]) + Standing(a, b[|b| - 1])
  }

  lemma {:induction false} BalanceExtends(a: seq<real>, b: seq<real>, x: real)
    ensures Balance(a + [x], b) == Balance(a, b) - Standing(b, x)
  {
    if b != [] {
      BalanceExtends(a, b[..|b| - 1], x);
      StandingExtends(a, x, b[|b| - 1]);
    }
  }

  lemma {:induction false} BalanceZero(a: seq<real>)
    ensures Balance(a, a) == 0
  {
    if a != [] {
      var front, x := a[..|a| - 1], a[|a| - 1];
      assert a == front + [x];
      BalanceZero(front);
      BalanceExtends(front, front, x);
      StandingExtends(front, x, x);
    }
  }

  lemma CentredRankAt(arr: seq<real>, i: nat)
    requires i < |arr|
    ensures 2.0 * CalculateRank(arr)[i] - (|arr| + 1) as real == Standing(arr, arr[i]) as real
  {
    RankIsStanding(arr, arr[i]);
  }

  lemma {:induction false} RankPrefixTotal(arr: seq<real>, k: nat)
    requires k <= |arr|
    ensures 2.0 * Sum(CalculateRank(arr)[..k]) == k as real * (|arr| + 1) as real + Balance(arr, arr[..k]) as real
  {
    hide CalculateRank, Standing;
    if k > 0 {
      RankPrefixTotal(arr, k - 1);
      var r, m := CalculateRank(arr), (|arr| + 1) as real;
      assert r[..k][..k - 1] == r[..k - 1] && arr[..k][..k - 1] == arr[..k - 1];
      CentredRankAt(arr, k - 1);
      assert k as real * m == (k - 1) as real * m + m;
    }
  }

  /** Tie-averaged ranks always sum to 1 + 2 + ... + n. */
  lemma RanksSum(arr: seq<real>)
    ensures 2.0 * Sum(CalculateRank(arr)) == |arr| as real * (|arr| + 1) as real
  {
    hide CalculateRank, Standing, Balance, Sum;
    assert CalculateRank(arr)[..|arr|] == CalculateRank(arr) && arr[..|arr|] == arr;
    RankPrefixTotal(arr, |arr|);
    BalanceZero(arr);
  }

  lemma {:induction false} CentredPrefix(arr: seq<real>, k: nat)
    requires k <= |arr|
    ensures 4.0 * Spread(CalculateRank(arr)[..k], (|arr| + 1) as real / 2.0) == Energy(arr, arr[..k]) as real
  {
    hide CalculateRank, Standing;
    if k > 0 {
      CentredPrefix(arr, k - 1);
      var r, t := CalculateRank(arr), Standing(arr, arr[k - 1]);
      assert r[..k][..k - 1] == r[..k - 1] && arr[..k][..k - 1] == arr[..k - 1];
      CentredRankAt(arr, k - 1);
      var d := r[k - 1] - (|arr| + 1) as real / 2.0;
      assert t as real == 2.0 * d;
      assert (t * t) as real == 4.0 * (d * d);
    }
  }

  /** Their spread is at most that of 1..n, which is n(n^2 - 1)/12, and equals it exactly when there are no ties. */
  lemma RanksSpread(arr: seq<real>)
    ensures var spread := Spread(CalculateRank(arr), (|arr| + 1) as real / 2.0);
      && 12.0 * spread <= Denominator(|arr|) as real
      && (Distinct(arr) <==> 12.0 * spread == Denominator(|arr|) as real)
  {
    hide CalculateRank, Energy, Spread;
    assert CalculateRank(arr)[..|arr|] == CalculateRank(arr) && arr[..|arr|] == arr;
    CentredPrefix(arr, |arr|);
    EnergyBound(arr);
  }

  lemma DistanceTerm(x: real, y: real, mean: real)
    ensures 0.0 <= Squared(x - y) <= 2.0 * Squared(x - mean) + 2.0 * Squared(y - mean)
  {
    hide Squared;
    var a, b := x - mean, y - mean;
    DifferenceBound(a, b);
    assert a - b == x - y;
  }

  lemma {:induction false} DistanceBySpread(u: seq<real>, v: seq<real>, mean: real)
    requires |u| == |v|
    ensures 0.0 <= SquaredDistance(u, v) <= 2.0 * Spread(u, mean) + 2.0 * Spread(v, mean)
  {
    hide Squared;
    if u != [] {
      DistanceBySpread(u[..|u| - 1], v[..|v| - 1], mean);
      DistanceTerm(u[|u| - 1], v[|v| - 1], mean);
    }
  }

  lemma RatioBound(d: real, n: real)
    requires n > 0.0 && 0.0 <= 3.0 * d <= n
    ensures -1.0 <= 1.0 - 6.0 * d / n <= 1.0
  {
    QuotientOrder(6.0 * d, n, 0.0);
    QuotientOrder(6.0 * d, n, 2.0);
  }

  /** The coefficient of any two sequences, ties and length mismatches included, lies in [-1, 1]. */
  lemma RhoInRange(x: seq<real>, y: seq<real>)
    ensures -1.0 <= Rho(x, y) <= 1.0
  {
    hide SquaredDistance, CalculateRank, Denominator;
    var n := |x|;
    if n >= 2 && n == |y| {
      DistanceBySpread(CalculateRank(x), CalculateRank(y), (n + 1) as real / 2.0);
      RanksSpread(x);
      RanksSpread(y);
      RatioBound(SquaredDistance(CalculateRank(x), CalculateRank(y)), Denominator(n) as real);
    }
  }

  lemma {:induction false} DistanceSymmetric(u: seq<real>, v: seq<real>)
    requires |u| == |v|
    ensures SquaredDistance(u, v) == SquaredDistance(v, u)
  {
    if u != [] { DistanceSymmetric(u[..|u| - 1], v[..|v| - 1]); }
  }

  lemma RhoSymmetric(x: seq<real>, y: seq<real>)
    ensures Rho(x, y) == Rho(y, x)
  {
    hide CalculateRank, SquaredDistance;
    if |x| == |y| { DistanceSymmetric(CalculateRank(x), CalculateRank(y)); }
  }

  lemma {:induction false} DistanceZero(u: seq<real>, v: seq<real>)
    requires |u| == |v|
    ensures SquaredDistance(u, v) >= 0.0
    ensures SquaredDistance(u, v) == 0.0 <==> u == v
  {
    if u != [] {
      var a, b := u[|u| - 1], v[|v| - 1];
      assert u == u[..|u| - 1] + [a] && v == v[..|v| - 1] + [b];
      DistanceZero(u[..|u| - 1], v[..|v| - 1]);
      if a != b { SquareStrict(a - b); } else { assert Squared(a - b) == Squared(0.0); }
    }
  }

  /** The coefficient is 1 exactly for two sequences of one length, at least 2, with the same ranks. */
  lemma RhoIsOne(x: seq<real>, y: seq<real>)
    ensures Rho(x, y) == 1.0 <==> |x| == |y| >= 2 && CalculateRank(x) == CalculateRank(y)
  {
    hide SquaredDistance, CalculateRank, Denominator;
    if |x| == |y| >= 2 {
      var d, n := SquaredDistance(CalculateRank(x), CalculateRank(y)), Denominator(|x|) as real;
      DistanceZero(CalculateRank(x), CalculateRank(y));
      var t := 6.0 * d / n;
      assert t * n == 6.0 * d;
    }
  }

  lemma {:induction false} StandingMapped(f: real -> real, s: seq<real>, x: real)
    requires Monotone(Real, f)
    ensures Standing(Map(f, s), f(x)) == Standing(s, x)
  {
    if s != [] {
      var front, y := s[..|s| - 1], s[|s| - 1];
      StandingMapped(f, front, x);
      assert Map(f, s)[..|s| - 1] == Map(f, front);
      SignMapped(Real, f, x, y);
    }
  }

  lemma SignMapped(key: real -> real, f: real -> real, x: real, y: real)
    requires key == Real && Monotone(key, f)
    ensures Sign(f(x), f(y)) == Sign(x, y)
  {
    assert key(x) <= key(y) <==> key(f(x)) <= key(f(y));
    assert key(y) <= key(x) <==> key(f(y)) <= key(f(x));
  }

  /** Ranks, and so the coefficient, do not change under a strictly increasing map of the values. */
  lemma RanksMapped(f: real -> real, x: seq<real>)
    requires Monotone(Real, f)
    ensures CalculateRank(Map(f, x)) == CalculateRank(x)
  {
    hide CalculateRank, Standing;
    forall i | 0 <= i < |x| ensures CalculateRank(Map(f, x))[i] == CalculateRank(x)[i] {
      StandingMapped(f, x, x[i]);
      CentredRankAt(x, i);
      CentredRankAt(Map(f, x), i);
    }
  }

  lemma RhoMapped(f: real -> real, g: real -> real, x: seq<real>, y: seq<real>)
    requires Monotone(Real, f) && Monotone(Real, g)
    ensures Rho(Map(f, x), Map(g, y)) == Rho(x, y)
  {
    hide CalculateRank, SquaredDistance;
    RanksMapped(f, x);
    RanksMapped(g, y);
  }

  // ---------- the lower bound is attained ----------

  lemma {:induction false} MirroredDistance(u: seq<real>, v: seq<real>, mean: real)
    requires |u| == |v| && forall i | 0 <= i < |u| :: u[i] - mean == mean - v[i]
    ensures SquaredDistance(u, v) == 4.0 * Spread(u, mean)
  {
    if u != [] {
      var a, b := u[|u| - 1], v[|v| - 1];
      MirroredDistance(u[..|u| - 1], v[..|v| - 1], mean);
      var d := a - mean;
      assert a - b == 2.0 * d;
      assert Squared(2.0 * d) == 4.0 * Squared(d);
    }
  }

  lemma {:induction false} StandingReversed(x: seq<real>, y: seq<real>, i: nat, k: nat)
    requires k <= |x| == |y| && i < |x|
    requires forall a, b | 0 <= a < |x| && 0 <= b < |x| :: x[a] < x[b] <==> y[b] < y[a]
    ensures Standing(y[..k], y[i]) == -Standing(x[..k], x[i])
  {
    if k > 0 {
      assert x[..k][..k - 1] == x[..k - 1] && y[..k][..k - 1] == y[..k - 1];
      StandingReversed(x, y, i, k - 1);
      assert x[i] < x[k - 1] <==> y[k - 1] < y[i];
      assert x[k - 1] < x[i] <==> y[i] < y[k - 1];
    }
  }

  /** The second sequence orders the indices the other way round. */
  ghost predicate Opposed(x: seq<real>, y: seq<real>)
    requires |x| == |y|
  {
    forall a, b | 0 <= a < |x| && 0 <= b < |x| :: x[a] < x[b] <==> y[b] < y[a]
  }

  /** Two orderings without ties, each the reverse of the other, have coefficient exactly -1. */
  lemma RhoReversed(x: seq<real>, y: seq<real>)
    requires |x| == |y| >= 2 && Distinct(x) && Opposed(x, y)
    ensures Rho(x, y) == -1.0
  {
    hide CalculateRank, SquaredDistance, Denominator, Standing;
    var mean := (|x| + 1) as real / 2.0;
    var u, v := CalculateRank(x), CalculateRank(y);
    assert x[..|x|] == x && y[..|y|] == y;
    forall i | 0 <= i < |x| ensures u[i] - mean == mean - v[i] {
      CentredRankAt(x, i);
      CentredRankAt(y, i);
      StandingReversed(x, y, i, |x|);
    }
    MirroredDistance(u, v, mean);
    RanksSpread(x);
    RatioExact(SquaredDistance(u, v), Denominator(|x|) as real);
  }

  lemma RatioExact(d: real, n: real)
    requires n > 0.0
    ensures 6.0 * d / n == 2.0 <==> 3.0 * d == n
  {
    var q := 6.0 * d / n;
    assert q * n == 6.0 * d;
  }

  // ---------- and only then ----------

  /** How far v is from mirroring u around the mean. */
  function Mismatch(u: seq<real>, v: seq<real>, mean: real): real
    requires |u| == |v|
  {
    if u == [] then 0.0
    else Mismatch(u[..|u| - 1], v[..|v| - 1], mean) + Squared((u[|u| - 1] - mean) + (v[|v| - 1] - mean))
  }

  /** Parallelogram law: sum and difference of two deviations. */
  lemma Parallelogram(x: real, y: real, mean: real)
    ensures Squared(x - y) + Squared((x - mean) + (y - mean)) == 2.0 * Squared(x - mean) + 2.0 * Squared(y - mean)
  {
    var a, b := x - mean, y - mean;
    SquareOfSum(a, b);
    SquareOfDifference(a, b);
    assert a - b == x - y;
  }

  lemma {:induction false} DistanceAndMismatch(u: seq<real>, v: seq<real>, mean: real)
    requires |u| == |v|
    ensures SquaredDistance(u, v) + Mismatch(u, v, mean) == 2.0 * Spread(u, mean) + 2.0 * Spread(v, mean)
  {
    hide Squared;
    if u != [] {
      DistanceAndMismatch(u[..|u| - 1], v[..|v| - 1], mean);
      Parallelogram(u[|u| - 1], v[|v| - 1], mean);
    }
  }

  /** Without mismatch v mirrors u. */
  lemma {:induction false} NoMismatch(u: seq<real>, v: seq<real>, mean: real)
    requires |u| == |v|
    ensures Mismatch(u, v, mean) >= 0.0
    ensures Mismatch(u, v, mean) == 0.0 ==> forall i | 0 <= i < |u| :: u[i] - mean == mean - v[i]
  {
    hide Squared;
    if u != [] {
      var a := (u[|u| - 1] - mean) + (v[|v| - 1] - mean);
      NoMismatch(u[..|u| - 1], v[..|v| - 1], mean);
      SquarePositive(a);
      if a != 0.0 { SquareStrict(a); }
    }
  }

  /** A larger value stands higher. */
  lemma {:induction false} StandingOrder(s: seq<real>, x: real, y: real)
    requires x < y
    ensures Standing(s, x) <= Standing(s, y)
    ensures x in s ==> Standing(s, x) < Standing(s, y)
  {
    if s != [] {
      StandingOrder(s[..|s| - 1], x, y);
      assert s == s[..|s| - 1] + [s[|s| - 1]];
    }
  }

  /** Ranks are ordered as the values are. */
  lemma RankOrder(arr: seq<real>, i: nat, j: nat)
    requires i < |arr| && j < |arr|
    ensures CalculateRank(arr)[i] < CalculateRank(arr)[j] <==> arr[i] < arr[j]
  {
    hide CalculateRank, Standing;
    CentredRankAt(arr, i);
    CentredRankAt(arr, j);
    if arr[i] < arr[j] { StandingOrder(arr, arr[i], arr[j]); }
    if arr[j] < arr[i] { StandingOrder(arr, arr[j], arr[i]); }
  }

  lemma MirroredOpposed(x: seq<real>, y: seq<real>, mean: real)
    requires |x| == |y|
    requires forall i | 0 <= i < |x| :: CalculateRank(x)[i] - mean == mean - CalculateRank(y)[i]
    ensures Opposed(x, y)
  {
    hide CalculateRank;
    forall a, b | 0 <= a < |x| && 0 <= b < |x| ensures x[a] < x[b] <==> y[b] < y[a] {
      RankOrder(x, a, b);
      RankOrder(y, b, a);
      assert CalculateRank(x)[a] - mean == mean - CalculateRank(y)[a];
      assert CalculateRank(x)[b] - mean == mean - CalculateRank(y)[b];
    }
  }

  /** The coefficient is -1 exactly for two oppositely ordered sequences of one length, at least 2, without ties. */
  lemma RhoIsMinusOne(x: seq<real>, y: seq<real>)
    ensures Rho(x, y) == -1.0 <==> |x| == |y| >= 2 && Distinct(x) && Distinct(y) && Opposed(x, y)
  {
    hide SquaredDistance, CalculateRank, Denominator, Spread, Mismatch, Distinct;
    if |x| == |y| >= 2 {
      var mean, u, v := (|x| + 1) as real / 2.0, CalculateRank(x), CalculateRank(y);
      if Rho(x, y) == -1.0 {
        RatioExact(SquaredDistance(u, v), Denominator(|x|) as real);
        RanksSpread(x);
        RanksSpread(y);
        DistanceAndMismatch(u, v, mean);
        NoMismatch(u, v, mean);
        MirroredOpposed(x, y, mean);
      }
      if Distinct(x) && Opposed(x, y) { RhoReversed(x, y); }
    }
  }
}
