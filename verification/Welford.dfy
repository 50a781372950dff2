/** The online mean and variance of welford.ts against their batch definition. */
module Welford {
  import opened Reals
  import opened Sums

  datatype Profile = Profile(count: nat, mean: real, m2: real)

  datatype Snapshot = Snapshot(count: nat, mean: real, variance: real)

  const EMPTY := Profile(0, 0.0, 0.0)

  function Update(p: Profile, value: real): Profile {
    var count := p.count + 1;
    var delta := value - p.mean;
    var mean := p.mean + delta / count as real;
    var delta2 := value - mean;
    Profile(count, mean, p.m2 + delta * delta2)
  }

  function UpdateAll(p: Profile, s: seq<real>): Profile {
    if s == [] then p else Update(UpdateAll(p, s[..|s| - 1]), s[|s| - 1])
  }

  /** Bessel-corrected. */
  function Variance(p: Profile): real {
    if p.count > 1 then p.m2 / (p.count - 1) as real else 0.0
  }

  function ToJSON(p: Profile): Snapshot { Snapshot(p.count, p.mean, Variance(p)) }

  function FromJSON(j: Snapshot): Profile { Profile(j.count, j.mean, j.variance * (j.count - 1) as real) }

  /** The definition over the whole stream. */
  ghost function Batch(s: seq<real>): Profile {
    if s == [] then EMPTY else Profile(|s|, Mean(s), Spread(s, Mean(s)))
  }

  /** The spread around c from the spread around m, for n values of the given total. */
  function Shifted(n: real, m: real, c: real, total: real, spread: real): real {
    spread + 2.0 * (m - c) * (total - n * m) + n * Squared(m - c)
  }

  lemma ShiftTerm(n: real, x: real, m: real, c: real, total: real, spread: real)
    ensures Shifted(n + 1.0, m, c, total + x, spread + Squared(x - m))
         == Shifted(n, m, c, total, spread) + Squared(x - c)
  {
    var a, b := x - m, m - c;
    SquareOfSum(a, b);
    assert a + b == x - c;
    assert (n + 1.0) * Squared(b) == n * Squared(b) + Squared(b);
    assert total + x - (n + 1.0) * m == (total - n * m) + a;
    assert 2.0 * b * ((total - n * m) + a) == 2.0 * b * (total - n * m) + 2.0 * (a * b);
  }

  /** Moving the centre away from the mean adds n times the squared move. */
  lemma {:induction false} SpreadShift(s: seq<real>, m: real, c: real)
    ensures Spread(s, c) == Shifted(|s| as real, m, c, Sum(s), Spread(s, m))
  {
    if s == [] {
      assert 2.0 * (m - c) * 0.0 == 0.0;
    } else {
      SpreadShift(s[..|s| - 1], m, c);
      hide Shifted, Squared;
      var front, x := s[..|s| - 1], s[|s| - 1];
      ShiftTerm(|front| as real, x, m, c, Sum(front), Spread(front, m));
      assert |s| as real == |front| as real + 1.0;
    }
  }

  /** With d the move of the mean, n d^2 + (delta - d)^2 is delta (delta - d). */
  lemma SquareSplit(n: real, delta: real, d: real)
    requires d * (n + 1.0) == delta
    ensures n * Squared(d) + Squared(delta - d) == delta * (delta - d)
  {
    SquareOfDifference(delta, d);
    assert (n + 1.0) * Squared(d) == delta * d;
    assert (n + 1.0) * Squared(d) == n * Squared(d) + Squared(d);
    assert delta * (delta - d) == Squared(delta) - delta * d;
  }

  /** Deviation from the old mean times deviation from the new one. */
  function Gain(m: real, m': real, x: real): real { (x - m) * (x - m') }

  lemma SpreadMoves(s: seq<real>, x: real)
    requires s != []
    ensures Spread(s + [x], Mean(s + [x])) == Spread(s, Mean(s)) + Gain(Mean(s), Mean(s + [x]), x)
  {
    hide Spread, Sum, Shifted, Squared, Gain;
    SumExtends(s, x, Mean(s + [x]));
    SpreadShift(s, Mean(s), Mean(s + [x]));
    SpreadStep(|s| as real, |s + [x]| as real, Mean(s), Mean(s + [x]), x, Sum(s), Sum(s + [x]), Spread(s, Mean(s)));
  }

  /** Around the mean the cross term vanishes. */
  lemma ShiftedFromMean(n: real, m: real, c: real, total: real, spread: real)
    requires total == n * m
    ensures Shifted(n, m, c, total, spread) == spread + n * Squared(m - c)
  {
    hide Squared;
    assert 2.0 * (m - c) * (total - n * m) == 0.0;
  }

  lemma SquareNegated(d: real)
    ensures Squared(-d) == Squared(d)
  {
  }

  lemma MeanTotal(n: real, m: real, total: real)
    requires n > 0.0 && m == total / n
    ensures total == n * m
  {
  }

  lemma MeanStep(n: real, n': real, m: real, m': real, x: real, total: real, total': real)
    requires n > 0.0 && n' == n + 1.0 && total' == total + x && m == total / n && m' == total' / n'
    ensures (m' - m) * (n + 1.0) == x - m
  {
    MeanUpdate(n, m, total, x);
  }

  lemma SpreadStep(n: real, n': real, m: real, m': real, x: real, total: real, total': real, spread: real)
    requires n > 0.0 && n' == n + 1.0 && total' == total + x && m == total / n && m' == total' / n'
    ensures Shifted(n, m, m', total, spread) + Squared(x - m') == spread + Gain(m, m', x)
  {
    hide Squared, Shifted;
    var delta, d := x - m, m' - m;
    MeanStep(n, n', m, m', x, total, total');
    MeanTotal(n, m, total);
    SquareSplit(n, delta, d);
    ShiftedFromMean(n, m, m', total, spread);
    SquareNegated(d);
    assert m - m' == -d && x - m' == delta - d;
  }

  lemma UpdateBatch(s: seq<real>, x: real)
    ensures Update(Batch(s), x) == Batch(s + [x])
  {
    MeanExtends(s, x);
    if s == [] {
      SumExtends(s, x, x);
      hide Mean;
      assert Spread(s + [x], x) == Squared(x - x) == 0.0;
    } else {
      SpreadMoves(s, x);
      hide Mean, Spread;
      assert Update(Batch(s), x).mean == Mean(s + [x]);
    }
  }

  /** After any stream the mean is sum over count and m2 the sum of squared deviations from it. */
  lemma {:induction false} WelfordIsBatch(s: seq<real>)
    ensures UpdateAll(EMPTY, s) == Batch(s)
  {
    if s != [] {
      var front, x := s[..|s| - 1], s[|s| - 1];
      assert s == front + [x];
      WelfordIsBatch(front);
      UpdateBatch(front, x);
    }
  }

  lemma SnapshotRoundTrip(p: Profile)
    ensures FromJSON(ToJSON(p)) == p <==> p.count > 1 || p.m2 == 0.0
  {
    if p.count > 1 {
      var n := (p.count - 1) as real;
      assert p.m2 / n * n == p.m2;
    }
  }

  lemma {:induction false} UpdateAllConcat(p: Profile, s: seq<real>, t: seq<real>)
    ensures UpdateAll(UpdateAll(p, s), t) == UpdateAll(p, s + t)
  {
    if t == [] {
      assert s + t == s;
    } else {
      assert (s + t)[..|s + t| - 1] == s + t[..|t| - 1];
      UpdateAllConcat(p, s, t[..|t| - 1]);
    }
  }

  /** Saving and restoring the profile at any point of a stream does not change the final profile. */
  lemma SplitAnywhere(s: seq<real>, t: seq<real>)
    ensures UpdateAll(FromJSON(ToJSON(UpdateAll(EMPTY, s))), t) == Batch(s + t)
  {
    hide UpdateAll, FromJSON, ToJSON;
    WelfordIsBatch(s);
    WelfordIsBatch(s + t);
    SmallBatch(s);
    SnapshotRoundTrip(Batch(s));
    UpdateAllConcat(EMPTY, s, t);
  }

  lemma SmallBatch(s: seq<real>)
    ensures |s| <= 1 ==> Batch(s).m2 == 0.0
    ensures Batch(s).count == |s|
  {
    if |s| == 1 {
      assert s == [] + [s[0]];
      MeanExtends([], s[0]);
      SumExtends([], s[0], s[0]);
      assert Squared(s[0] - s[0]) == Squared(0.0);
    }
  }

  lemma UpdateAllExtends(p: Profile, s: seq<real>, x: real)
    ensures UpdateAll(p, s + [x]) == Update(UpdateAll(p, s), x)
  {
    assert (s + [x])[..|s + [x]| - 1] == s;
  }

  class WelfordProfile {
    var count: nat
    var mean: real
    var m2: real
    /** The profile the object started from, and every value since. */
    ghost var base: Profile
    ghost var stream: seq<real>

    ghost predicate Valid()
      reads this
    {
      Fields() == UpdateAll(base, stream)
    }

    ghost function Fields(): Profile
      reads this
    {
      Profile(count, mean, m2)
    }

    constructor ()
      ensures Valid() && base == EMPTY && stream == []
    {
      count, mean, m2 := 0, 0.0, 0.0;
      base, stream := EMPTY, [];
    }

    /** `fromJSON` of any snapshot. */
    constructor FromSnapshot(j: Snapshot)
      ensures Valid() && base == FromJSON(j) && stream == []
    {
      count, mean, m2 := j.count, j.mean, j.variance * (j.count - 1) as real;
      base, stream := FromJSON(j), [];
    }

    method Update(value: real)
      requires Valid()
      modifies this
      ensures Valid() && base == old(base) && stream == old(stream) + [value]
    {
      UpdateAllExtends(base, stream, value);
      hide UpdateAll;
      stream := stream + [value];
      count := count + 1;
      var delta := value - mean;
      mean := mean + delta / count as real;
      var delta2 := value - mean;
      m2 := m2 + delta * delta2;
    }

    function ToSnapshot(): (j: Snapshot)
      requires Valid()
      reads this
      ensures j == ToJSON(UpdateAll(base, stream))
    {
      Snapshot(count, mean, if count > 1 then m2 / (count - 1) as real else 0.0)
    }

    /** A new object holds the batch profile of its values. */
    lemma HoldsBatch()
      requires Valid() && base == EMPTY
      ensures Fields() == Batch(stream)
    {
      WelfordIsBatch(stream);
    }

    /** An object restored from a stream's snapshot holds the batch profile of that stream and its own values. */
    lemma ResumesBatch(s: seq<real>)
      requires Valid() && base == FromJSON(ToJSON(Batch(s)))
      ensures Fields() == Batch(s + stream)
    {
      hide UpdateAll, FromJSON, ToJSON, Batch;
      WelfordIsBatch(s);
      SplitAnywhere(s, stream);
    }
  }
}
