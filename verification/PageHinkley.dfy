/** The two-sided Page-Hinkley drift detector of driftModel.ts and the CUSUM it computes. */
module PageHinkley {
  import opened Bounds
  import opened Quantile
  import opened Sums

  /** Direction of the shift a detector looks for. */
  datatype Side = Up | Down

  function Signed(side: Side, x: real): real { if side.Up? then x else -x }

  /** What each sample from index since on adds: its deviation from the running mean, less the tolerance. */
  function Increments(side: Side, delta: real, s: seq<real>, since: nat): (w: seq<real>)
    requires since <= |s|
    ensures |w| == |s| - since
    decreases |s|
  {
    if |s| == since then []
    else Increments(side, delta, s[..|s| - 1], since) + [Signed(side, s[|s| - 1] - Mean(s)) - delta]
  }

  /** Least prefix sum, the empty prefix included. */
  function LeastPrefix(w: seq<real>): real {
    if w == [] then 0.0 else Min(LeastPrefix(w[..|w| - 1]), Sum(w))
  }

  /** The one-sided CUSUM recursion. */
  function Cusum(w: seq<real>): real {
    if w == [] then 0.0 else Max(0.0, Cusum(w[..|w| - 1]) + w[|w| - 1])
  }

  /** The height of the cumulative sum above its running minimum is the CUSUM recursion. */
  lemma {:induction false} ExcursionIsCusum(w: seq<real>)
    ensures Sum(w) - LeastPrefix(w) == Cusum(w)
  {
    if w != [] { ExcursionIsCusum(w[..|w| - 1]); }
  }

  /** ... and so the largest sum over a run of samples ending now: no run exceeds it and one reaches it. */
  lemma {:induction false} CusumIsWorstRun(w: seq<real>) returns (start: nat)
    ensures forall j | 0 <= j <= |w| :: Sum(w[j..]) <= Cusum(w)
    ensures start <= |w| && Sum(w[start..]) == Cusum(w)
  {
    if w == [] {
      start := 0;
    } else {
      var front, x := w[..|w| - 1], w[|w| - 1];
      start := CusumIsWorstRun(front);
      forall j | 0 <= j < |w| ensures Sum(w[j..]) == Sum(front[j..]) + x {
        assert w[j..][..|w| - j - 1] == front[j..];
      }
      assert Sum(w[|w|..]) == 0.0;
      if Cusum(front) + x <= 0.0 { start := |w|; }
    }
  }

  /** The larger of the two statistics after stream s, when the sums were last reset at index since. */
  function Statistic(delta: real, s: seq<real>, since: nat): real
    requires since <= |s|
  {
    Max(Cusum(Increments(Up, delta, s, since)), Cusum(Increments(Down, delta, s, since)))
  }

  lemma {:induction false} IncrementAt(side: Side, delta: real, s: seq<real>, since: nat, i: nat)
    requires since <= i < |s|
    ensures Increments(side, delta, s, since)[i - since] == Signed(side, s[i] - Mean(s[..i + 1])) - delta
    decreases |s|
  {
    if i == |s| - 1 {
      assert s[..i + 1] == s;
    } else {
      var front := s[..|s| - 1];
      IncrementAt(side, delta, front, since, i);
      assert front[..i + 1] == s[..i + 1];
    }
  }

  // ---------- what the detector promises ----------

  /** Deviation of sample i from the mean of the stream up to and including it. */
  function Deviation(s: seq<real>, i: nat): real
    requires i < |s|
  {
    s[i] - Mean(s[..i + 1])
  }

  lemma {:induction false} CusumBounded(w: seq<real>, eps: real)
    requires eps >= 0.0 && forall i | 0 <= i < |w| :: w[i] <= eps
    ensures 0.0 <= Cusum(w) <= |w| as real * eps
  {
    if w != [] {
      CusumBounded(w[..|w| - 1], eps);
      assert |w| as real * eps == (|w| - 1) as real * eps + eps;
    }
  }

  lemma {:induction false} CusumGrows(w: seq<real>, k: nat, eps: real)
    requires k <= |w| && forall i | |w| - k <= i < |w| :: w[i] >= eps
    ensures Cusum(w) >= k as real * eps
  {
    if k > 0 {
      CusumGrows(w[..|w| - 1], k - 1, eps);
      assert k as real * eps == (k - 1) as real * eps + eps;
    } else if w != [] {
      assert Cusum(w) >= 0.0;
    }
  }

  lemma QuietSide(side: Side, delta: real, eps: real, s: seq<real>, since: nat)
    requires since <= |s| && eps >= 0.0
    requires forall i | since <= i < |s| :: Signed(side, Deviation(s, i)) <= delta + eps
    ensures 0.0 <= Cusum(Increments(side, delta, s, since)) <= (|s| - since) as real * eps
  {
    hide Cusum;
    var w := Increments(side, delta, s, since);
    forall j | 0 <= j < |w| ensures w[j] <= eps {
      IncrementBound(side, delta, eps, s, since, since + j);
    }
    CusumBounded(w, eps);
  }

  lemma IncrementBound(side: Side, delta: real, eps: real, s: seq<real>, since: nat, i: nat)
    requires since <= i < |s|
    ensures Signed(side, Deviation(s, i)) <= delta + eps ==> Increments(side, delta, s, since)[i - since] <= eps
    ensures Signed(side, Deviation(s, i)) >= delta + eps ==> Increments(side, delta, s, since)[i - since] >= eps
  {
    hide Mean;
    IncrementAt(side, delta, s, since, i);
  }

  /**
   * Samples that leave the running mean by at most delta + eps raise the statistic by at most eps each,
   * so with eps 0 it stays 0 and a non-negative lambda never alarms.
   */
  lemma QuietStream(delta: real, eps: real, s: seq<real>, since: nat)
    requires since <= |s| && eps >= 0.0
    requires forall i | since <= i < |s| :: -delta - eps <= Deviation(s, i) <= delta + eps
    ensures 0.0 <= Statistic(delta, s, since) <= (|s| - since) as real * eps
  {
    QuietSide(Up, delta, eps, s, since);
    QuietSide(Down, delta, eps, s, since);
  }

  /** The last k samples at least delta + eps beyond the mean on one side push the statistic to k * eps. */
  lemma SustainedShift(side: Side, delta: real, eps: real, s: seq<real>, since: nat, k: nat)
    requires since + k <= |s|
    requires forall i | |s| - k <= i < |s| :: Signed(side, Deviation(s, i)) >= delta + eps
    ensures Statistic(delta, s, since) >= k as real * eps
  {
    hide Cusum;
    var w := Increments(side, delta, s, since);
    forall j | |w| - k <= j < |w| ensures w[j] >= eps {
      IncrementBound(side, delta, eps, s, since, since + j);
    }
    CusumGrows(w, k, eps);
  }

  // ---------- the object ----------

  /** How one more sample moves the sum, its running minimum and the CUSUM of one side. */
  lemma SideExtends(side: Side, delta: real, s: seq<real>, since: nat, x: real)
    requires since <= |s|
    ensures var w := Increments(side, delta, s, since);
      var w' := Increments(side, delta, s + [x], since);
      var y := Signed(side, x - Mean(s + [x])) - delta;
      && Sum(w') == Sum(w) + y
      && LeastPrefix(w') == Min(LeastPrefix(w), Sum(w'))
      && Cusum(w') == Sum(w') - LeastPrefix(w')
  {
    assert (s + [x])[..|s + [x]| - 1] == s;
    var w := Increments(side, delta, s, since);
    var w' := Increments(side, delta, s + [x], since);
    assert w'[..|w'| - 1] == w;
    ExcursionIsCusum(w');
  }

  /** The four accumulators of the code: a rising sum over its minimum, a falling sum under its maximum. */
  datatype Accumulators = Accumulators(mUp: real, minUp: real, mDn: real, maxDn: real)

  ghost function SumsOf(delta: real, s: seq<real>, since: nat): Accumulators
    requires since <= |s|
  {
    var up, down := Increments(Up, delta, s, since), Increments(Down, delta, s, since);
    Accumulators(Sum(up), LeastPrefix(up), -Sum(down), -LeastPrefix(down))
  }

  /** One sample's update of the accumulators, given its deviation from the new mean. */
  function Accumulate(delta: real, c: Accumulators, dev: real): Accumulators {
    var mUp, mDn := c.mUp + dev - delta, c.mDn + dev + delta;
    Accumulators(mUp, Min(c.minUp, mUp), mDn, Max(c.maxDn, mDn))
  }

  lemma SumsExtend(delta: real, s: seq<real>, since: nat, x: real)
    requires since <= |s|
    ensures var c := SumsOf(delta, s + [x], since);
      && c == Accumulate(delta, SumsOf(delta, s, since), x - Mean(s + [x]))
      && Max(c.mUp - c.minUp, c.maxDn - c.mDn) == Statistic(delta, s + [x], since)
  {
    hide Mean, Increments, Sum, LeastPrefix, Cusum;
    SideExtends(Up, delta, s, since, x);
    SideExtends(Down, delta, s, since, x);
  }

  class Detector {
    const delta: real
    const lambda: real
    var mean: real
    var cnt: nat
    var mUp: real
    var minUp: real
    var mDn: real
    var maxDn: real
    var drifting: bool
    /** Every finite sample observed, and how many had been observed at the last reset. */
    ghost var stream: seq<real>
    ghost var since: nat

    ghost predicate Valid()
      reads this
    {
      && cnt == |stream| && since <= |stream|
      && mean == (if stream == [] then 0.0 else Mean(stream))
      && Accumulators(mUp, minUp, mDn, maxDn) == SumsOf(delta, stream, since)
      && drifting == (since < |stream| && Statistic(delta, stream, since) > lambda)
    }

    constructor (delta: real, lambda: real)
      ensures Valid() && stream == [] && since == 0
      ensures this.delta == delta && this.lambda == lambda
    {
      this.delta, this.lambda := delta, lambda;
      mean, cnt := 0.0, 0;
      mUp, minUp, mDn, maxDn := 0.0, 0.0, 0.0, 0.0;
      drifting := false;
      stream, since := [], 0;
    }

    /** The magnitude is the two-sided CUSUM statistic since the last reset, around the exact running mean. */
    method Observe(x: Number) returns (drift: bool, magnitude: real)
      requires Valid()
      modifies this
      ensures Valid() && since == old(since)
      ensures stream == old(stream) + Samples(x)
      ensures drift == drifting
      ensures x.NotFinite? ==> magnitude == 0.0
      ensures x.Finite? ==> magnitude == Statistic(delta, stream, since) && drift == (magnitude > lambda)
    {
      hide Mean, Statistic, SumsOf, Accumulate;
      if x.NotFinite? { return drifting, 0.0; }
      SumsExtend(delta, stream, since, x.value);
      stream := stream + [x.value];
      UpdateMean(x.value);
      var phUp, phDn := UpdateSums(x.value);
      magnitude := Max(phUp, phDn);
      drifting := magnitude > lambda;
      drift := drifting;
    }

    method UpdateSums(x: real) returns (phUp: real, phDn: real)
      modifies `mUp, `minUp, `mDn, `maxDn
      ensures Accumulators(mUp, minUp, mDn, maxDn)
           == Accumulate(delta, old(Accumulators(mUp, minUp, mDn, maxDn)), x - mean)
      ensures phUp == mUp - minUp && phDn == maxDn - mDn
    {
      mUp := mUp + (x - mean - delta);
      minUp := Min(minUp, mUp);
      phUp := mUp - minUp;

      mDn := mDn + (x - mean + delta);
      maxDn := Max(maxDn, mDn);
      phDn := maxDn - mDn;
    }

    method UpdateMean(v: real)
      requires stream != [] && stream[|stream| - 1] == v && cnt == |stream| - 1
      requires mean == if cnt == 0 then 0.0 else Mean(stream[..cnt])
      modifies `mean, `cnt
      ensures cnt == |stream| && mean == Mean(stream)
    {
      MeanExtends(stream[..cnt], v);
      assert stream == stream[..cnt] + [v];
      cnt := cnt + 1;
      mean := mean + (v - mean) / cnt as real;
    }

    /** Forget the sums but not the mean. */
    method Reset()
      requires Valid()
      modifies this
      ensures Valid() && stream == old(stream) && since == |stream|
      ensures mean == old(mean) && cnt == old(cnt) && !drifting
    {
      mUp, minUp, mDn, maxDn := 0.0, 0.0, 0.0, 0.0;
      drifting := false;
      since := |stream|;
    }
  }
}
