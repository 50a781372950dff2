/** The profile distributions of welford.ts, their divergence, and what it lets the cohorts of sybilCluster.ts see. */
module Divergence {
  import opened Optional
  import opened Sums
  import opened Sybil
  import opened Welford

  const EPS := 0.0000000001
  const BINS := 20
  const SIGMAS := 3.0
  /** Profiles with fewer samples have the all-zero distribution. */
  const SHAPED := 10

  /** The analytic functions that the code calls, and the square root of twice pi. */
  datatype Analysis = Analysis(sqrt: real -> real, exp: real -> real, log: real -> real, sqrtTwoPi: real)

  ghost predicate Lawful(a: Analysis) {
    && a.sqrtTwoPi > 0.0
    && (forall x :: a.exp(x) > 0.0)
    && (forall x, y | 0.0 < x <= y :: a.log(x) <= a.log(y))
    && (forall x, y :: LogOfProduct(a, x, y))
    && a.log(2.0) >= 0.5
  }

  ghost predicate LogOfProduct(a: Analysis, x: real, y: real) {
    x > 0.0 && y > 0.0 ==> a.log(x * y) == a.log(x) + a.log(y)
  }

  // ---------- the code ----------

  /** `stddev || 1`. */
  function Width(a: Analysis, p: Profile): (w: real)
    ensures w != 0.0
  {
    var std := a.sqrt(Variance(p));
    if std == 0.0 then 1.0 else std
  }

  /** Left edge and width of the histogram's bins. */
  function Low(mean: real, std: real, sigmas: real): real { mean - sigmas * std }

  function BinWidth(mean: real, std: real, bins: nat, sigmas: real): real
    requires bins > 0
  {
    ((mean + sigmas * std) - (mean - sigmas * std)) / bins as real
  }

  /** Entry i before normalisation. */
  function Bin(a: Analysis, mean: real, std: real, lo: real, width: real, i: nat): real
    requires std != 0.0 && a.sqrtTwoPi != 0.0
  {
    var x := lo + (i as real + 0.5) * width;
    var z := (x - mean) / std;
    Gauss(a, z) / Scaled(std, a.sqrtTwoPi) * width
  }

  function Gauss(a: Analysis, z: real): real { a.exp(-0.5 * z * z) }

  function Scaled(std: real, c: real): (r: real)
    requires std != 0.0 && c != 0.0
    ensures r != 0.0
  {
    NonZeroProduct(std, c);
    std * c
  }

  lemma NonZeroProduct(x: real, y: real)
    requires x != 0.0 && y != 0.0
    ensures x * y != 0.0
  {
    var w := x * y;
    assert w / y == x;
  }

  function Normalize(s: seq<real>): (r: seq<real>)
    ensures |r| == |s|
  {
    var sum := Sum(s);
    if sum > 0.0 then seq(|s|, i requires 0 <= i < |s| => s[i] / sum) else s
  }

  function Raw(a: Analysis, mean: real, std: real, bins: nat, sigmas: real): (r: seq<real>)
    requires bins > 0 && std != 0.0 && a.sqrtTwoPi != 0.0
    ensures |r| == bins
  {
    var lo, width := Low(mean, std, sigmas), BinWidth(mean, std, bins, sigmas);
    seq(bins, i requires 0 <= i < bins => Bin(a, mean, std, lo, width, i))
  }

  function Zeros(bins: nat): seq<real> { seq(bins, _ => 0.0) }

  function Distribution(a: Analysis, p: Profile, bins: nat, sigmas: real): (r: seq<real>)
    requires bins > 0 && a.sqrtTwoPi != 0.0
    ensures |r| == bins
  {
    if p.count < SHAPED then Zeros(bins) else Normalize(Raw(a, p.mean, Width(a, p), bins, sigmas))
  }

  ghost predicate NonNegative(s: seq<real>) { forall i | 0 <= i < |s| :: s[i] >= 0.0 }

  /** The divergence summed over the first n entries. */
  function Kl(a: Analysis, p: seq<real>, q: seq<real>, n: nat): real
    requires n <= |p| == |q| && NonNegative(q)
  {
    if n == 0 then 0.0
    else Kl(a, p, q, n - 1) + KlTerm(a, p[n - 1], q[n - 1])
  }

  function KlTerm(a: Analysis, p: real, q: real): real
    requires q >= 0.0
  {
    (p + EPS) * a.log((p + EPS) / (q + EPS))
  }

  /** `_klDistance`: 1 for a profile that is not stable. */
  function KlDistance(a: Analysis): Distance
    requires Lawful(a)
  {
    (x: Profile, y: Profile) =>
      if x.count < STABLE || y.count < STABLE then 1.0
      else
        DistributionNonNegative(a, y, BINS, SIGMAS);
        Kl(a, Distribution(a, x, BINS, SIGMAS), Distribution(a, y, BINS, SIGMAS), BINS)
  }

  method ToDistribution(a: Analysis, p: Profile, bins: nat, sigmas: real) returns (dist: seq<real>)
    requires bins > 0 && a.sqrtTwoPi != 0.0
    ensures dist == Distribution(a, p, bins, sigmas)
  {
    hide Bin, Low, BinWidth;
    var entries := new real[bins](_ => 0.0);
    if p.count < SHAPED { return entries[..]; }
    var std := Width(a, p);
    var lo := Low(p.mean, std, sigmas);
    var width := BinWidth(p.mean, std, bins, sigmas);
    for i := 0 to bins
      invariant forall j | 0 <= j < i :: entries[j] == Bin(a, p.mean, std, lo, width, j)
    {
      entries[i] := Bin(a, p.mean, std, lo, width, i);
    }
    assert entries[..] == Raw(a, p.mean, std, bins, sigmas);
    dist := Normalize(entries[..]);
  }

  /** None where the lengths differ and the original throws. */
  method KlDivergence(a: Analysis, p: seq<real>, q: seq<real>) returns (kl: Option<real>)
    requires NonNegative(q)
    ensures kl == if |p| != |q| then None else Some(Kl(a, p, q, |p|))
  {
    if |p| != |q| { return None; }
    var sum := 0.0;
    for i := 0 to |p|
      invariant sum == Kl(a, p, q, i)
    {
      var pi := p[i] + EPS;
      var qi := q[i] + EPS;
      sum := sum + pi * a.log(pi / qi);
    }
    return Some(sum);
  }

  // ---------- the distribution is the same for every shaped profile ----------

  /** Entry i in units of the deviation, counted from the mean: no profile in it. */
  function Standard(a: Analysis, bins: nat, sigmas: real, i: nat): real
    requires bins > 0 && a.sqrtTwoPi != 0.0
  {
    Step(a, sigmas, 2.0 * sigmas / bins as real, i)
  }

  function Step(a: Analysis, sigmas: real, step: real, i: nat): real
    requires a.sqrtTwoPi != 0.0
  {
    Gauss(a, -sigmas + (i as real + 0.5) * step) / a.sqrtTwoPi * step
  }

  lemma WidthScales(mean: real, std: real, bins: nat, sigmas: real)
    requires bins > 0
    ensures BinWidth(mean, std, bins, sigmas) == std * (2.0 * sigmas / bins as real)
  {
    var n, step, width := bins as real, 2.0 * sigmas / bins as real, BinWidth(mean, std, bins, sigmas);
    assert step * n == 2.0 * sigmas;
    assert width * n == 2.0 * (sigmas * std);
    assert (std * step) * n == std * (step * n);
  }

  lemma PlaceScales(mean: real, std: real, sigmas: real, step: real, k: real, z: real)
    requires std != 0.0 && z == ((mean - sigmas * std) + k * (std * step) - mean) / std
    ensures z == -sigmas + k * step
  {
    var w := -sigmas + k * step;
    assert k * (std * step) == std * (k * step);
    assert w * std == -sigmas * std + std * (k * step);
    assert z * std == w * std;
  }

  lemma HeightScales(h: real, std: real, c: real, scaled: real, step: real)
    requires std != 0.0 && c != 0.0 && scaled == std * c != 0.0
    ensures h / scaled * (std * step) == h / c * step
  {
    var t, s := h / scaled, h / c;
    assert t * (std * c) == h;
    assert (t * std) * c == t * (std * c);
    assert s * c == h;
    assert t * std == s;
    assert t * (std * step) == (t * std) * step;
  }

  /** One entry, given that its bin starts the same number of deviations from the mean. */
  lemma EntryStandard(a: Analysis, mean: real, std: real, lo: real, width: real,
                      sigmas: real, step: real, i: nat, z: real)
    requires std != 0.0 && a.sqrtTwoPi != 0.0 && width == std * step
    requires (lo + (i as real + 0.5) * width - mean) / std == z
    requires z == -sigmas + (i as real + 0.5) * step
    ensures Bin(a, mean, std, lo, width, i) == Step(a, sigmas, step, i)
  {
    hide Gauss;
    HeightScales(Gauss(a, z), std, a.sqrtTwoPi, Scaled(std, a.sqrtTwoPi), step);
  }

  lemma BinStandard(a: Analysis, mean: real, std: real, bins: nat, sigmas: real, i: nat)
    requires bins > 0 && std != 0.0 && a.sqrtTwoPi != 0.0
    ensures var lo, width := Low(mean, std, sigmas), BinWidth(mean, std, bins, sigmas);
      Bin(a, mean, std, lo, width, i) == Standard(a, bins, sigmas, i)
  {
    hide BinWidth, Bin, Step;
    var k, step, width := i as real + 0.5, 2.0 * sigmas / bins as real, BinWidth(mean, std, bins, sigmas);
    WidthScales(mean, std, bins, sigmas);
    var z := (Low(mean, std, sigmas) + k * width - mean) / std;
    PlaceScales(mean, std, sigmas, step, k, z);
    EntryStandard(a, mean, std, Low(mean, std, sigmas), width, sigmas, step, i, z);
  }

  /** Over the reals every profile with ten samples or more has one and the same distribution. */
  lemma DistributionForgets(a: Analysis, x: Profile, y: Profile, bins: nat, sigmas: real)
    requires bins > 0 && a.sqrtTwoPi != 0.0
    requires x.count < SHAPED <==> y.count < SHAPED
    ensures Distribution(a, x, bins, sigmas) == Distribution(a, y, bins, sigmas)
  {
    hide Bin, Standard, Width, Normalize;
    if x.count >= SHAPED {
      var p, q := Raw(a, x.mean, Width(a, x), bins, sigmas), Raw(a, y.mean, Width(a, y), bins, sigmas);
      forall i | 0 <= i < bins ensures p[i] == q[i] {
        BinStandard(a, x.mean, Width(a, x), bins, sigmas, i);
        BinStandard(a, y.mean, Width(a, y), bins, sigmas, i);
      }
      assert p == q;
    }
  }

  lemma QuotientNonNegative(x: real, y: real)
    requires x >= 0.0 && y > 0.0
    ensures x / y >= 0.0
  {
    var q := x / y;
    assert q * y == x;
  }

  lemma StepNonNegative(a: Analysis, sigmas: real, step: real, i: nat)
    requires Lawful(a) && step >= 0.0
    ensures Step(a, sigmas, step, i) >= 0.0
    ensures step > 0.0 ==> Step(a, sigmas, step, i) > 0.0
  {
    var h := Gauss(a, -sigmas + (i as real + 0.5) * step);
    assert h > 0.0;
    QuotientNonNegative(h, a.sqrtTwoPi);
    var f := h / a.sqrtTwoPi;
    assert f > 0.0 by { assert f * a.sqrtTwoPi == h; }
    assert f * step >= 0.0;
  }

  lemma StandardNonNegative(a: Analysis, bins: nat, sigmas: real, i: nat)
    requires Lawful(a) && bins > 0 && sigmas >= 0.0
    ensures Standard(a, bins, sigmas, i) >= 0.0
    ensures sigmas > 0.0 ==> Standard(a, bins, sigmas, i) > 0.0
  {
    var step := 2.0 * sigmas / bins as real;
    QuotientNonNegative(2.0 * sigmas, bins as real);
    assert step * bins as real == 2.0 * sigmas;
    StepNonNegative(a, sigmas, step, i);
  }

  lemma NormalizeNonNegative(s: seq<real>)
    requires NonNegative(s)
    ensures NonNegative(Normalize(s))
  {
    hide Sum;
    if Sum(s) > 0.0 {
      forall i | 0 <= i < |s| ensures Normalize(s)[i] >= 0.0 {
        QuotientNonNegative(s[i], Sum(s));
      }
    }
  }

  lemma DistributionNonNegative(a: Analysis, p: Profile, bins: nat, sigmas: real)
    requires Lawful(a) && bins > 0 && sigmas >= 0.0
    ensures NonNegative(Distribution(a, p, bins, sigmas))
  {
    hide Bin, Standard, Normalize, Width;
    if p.count >= SHAPED {
      var raw := Raw(a, p.mean, Width(a, p), bins, sigmas);
      forall i | 0 <= i < bins ensures raw[i] >= 0.0 {
        BinStandard(a, p.mean, Width(a, p), bins, sigmas, i);
        StandardNonNegative(a, bins, sigmas, i);
      }
      NormalizeNonNegative(raw);
    }
  }

  // ---------- a shaped distribution has an entry of its share ----------

  lemma {:induction false} SumOfPositive(s: seq<real>)
    requires forall i | 0 <= i < |s| :: s[i] > 0.0
    ensures Sum(s) >= 0.0
    ensures s != [] ==> Sum(s) > 0.0
  {
    if s != [] { SumOfPositive(s[..|s| - 1]); }
  }

  lemma {:induction false} SumScaled(s: seq<real>, t: seq<real>, c: real)
    requires |s| == |t| && c > 0.0 && forall i | 0 <= i < |s| :: t[i] == s[i] / c
    ensures Sum(t) == Sum(s) / c
  {
    if s != [] {
      var u, x := Sum(s[..|s| - 1]), s[|s| - 1];
      SumScaled(s[..|s| - 1], t[..|t| - 1], c);
      QuotientAdds(u, x, c);
    }
  }

  lemma QuotientAdds(u: real, x: real, c: real)
    requires c > 0.0
    ensures u / c + x / c == (u + x) / c
  {
  }

  lemma NormalizeTotal(s: seq<real>)
    requires Sum(s) > 0.0
    ensures Sum(Normalize(s)) == 1.0
  {
    hide Sum;
    var c := Sum(s);
    SumScaled(s, Normalize(s), c);
    assert c / c == 1.0;
  }

  /** If every entry is below c, so is the average. */
  lemma {:induction false} SumBelow(s: seq<real>, c: real)
    requires forall i | 0 <= i < |s| :: s[i] < c
    ensures Sum(s) <= |s| as real * c
    ensures s != [] ==> Sum(s) < |s| as real * c
  {
    if s != [] {
      SumBelow(s[..|s| - 1], c);
      assert |s| as real * c == (|s| - 1) as real * c + c;
    }
  }

  /** Some bin of a shaped profile holds at least a twentieth. */
  lemma LargeEntry(a: Analysis, x: Profile) returns (k: nat)
    requires Lawful(a) && x.count >= SHAPED
    ensures k < BINS && Distribution(a, x, BINS, SIGMAS)[k] >= 0.05
  {
    hide Bin, Standard, Width, Sum, Normalize, Raw;
    var raw := Raw(a, x.mean, Width(a, x), BINS, SIGMAS);
    RawPositive(a, x);
    SumOfPositive(raw);
    NormalizeTotal(raw);
    var d := Distribution(a, x, BINS, SIGMAS);
    assert d == Normalize(raw);
    if forall i | 0 <= i < BINS :: d[i] < 0.05 { SumBelow(d, 0.05); }
    k :| 0 <= k < BINS && d[k] >= 0.05;
  }

  lemma RawPositive(a: Analysis, x: Profile)
    requires Lawful(a)
    ensures forall i | 0 <= i < BINS :: Raw(a, x.mean, Width(a, x), BINS, SIGMAS)[i] > 0.0
  {
    hide Bin, Standard, Width;
    forall i | 0 <= i < BINS ensures Raw(a, x.mean, Width(a, x), BINS, SIGMAS)[i] > 0.0 {
      BinStandard(a, x.mean, Width(a, x), BINS, SIGMAS, i);
      StandardNonNegative(a, BINS, SIGMAS, i);
    }
  }

  // ---------- its form: the standard normal density at the twenty bin centres ----------

  /** The centre of bin i of twenty over three deviations on either side of the mean. */
  function Centre(i: nat): real { -2.85 + 0.3 * i as real }

  lemma StandardAt(a: Analysis, i: nat)
    requires a.sqrtTwoPi > 0.0
    ensures Standard(a, BINS, SIGMAS, i) == Gauss(a, Centre(i)) / a.sqrtTwoPi * 0.3
  {
    assert 2.0 * SIGMAS / BINS as real == 0.3;
    assert -SIGMAS + (i as real + 0.5) * 0.3 == Centre(i);
  }

  lemma CrossRatio(u: real, v: real, c: real, step: real, x: real, y: real)
    requires c > 0.0 && x == u / c * step && y == v / c * step
    ensures x * v == y * u
  {
    var s, t := u / c, v / c;
    assert s * c == u && t * c == v;
    assert (s * step) * (t * c) == (t * step) * (s * c);
  }

  lemma CrossScaled(x: real, y: real, u: real, v: real, c: real)
    requires c > 0.0 && x * v == y * u
    ensures x / c * v == y / c * u
  {
    var s, t := x / c, y / c;
    assert s * c == x && t * c == y;
    assert (s * v - t * u) * c == x * v - y * u;
  }

  lemma GaussAt(a: Analysis, i: nat)
    ensures Gauss(a, Centre(i)) == a.exp(-0.5 * Centre(i) * Centre(i))
  {
  }

  /** A shaped distribution has twenty entries that sum to 1, in the ratios of the normal density at their centres. */
  lemma DistributionRatios(a: Analysis, x: Profile, i: nat, j: nat)
    requires Lawful(a) && x.count >= 10 && i < 20 && j < 20
    ensures var d := Distribution(a, x, BINS, SIGMAS);
      && |d| == 20 && Sum(d) == 1.0
      && d[i] * a.exp(-0.5 * Centre(j) * Centre(j)) == d[j] * a.exp(-0.5 * Centre(i) * Centre(i))
  {
    hide Bin, Standard, Width, Sum, Gauss, Centre;
    var raw := Raw(a, x.mean, Width(a, x), BINS, SIGMAS);
    RawPositive(a, x);
    SumOfPositive(raw);
    NormalizeTotal(raw);
    BinStandard(a, x.mean, Width(a, x), BINS, SIGMAS, i);
    BinStandard(a, x.mean, Width(a, x), BINS, SIGMAS, j);
    StandardAt(a, i);
    StandardAt(a, j);
    GaussAt(a, i);
    GaussAt(a, j);
    CrossRatio(Gauss(a, Centre(i)), Gauss(a, Centre(j)), a.sqrtTwoPi, 0.3, raw[i], raw[j]);
    CrossScaled(raw[i], raw[j], Gauss(a, Centre(i)), Gauss(a, Centre(j)), Sum(raw));
  }

  // ---------- logarithms ----------

  lemma LogOne(a: Analysis)
    requires Lawful(a)
    ensures a.log(1.0) == 0.0
  {
    assert LogOfProduct(a, 1.0, 1.0);
  }

  lemma LogSign(a: Analysis, x: real)
    requires Lawful(a) && x > 0.0
    ensures x <= 1.0 ==> a.log(x) <= 0.0
    ensures x >= 1.0 ==> a.log(x) >= 0.0
  {
    LogOne(a);
  }

  lemma LogLarge(a: Analysis, x: real)
    requires Lawful(a) && x >= 256.0
    ensures a.log(x) >= 4.0
  {
    assert LogOfProduct(a, 2.0, 2.0) && LogOfProduct(a, 4.0, 4.0) && LogOfProduct(a, 16.0, 16.0);
    assert 2.0 * 2.0 == 4.0 && 4.0 * 4.0 == 16.0 && 16.0 * 16.0 == 256.0;
    assert a.log(256.0) <= a.log(x);
  }

  // ---------- what the divergence can tell apart ----------

  /** A distribution does not diverge from itself. */
  lemma {:induction false} KlSelf(a: Analysis, p: seq<real>, n: nat)
    requires Lawful(a) && NonNegative(p) && n <= |p|
    ensures Kl(a, p, p, n) == 0.0
  {
    if n > 0 {
      KlSelf(a, p, n - 1);
      LogOne(a);
      var x := p[n - 1] + EPS;
      assert x / x == 1.0;
    }
  }

  lemma Fraction(q: real)
    requires q >= 0.0
    ensures 0.0 < EPS / (q + EPS) <= 1.0
  {
    var f := EPS / (q + EPS);
    assert f * (q + EPS) == EPS;
  }

  /** Nothing diverges from the all-zero distribution by more than nothing. */
  lemma {:induction false} KlFromZeros(a: Analysis, p: seq<real>, q: seq<real>, n: nat)
    requires Lawful(a) && n <= |p| == |q| && NonNegative(q) && p == Zeros(|p|)
    ensures Kl(a, p, q, n) <= 0.0
  {
    if n > 0 {
      KlFromZeros(a, p, q, n - 1);
      Fraction(q[n - 1]);
      assert p[n - 1] + EPS == EPS;
      LogSign(a, EPS / (q[n - 1] + EPS));
      var l := a.log(EPS / (q[n - 1] + EPS));
      assert EPS * l <= 0.0;
    }
  }

  /** Two stable profiles, both shaped or both not, are at distance zero, whatever their means and variances. */
  lemma SameShapeDistance(a: Analysis, x: Profile, y: Profile)
    requires Lawful(a) && x.count >= STABLE && y.count >= STABLE
    requires x.count < SHAPED <==> y.count < SHAPED
    ensures KlDistance(a)(x, y) == 0.0
  {
    hide Distribution, Kl;
    DistributionForgets(a, x, y, BINS, SIGMAS);
    DistributionNonNegative(a, y, BINS, SIGMAS);
    KlSelf(a, Distribution(a, y, BINS, SIGMAS), BINS);
  }

  lemma UnshapedDistance(a: Analysis, x: Profile, y: Profile)
    requires Lawful(a) && STABLE <= x.count < SHAPED && y.count >= STABLE
    ensures KlDistance(a)(x, y) <= 0.0
  {
    hide Kl, Normalize, Raw;
    DistributionNonNegative(a, y, BINS, SIGMAS);
    KlFromZeros(a, Distribution(a, x, BINS, SIGMAS), Distribution(a, y, BINS, SIGMAS), BINS);
  }

  /** One entry against zero. */
  lemma TermToZero(a: Analysis, p: real, q: real)
    requires Lawful(a) && p >= 0.0 && q == 0.0
    ensures KlTerm(a, p, q) >= 0.0
    ensures p >= 0.05 ==> KlTerm(a, p, q) >= 0.2
  {
    var f := (p + EPS) / EPS;
    assert f * EPS == p + EPS;
    LogSign(a, f);
    var l := a.log(f);
    assert (p + EPS) * l >= 0.0;
    if p >= 0.05 {
      LogLarge(a, f);
      assert (p - 0.05) * l >= 0.0;
      assert EPS * l >= 0.0;
      assert (p + EPS) * l == p * l + EPS * l;
    }
  }

  /** The divergence from zeros is at least the term of any one entry. */
  lemma {:induction false} KlToZeros(a: Analysis, p: seq<real>, q: seq<real>, n: nat, k: nat)
    requires Lawful(a) && n <= |p| == |q| && NonNegative(p) && NonNegative(q) && q == Zeros(|q|)
    ensures Kl(a, p, q, n) >= 0.0
    ensures k < n ==> Kl(a, p, q, n) >= KlTerm(a, p[k], q[k])
  {
    hide KlTerm, Lawful;
    if n > 0 {
      KlToZeros(a, p, q, n - 1, k);
      TermToZero(a, p[n - 1], q[n - 1]);
    }
  }

  /** A shaped profile is far from a stable one that is not shaped. */
  lemma ShapedDistance(a: Analysis, x: Profile, y: Profile)
    requires Lawful(a) && x.count >= SHAPED && STABLE <= y.count < SHAPED
    ensures KlDistance(a)(x, y) >= 0.2
  {
    hide Kl, KlTerm, Normalize, Raw;
    DistributionNonNegative(a, x, BINS, SIGMAS);
    DistributionNonNegative(a, y, BINS, SIGMAS);
    var k := LargeEntry(a, x);
    var p, q := Distribution(a, x, BINS, SIGMAS), Distribution(a, y, BINS, SIGMAS);
    KlToZeros(a, p, q, BINS, k);
    TermToZero(a, p[k], q[k]);
  }

  /** Profiles with fewer than five samples are at distance 1 from any other, and any other from them. */
  lemma UnstableDistance(a: Analysis, x: Profile, y: Profile)
    requires Lawful(a) && (x.count < 5 || y.count < 5)
    ensures KlDistance(a)(x, y) == 1.0
  {
  }

  /**
   * Of two stable profiles the first is near the second exactly when it has fewer than ten samples or the second has
   * ten: means and variances do not enter.
   */
  lemma NearExactly(a: Analysis, x: Profile, y: Profile)
    requires Lawful(a) && x.count >= STABLE && y.count >= STABLE
    ensures KlDistance(a)(x, y) < COHORT_KL_THRESHOLD <==> x.count < SHAPED || y.count >= SHAPED
  {
    hide KlDistance;
    if x.count < SHAPED {
      UnshapedDistance(a, x, y);
    } else if y.count >= SHAPED {
      SameShapeDistance(a, x, y);
    } else {
      ShapedDistance(a, x, y);
    }
  }

  /** Cohort k has a representative, and one with ten samples if x has ten. */
  predicate Eligible(cl: Cluster, x: Profile, k: nat)
    requires k < |cl.cohorts|
  {
    var rep := Representative(cl.records, cl.cohorts[k].members);
    rep.Some? && (x.count >= SHAPED ==> cl.records[rep.value].profile.count >= SHAPED)
  }

  lemma FitsExactly(a: Analysis, cl: Cluster, x: Profile, k: nat)
    requires Lawful(a) && x.count >= STABLE && k < |cl.cohorts|
    ensures Fits(KlDistance(a), cl, x, k) <==> Eligible(cl, x, k)
  {
    hide KlDistance;
    var rep := Representative(cl.records, cl.cohorts[k].members);
    if rep.Some? { NearExactly(a, x, cl.records[rep.value].profile); }
  }

  /**
   * A stable profile joins exactly the first eligible cohort and founds a new one exactly when none is eligible: a
   * profile of ten samples or more whenever no other such profile represents a cohort, a smaller one whenever no
   * cohort is represented at all.
   */
  lemma {:induction false} JoinsFirstEligible(a: Analysis, cl: Cluster, x: Profile, i: nat)
    requires Lawful(a) && x.count >= STABLE && i <= |cl.cohorts|
    ensures match FindCohort(KlDistance(a), cl, x, i)
      case None => forall j | i <= j < |cl.cohorts| :: !Eligible(cl, x, j)
      case Some(k) => i <= k < |cl.cohorts| && Eligible(cl, x, k) && forall j | i <= j < k :: !Eligible(cl, x, j)
    decreases |cl.cohorts| - i
  {
    hide KlDistance, Eligible, Fits;
    if i < |cl.cohorts| {
      FitsExactly(a, cl, x, i);
      JoinsFirstEligible(a, cl, x, i + 1);
    }
  }

  /** So the search sees of a stable profile only whether it has ten samples. */
  lemma CohortsForget(a: Analysis, cl: Cluster, x: Profile, y: Profile)
    requires Lawful(a) && x.count >= STABLE && y.count >= STABLE
    requires x.count < SHAPED <==> y.count < SHAPED
    ensures FindCohort(KlDistance(a), cl, x, 0) == FindCohort(KlDistance(a), cl, y, 0)
  {
    JoinsFirstEligible(a, cl, x, 0);
    JoinsFirstEligible(a, cl, y, 0);
    assert forall j | 0 <= j < |cl.cohorts| :: Eligible(cl, x, j) <==> Eligible(cl, y, j);
    hide Eligible, FindCohort, KlDistance;
  }
}
