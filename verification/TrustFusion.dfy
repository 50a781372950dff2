/** trustEngine.ts: hard gates, weighted fusion of the soft signals, and decision bands. */
module TrustFusion {
  import opened Filtering
  import opened Optional
  import opened Reals
  import opened Sorting
  import opened Sums

  const BAND_ALLOW := 0.7
  const BAND_STEP_UP := 0.4
  const BAND_SHADOW_LIMIT := 0.2

  datatype Signal = Signal(id: string, hardFail: bool, score: real, weight: real, reasons: seq<string>)

  datatype Decision = DENY | SHADOW_LIMIT | STEP_UP | ALLOW

  datatype Assessment = Assessment(decision: Decision, fusedScore: real, hardFailed: bool, reasons: seq<string>)

  /** How much a decision lets through. */
  function Rank(d: Decision): int {
    match d
    case DENY => 0
    case SHADOW_LIMIT => 1
    case STEP_UP => 2
    case ALLOW => 3
  }

  function IsSoft(s: Signal): bool { !s.hardFail }

  function Failing(s: Signal): bool { s.hardFail && s.score <= 0.0 }

  function Soft(signals: seq<Signal>): seq<Signal> { Filter(IsSoft, signals) }

  function Weight(s: Signal): real { s.weight }

  function Weighted(s: Signal): real { s.score * s.weight }

  function TotalOf(f: Signal -> real, s: seq<Signal>): real { Sum(Map(f, s)) }

  lemma TotalOfLast(f: Signal -> real, s: seq<Signal>)
    ensures s == [] ==> TotalOf(f, s) == 0.0
    ensures s != [] ==> TotalOf(f, s) == TotalOf(f, s[..|s| - 1]) + f(s[|s| - 1])
  {
    if s != [] { assert Map(f, s)[..|s| - 1] == Map(f, s[..|s| - 1]); }
  }

  function Weakest(soft: seq<Signal>): (w: real)
    requires soft != []
    ensures forall s | s in soft :: w <= s.score
  {
    var last := soft[|soft| - 1];
    if |soft| == 1 then last.score
    else
      var w := Weakest(soft[..|soft| - 1]);
      assert forall s :: s in soft <==> s in soft[..|soft| - 1] || s == last;
      if w <= last.score then w else last.score
  }

  /** The weakest score is some signal's score. */
  lemma {:induction false} WeakestAt(soft: seq<Signal>) returns (k: nat)
    requires soft != []
    ensures k < |soft| && soft[k].score == Weakest(soft)
  {
    var front, last := soft[..|soft| - 1], |soft| - 1;
    if last == 0 || soft[last].score < Weakest(front) { k := last; } else { k := WeakestAt(front); }
  }

  function Moderation(weakest: real): real { 0.5 + 0.5 * weakest }

  function Clamp(x: real): real {
    if x > 1.0 then 1.0 else if x < 0.0 then 0.0 else x
  }

  /** The weighted mean, a zero total weight replaced by 1, moderated by the weakest score. */
  function Fuse(sum: real, weight: real, weakest: real): real {
    Clamp(sum / (if weight == 0.0 then 1.0 else weight) * Moderation(weakest))
  }

  function FuseSoftSignals(signals: seq<Signal>): real {
    var soft := Soft(signals);
    if soft == [] then 1.0 else Fuse(TotalOf(Weighted, soft), TotalOf(Weight, soft), Weakest(soft))
  }

  function BandFor(score: real): Decision {
    if score >= BAND_ALLOW then ALLOW
    else if score >= BAND_STEP_UP then STEP_UP
    else if score >= BAND_SHADOW_LIMIT then SHADOW_LIMIT
    else DENY
  }

  function Find(test: Signal -> bool, signals: seq<Signal>): (r: Option<Signal>)
    ensures r.None? <==> forall s | s in signals :: !test(s)
    ensures r.Some? ==> r.value in signals && test(r.value)
  {
    if signals == [] then None
    else if test(signals[0]) then Some(signals[0])
    else Find(test, signals[1..])
  }

  function AllReasons(signals: seq<Signal>): seq<string> {
    if signals == [] then []
    else
      var s := signals[|signals| - 1];
      AllReasons(signals[..|signals| - 1]) + Map((r: string) => s.id + ":" + r, s.reasons)
  }

  function EvaluateTrust(signals: seq<Signal>): Assessment {
    match Find(Failing, signals)
    case Some(s) => Assessment(DENY, 0.0, true, ["hard_fail:" + s.id] + s.reasons)
    case None =>
      var fused := FuseSoftSignals(signals);
      Assessment(BandFor(fused), fused, false, AllReasons(signals))
  }

  /** What the interface promises: soft scores between 0 and 1, no negative weight. */
  ghost predicate Graded(s: Signal) { s.hardFail || (0.0 <= s.score <= 1.0 && s.weight >= 0.0) }

  ghost predicate AllGraded(signals: seq<Signal>) { forall s | s in signals :: Graded(s) }

  // ---------- the fused score ----------

  lemma WeightedBetween(s: Signal, low: real)
    requires 0.0 <= low <= s.score <= 1.0 && s.weight >= 0.0
    ensures low * s.weight <= Weighted(s) <= s.weight
  {
    assert (s.score - low) * s.weight >= 0.0;
    assert (1.0 - s.score) * s.weight >= 0.0;
  }

  lemma BoundsAdd(low: real, weight: real, weighted: real, w: real, x: real)
    requires low >= 0.0 && w >= 0.0 && 0.0 <= low * weight <= weighted <= weight && low * w <= x <= w
    ensures 0.0 <= low * (weight + w) <= weighted + x <= weight + w
  {
    Product(low, w);
    assert low * (weight + w) == low * weight + low * w;
  }

  /** The weighted sum lies between the smallest score and 1, in units of the total weight. */
  lemma {:induction false} SumsBetween(soft: seq<Signal>, low: real)
    requires low >= 0.0 && forall s | s in soft :: low <= s.score <= 1.0 && s.weight >= 0.0
    ensures 0.0 <= low * TotalOf(Weight, soft) <= TotalOf(Weighted, soft) <= TotalOf(Weight, soft)
  {
    TotalOfLast(Weight, soft);
    TotalOfLast(Weighted, soft);
    hide TotalOf, Weighted;
    if soft != [] {
      var front, last := soft[..|soft| - 1], soft[|soft| - 1];
      SumsBetween(front, low);
      WeightedBetween(last, low);
      BoundsAdd(low, TotalOf(Weight, front), TotalOf(Weighted, front), last.weight, Weighted(last));
    }
  }

  lemma Product(x: real, y: real)
    requires x >= 0.0 && y >= 0.0
    ensures x * y >= 0.0
  {
  }

  /** With weight, the clamp never acts; without, the sum and the result are zero. */
  lemma FuseExact(sum: real, weight: real, weakest: real)
    requires 0.0 <= weakest <= 1.0 && 0.0 <= weakest * weight <= sum <= weight
    ensures weight == 0.0 ==> Fuse(sum, weight, weakest) == 0.0
    ensures weight > 0.0 ==> Fuse(sum, weight, weakest) == sum / weight * Moderation(weakest)
    ensures weight > 0.0 ==> weakest * Moderation(weakest) <= Fuse(sum, weight, weakest)
    ensures 0.0 <= Fuse(sum, weight, weakest) <= Moderation(weakest) <= 1.0
  {
    if weight > 0.0 {
      var mean, m := sum / weight, Moderation(weakest);
      QuotientOrder(sum, weight, weakest);
      QuotientOrder(sum, weight, 1.0);
      Product(mean - weakest, m);
      Product(1.0 - mean, m);
      Product(weakest, m);
      assert (mean - weakest) * m == mean * m - weakest * m && (1.0 - mean) * m == m - mean * m;
    }
  }

  lemma ProductsOrdered(a: real, b: real, c: real, d: real)
    requires 0.0 <= a <= c && 0.0 <= b <= d
    ensures a * b <= c * d
  {
    Product(c - a, d);
    Product(a, d - b);
    assert c * d - a * b == (c - a) * d + a * (d - b);
  }

  lemma FuseRaised(sum: real, more: real, weight: real, weakest: real, stronger: real)
    requires 0.0 <= weakest <= stronger <= 1.0 && 0.0 <= sum <= more <= weight
    requires weakest * weight <= sum && stronger * weight <= more
    ensures Fuse(sum, weight, weakest) <= Fuse(more, weight, stronger)
  {
    hide Fuse;
    Product(weakest, weight);
    Product(stronger, weight);
    FuseExact(sum, weight, weakest);
    FuseExact(more, weight, stronger);
    if weight > 0.0 {
      MeansOrdered(sum, more, weight);
      ProductsOrdered(sum / weight, Moderation(weakest), more / weight, Moderation(stronger));
    }
  }

  lemma MeansOrdered(sum: real, more: real, weight: real)
    requires 0.0 <= sum <= more && weight > 0.0
    ensures 0.0 <= sum / weight <= more / weight
  {
    var higher := more / weight;
    assert higher * weight == more;
    QuotientOrder(sum, weight, higher);
    QuotientOrder(sum, weight, 0.0);
  }

  lemma SoftGraded(signals: seq<Signal>)
    requires AllGraded(signals)
    ensures forall s | s in Soft(signals) :: 0.0 <= s.score <= 1.0 && s.weight >= 0.0
  {
  }

  /** The totals and the smallest score of graded soft signals are in the ranges that Fuse needs. */
  lemma SoftRanges(signals: seq<Signal>)
    requires AllGraded(signals) && Soft(signals) != []
    ensures var soft := Soft(signals);
      && (forall s | s in soft :: 0.0 <= s.score <= 1.0 && s.weight >= 0.0)
      && 0.0 <= Weakest(soft) <= 1.0
      && 0.0 <= Weakest(soft) * TotalOf(Weight, soft) <= TotalOf(Weighted, soft) <= TotalOf(Weight, soft)
  {
    hide TotalOf, Soft, Weakest;
    SoftGraded(signals);
    var soft := Soft(signals);
    var k := WeakestAt(soft);
    SumsBetween(soft, Weakest(soft));
  }

  /**
   * The fused score is in [0, 1] and at most halfway between the weakest score and 1; with weight it is the
   * moderated mean itself, no less than the moderated weakest score; without weight it is 0.
   */
  lemma FusedRange(signals: seq<Signal>)
    requires AllGraded(signals)
    ensures 0.0 <= FuseSoftSignals(signals) <= 1.0
    ensures Soft(signals) != [] ==>
      var soft, fused := Soft(signals), FuseSoftSignals(signals);
      var sum, weight, weakest := TotalOf(Weighted, soft), TotalOf(Weight, soft), Weakest(soft);
      && fused <= Moderation(weakest)
      && (if weight == 0.0 then fused == 0.0
          else fused == sum / weight * Moderation(weakest) >= weakest * Moderation(weakest))
  {
    hide TotalOf, Weakest, Fuse;
    if Soft(signals) != [] {
      var soft := Soft(signals);
      SoftRanges(signals);
      FuseExact(TotalOf(Weighted, soft), TotalOf(Weight, soft), Weakest(soft));
    }
  }

  // ---------- hard gates ----------

  /** A failing hard signal denies, whatever the rest; the reported one is in the list and fails. */
  lemma HardFailExact(signals: seq<Signal>)
    ensures EvaluateTrust(signals).hardFailed <==> exists s :: s in signals && Failing(s)
    ensures EvaluateTrust(signals).hardFailed ==>
      && EvaluateTrust(signals).decision == DENY && EvaluateTrust(signals).fusedScore == 0.0
      && exists k :: FirstFailing(signals, k)
                  && EvaluateTrust(signals).reasons == ["hard_fail:" + signals[k].id] + signals[k].reasons
  {
    hide FuseSoftSignals, FirstFailing;
    if Find(Failing, signals).Some? {
      var s := Find(Failing, signals).value;
      assert s in signals && Failing(s);
      var k := FindsFirst(signals);
    }
  }

  /** Signal k is the first hard signal with a score of 0 or less. */
  ghost predicate FirstFailing(signals: seq<Signal>, k: int) {
    && 0 <= k < |signals| && signals[k].hardFail && signals[k].score <= 0.0
    && forall j | 0 <= j < k :: signals[j].hardFail ==> signals[j].score > 0.0
  }

  lemma {:induction false} FindsFirst(signals: seq<Signal>) returns (k: nat)
    requires Find(Failing, signals).Some?
    ensures FirstFailing(signals, k) && Find(Failing, signals) == Some(signals[k])
  {
    if Failing(signals[0]) {
      k := 0;
    } else {
      k := FindsFirst(signals[1..]);
      assert forall j | 0 < j < |signals| :: signals[j] == signals[1..][j - 1];
      k := k + 1;
    }
  }

  // ---------- floors ----------

  /** ALLOW means that every soft signal scored at least 0.4. */
  lemma AllowFloor(signals: seq<Signal>, s: Signal)
    requires AllGraded(signals) && EvaluateTrust(signals).decision == ALLOW
    requires s in signals && !s.hardFail
    ensures s.score >= 0.4
  {
    hide TotalOf, Weakest;
    FilterContents(IsSoft, signals);
    assert s in multiset(signals) && s in multiset(Soft(signals));
    assert s in Soft(signals);
    FusedRange(signals);
  }

  lemma HalfMean(sum: real, weight: real)
    requires 0.0 <= sum <= weight
    ensures Fuse(sum, weight, 0.0) < BAND_SHADOW_LIMIT <==> weight == 0.0 || sum < 0.4 * weight
  {
    Product(0.0, weight);
    FuseExact(sum, weight, 0.0);
    if weight > 0.0 { QuotientOrder(sum, weight, 0.4); }
  }

  /**
   * A soft score of zero is not a denial by itself: it denies exactly when the weighted mean is below 0.4 or
   * there is no weight at all.
   */
  lemma ZeroScoreDenies(signals: seq<Signal>, zero: Signal)
    requires AllGraded(signals) && Find(Failing, signals).None?
    requires zero in Soft(signals) && zero.score == 0.0
    ensures EvaluateTrust(signals).decision == DENY <==>
      var soft := Soft(signals); TotalOf(Weight, soft) == 0.0 || TotalOf(Weighted, soft) < 0.4 * TotalOf(Weight, soft)
  {
    hide TotalOf, Fuse, Soft;
    SoftRanges(signals);
    HalfMean(TotalOf(Weighted, Soft(signals)), TotalOf(Weight, Soft(signals)));
  }

  /** Soft signals without weight are denied whatever they score: the substitute total weight divides a zero sum. */
  lemma WeightlessDenied(signals: seq<Signal>)
    requires AllGraded(signals) && Soft(signals) != [] && Find(Failing, signals).None?
    requires TotalOf(Weight, Soft(signals)) == 0.0
    ensures EvaluateTrust(signals).decision == DENY
  {
    hide TotalOf, Weakest;
    FusedRange(signals);
  }

  // ---------- in numbers ----------

  /** A single soft signal of score x with weight: the fused score is x (1 + x) / 2, whatever the weight. */
  lemma SingleSignal(s: Signal)
    requires Graded(s) && !s.hardFail && s.weight > 0.0
    ensures var x, r := s.score, EvaluateTrust([s]);
      && !r.hardFailed && r.fusedScore == x * (1.0 + x) / 2.0
      && (r.decision == ALLOW <==> x * (1.0 + x) >= 1.4)
      && (r.decision == STEP_UP <==> 0.8 <= x * (1.0 + x) < 1.4)
      && (r.decision == SHADOW_LIMIT <==> 0.4 <= x * (1.0 + x) < 0.8)
      && (r.decision == DENY <==> x * (1.0 + x) < 0.4)
  {
    hide Fuse, Soft, TotalOf, FuseSoftSignals, AllReasons;
    SingleScore(s);
    OneSoft(s);
    BandsExactly([s]);
    assert EvaluateTrust([s]).fusedScore == FuseSoftSignals([s]);
  }

  lemma SingleScore(s: Signal)
    requires Graded(s) && !s.hardFail && s.weight > 0.0
    ensures FuseSoftSignals([s]) == s.score * (1.0 + s.score) / 2.0
  {
    hide Soft, TotalOf, Fuse, Weakest;
    OneSoft(s);
    TotalOfOne(Weight, s);
    TotalOfOne(Weighted, s);
    FuseOne(Weighted(s), s.score, s.weight);
    assert FuseSoftSignals([s]) == Fuse(TotalOf(Weighted, [s]), TotalOf(Weight, [s]), Weakest([s]));
  }

  lemma FuseOne(sum: real, x: real, w: real)
    requires 0.0 <= x <= 1.0 && w > 0.0 && sum == x * w
    ensures Fuse(sum, w, x) == x * (1.0 + x) / 2.0
  {
    Product(x, w);
    Product(1.0 - x, w);
    assert (1.0 - x) * w == w - x * w;
    hide Fuse;
    FuseExact(sum, w, x);
    MeanOf(x, w);
    assert x * Moderation(x) == x * (1.0 + x) / 2.0;
  }

  lemma MeanOf(x: real, w: real)
    requires w > 0.0
    ensures x * w / w == x
  {
  }

  lemma OneSoft(s: Signal)
    requires !s.hardFail
    ensures Soft([s]) == [s] && Find(Failing, [s]) == None && Weakest([s]) == s.score
  {
    assert [s][..0] == [];
  }

  /** Two soft signals: the mean by weight, times half of one plus the weaker score. */
  lemma TwoSignals(s: Signal, t: Signal)
    requires Graded(s) && Graded(t) && !s.hardFail && !t.hardFail && s.weight + t.weight > 0.0
    ensures var mean := (s.score * s.weight + t.score * t.weight) / (s.weight + t.weight);
      EvaluateTrust([s, t]).fusedScore == mean * (1.0 + (if t.score < s.score then t.score else s.score)) / 2.0
  {
    hide Moderation, EvaluateTrust;
    TwoModerated(s, t);
    HalfAndHalf(Weighted(s) + Weighted(t), s.weight + t.weight, if t.score < s.score then t.score else s.score);
  }

  lemma TwoModerated(s: Signal, t: Signal)
    requires Graded(s) && Graded(t) && !s.hardFail && !t.hardFail && s.weight + t.weight > 0.0
    ensures EvaluateTrust([s, t]).fusedScore == (Weighted(s) + Weighted(t)) / (s.weight + t.weight)
                                                * Moderation(if t.score < s.score then t.score else s.score)
  {
    hide TotalOf, Soft, Fuse, Weakest, Moderation, AllReasons, Weighted, FuseSoftSignals;
    TwoSoft(s, t);
    TotalOfTwo(Weight, s, t);
    TotalOfTwo(Weighted, s, t);
    BothGraded(s, t);
    FusedRange([s, t]);
  }

  lemma BothGraded(s: Signal, t: Signal)
    requires Graded(s) && Graded(t)
    ensures AllGraded([s, t])
  {
  }

  lemma HalfAndHalf(sum: real, weight: real, weakest: real)
    requires weight > 0.0
    ensures sum / weight * Moderation(weakest) == sum / weight * (1.0 + weakest) / 2.0
  {
    var mean := sum / weight;
    assert mean * (0.5 + 0.5 * weakest) == mean * (1.0 + weakest) / 2.0;
  }

  lemma TotalOfTwo(f: Signal -> real, s: Signal, t: Signal)
    ensures TotalOf(f, [s, t]) == f(s) + f(t)
  {
    TotalOfLast(f, [s, t]);
    TotalOfOne(f, s);
    assert [s, t][..1] == [s];
  }

  lemma TwoSoft(s: Signal, t: Signal)
    requires !s.hardFail && !t.hardFail
    ensures Soft([s, t]) == [s, t] && Find(Failing, [s, t]) == None
    ensures Weakest([s, t]) == if t.score < s.score then t.score else s.score
  {
    hide Soft, Weakest;
    SoftLast(s, t);
    FindNone(s, t);
    WeakerOf(s, t);
  }

  lemma SoftLast(s: Signal, t: Signal)
    requires !s.hardFail && !t.hardFail
    ensures Soft([s, t]) == [s, t]
  {
    OneSoft(s);
    assert [s, t][..1] == [s];
    assert Filter(IsSoft, [s, t]) == Filter(IsSoft, [s]) + [t];
  }

  lemma FindNone(s: Signal, t: Signal)
    requires !s.hardFail && !t.hardFail
    ensures Find(Failing, [s, t]) == None
  {
    hide Find;
  }

  lemma WeakerOf(s: Signal, t: Signal)
    ensures Weakest([s, t]) == if t.score < s.score then t.score else s.score
  {
    assert [s, t][..1] == [s];
    assert Weakest([s]) == s.score;
  }

  /** The bands: what each fused score means when no gate fails. */
  lemma BandsExactly(signals: seq<Signal>)
    requires !EvaluateTrust(signals).hardFailed
    ensures var r := EvaluateTrust(signals);
      && (r.decision == ALLOW <==> r.fusedScore >= 0.7) && (r.decision == STEP_UP <==> 0.4 <= r.fusedScore < 0.7)
      && (r.decision == SHADOW_LIMIT <==> 0.2 <= r.fusedScore < 0.4) && (r.decision == DENY <==> r.fusedScore < 0.2)
  {
    hide FuseSoftSignals;
  }

  lemma NoSoftSignals(signals: seq<Signal>)
    requires Soft(signals) == [] && Find(Failing, signals).None?
    ensures EvaluateTrust(signals).decision == ALLOW && EvaluateTrust(signals).fusedScore == 1.0
  {
  }

  /** Without a failing gate the reasons are those of all signals, each under its signal's name. */
  lemma {:induction false} ReasonsListed(signals: seq<Signal>, r: string)
    ensures r in AllReasons(signals) <==> exists s, x :: s in signals && x in s.reasons && r == s.id + ":" + x
  {
    if signals != [] {
      var front, last := signals[..|signals| - 1], signals[|signals| - 1];
      ReasonsListed(front, r);
      var f := (x: string) => last.id + ":" + x;
      var own := Map(f, last.reasons);
      assert forall s :: s in signals <==> s in front || s == last;
      if r in own {
        var i :| 0 <= i < |own| && own[i] == r;
        assert last.reasons[i] in last.reasons && r == last.id + ":" + last.reasons[i];
      }
      forall x | x in last.reasons && r == last.id + ":" + x ensures r in own {
        var i :| 0 <= i < |last.reasons| && last.reasons[i] == x;
        assert own[i] == r;
      }
      if s, x :| s in signals && x in s.reasons && r == s.id + ":" + x {
        assert s in front || s == last;
      }
    }
  }

  // ---------- order ----------

  lemma {:induction false} TotalConcat(f: Signal -> real, s: seq<Signal>, t: seq<Signal>)
    ensures TotalOf(f, s + t) == TotalOf(f, s) + TotalOf(f, t)
  {
    TotalOfLast(f, t);
    TotalOfLast(f, s + t);
    hide TotalOf;
    if t == [] {
      assert s + t == s;
    } else {
      assert (s + t)[..|s + t| - 1] == s + t[..|t| - 1];
      TotalConcat(f, s, t[..|t| - 1]);
    }
  }

  /** The sequence without one occurrence of x. */
  lemma TakeOut(f: Signal -> real, s: seq<Signal>, x: Signal) returns (rest: seq<Signal>)
    requires x in s
    ensures multiset(s) == multiset(rest) + multiset{x}
    ensures TotalOf(f, s) == TotalOf(f, rest) + f(x)
  {
    hide TotalOf;
    var j :| 0 <= j < |s| && s[j] == x;
    var before, after := s[..j], s[j + 1..];
    rest := before + after;
    assert s == before + [x] + after;
    TotalConcat(f, before, after);
    TotalConcat(f, before + [x], after);
    TotalConcat(f, before, [x]);
    TotalOfOne(f, x);
  }

  lemma TotalOfOne(f: Signal -> real, x: Signal)
    ensures TotalOf(f, [x]) == f(x)
  {
    TotalOfLast(f, [x]);
    TotalOfLast(f, []);
  }

  lemma {:induction false} TotalIgnoresOrder(f: Signal -> real, s: seq<Signal>, t: seq<Signal>)
    requires multiset(s) == multiset(t)
    ensures TotalOf(f, s) == TotalOf(f, t)
  {
    TotalOfLast(f, s);
    TotalOfLast(f, t);
    hide TotalOf;
    assert |multiset(s)| == |s| && |multiset(t)| == |t|;
    if s != [] {
      var front, last := s[..|s| - 1], s[|s| - 1];
      SplitLast(s);
      assert last in multiset(t);
      var rest := TakeOut(f, t, last);
      assert multiset(front) == multiset(t) - multiset{last} == multiset(rest);
      TotalIgnoresOrder(f, front, rest);
    }
  }

  lemma WeakestIgnoresOrder(s: seq<Signal>, t: seq<Signal>)
    requires s != [] && t != [] && multiset(s) == multiset(t)
    ensures Weakest(s) == Weakest(t)
  {
    hide Weakest;
    assert forall x :: (x in s <==> x in multiset(s)) && (x in t <==> x in multiset(t));
    var a := WeakestAt(s);
    var b := WeakestAt(t);
    assert s[a] in multiset(s) && t[b] in multiset(t);
  }

  lemma SoftIgnoresOrder(s: seq<Signal>, t: seq<Signal>)
    requires multiset(s) == multiset(t)
    ensures multiset(Soft(s)) == multiset(Soft(t)) && |Soft(s)| == |Soft(t)|
  {
    FilterIgnoresOrder(IsSoft, s, t);
    assert |multiset(Soft(s))| == |Soft(s)| && |multiset(Soft(t))| == |Soft(t)|;
  }

  lemma FindIgnoresOrder(test: Signal -> bool, s: seq<Signal>, t: seq<Signal>)
    requires multiset(s) == multiset(t)
    ensures Find(test, s).None? <==> Find(test, t).None?
  {
    assert forall x :: (x in s <==> x in multiset(s)) && (x in t <==> x in multiset(t));
  }

  /** The order in which the signals arrive does not matter to the score or the decision. */
  lemma OrderIrrelevant(s: seq<Signal>, t: seq<Signal>)
    requires multiset(s) == multiset(t)
    ensures EvaluateTrust(s).decision == EvaluateTrust(t).decision
    ensures EvaluateTrust(s).fusedScore == EvaluateTrust(t).fusedScore
    ensures EvaluateTrust(s).hardFailed == EvaluateTrust(t).hardFailed
  {
    hide TotalOf, Weakest, Fuse, Soft;
    SoftIgnoresOrder(s, t);
    var a, b := Soft(s), Soft(t);
    TotalIgnoresOrder(Weight, a, b);
    TotalIgnoresOrder(Weighted, a, b);
    if a != [] { WeakestIgnoresOrder(a, b); }
    FindIgnoresOrder(Failing, s, t);
  }

  // ---------- monotonicity ----------

  /** t is s with no score lowered. */
  ghost predicate Raised(s: seq<Signal>, t: seq<Signal>) {
    && |s| == |t|
    && forall i | 0 <= i < |s| :: s[i].score <= t[i].score && t[i] == s[i].(score := t[i].score)
  }

  lemma {:induction false} SoftRaised(s: seq<Signal>, t: seq<Signal>)
    requires Raised(s, t)
    ensures Raised(Soft(s), Soft(t))
  {
    if s != [] { SoftRaised(s[..|s| - 1], t[..|t| - 1]); }
  }

  lemma {:induction false} TotalsRaised(s: seq<Signal>, t: seq<Signal>)
    requires Raised(s, t) && forall x | x in s :: x.weight >= 0.0
    ensures TotalOf(Weight, s) == TotalOf(Weight, t)
    ensures TotalOf(Weighted, s) <= TotalOf(Weighted, t)
  {
    TotalOfLast(Weight, s);
    TotalOfLast(Weighted, s);
    TotalOfLast(Weight, t);
    TotalOfLast(Weighted, t);
    hide TotalOf;
    hide Weighted;
    if s != [] {
      var a, b := s[|s| - 1], t[|t| - 1];
      TotalsRaised(s[..|s| - 1], t[..|t| - 1]);
      WeightedRaised(a, b);
    }
  }

  lemma WeightedRaised(a: Signal, b: Signal)
    requires a.score <= b.score && a.weight == b.weight >= 0.0
    ensures Weighted(a) <= Weighted(b)
  {
    assert (b.score - a.score) * a.weight >= 0.0;
  }

  lemma WeakestRaised(s: seq<Signal>, t: seq<Signal>)
    requires Raised(s, t) && s != []
    ensures Weakest(s) <= Weakest(t)
  {
    var k := WeakestAt(t);
    assert s[k] in s;
  }

  lemma FusedRaised(s: seq<Signal>, t: seq<Signal>)
    requires AllGraded(s) && AllGraded(t) && Raised(s, t)
    ensures FuseSoftSignals(s) <= FuseSoftSignals(t)
  {
    hide TotalOf, Weakest, Fuse, Soft;
    SoftRaised(s, t);
    var a, b := Soft(s), Soft(t);
    if a != [] {
      SoftRanges(s);
      SoftRanges(t);
      TotalsRaised(a, b);
      WeakestRaised(a, b);
      FuseRaised(TotalOf(Weighted, a), TotalOf(Weighted, b), TotalOf(Weight, a), Weakest(a), Weakest(b));
    }
  }

  /** Raising scores, soft or hard, never lowers the fused score and never makes the decision stricter. */
  lemma RaisingHelps(s: seq<Signal>, t: seq<Signal>)
    requires AllGraded(s) && AllGraded(t) && Raised(s, t)
    ensures EvaluateTrust(s).fusedScore <= EvaluateTrust(t).fusedScore
    ensures Rank(EvaluateTrust(s).decision) <= Rank(EvaluateTrust(t).decision)
  {
    hide FuseSoftSignals;
    FusedRaised(s, t);
    FusedRange(t);
    if Find(Failing, t).Some? {
      var y := Find(Failing, t).value;
      var i :| 0 <= i < |t| && t[i] == y;
      assert s[i] in s && Failing(s[i]);
    }
  }
}
