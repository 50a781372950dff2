/** The clamped threshold of driftModel.ts with its warmup, stable and drift status. */
module DriftThreshold {
  import opened Bounds
  import opened P2Markers
  import opened P2Heights
  import opened Quantile
  import opened PageHinkley
  import opened Sums

  datatype Status = Warmup | Stable | Drift

  /** floor > ceil is rejected by the original constructor. */
  datatype Options = Options(quantile: real, floor: real, ceil: real, margin: real,
                             warmup: int, delta: real, lambda: real)

  ghost predicate ValidOptions(o: Options) { ValidQuantile(o.quantile) && o.floor <= o.ceil }

  /** Index of the last detector reset, status, and number of drift events. */
  datatype Alarm = Alarm(since: nat, status: Status, drifts: nat)

  /** Does the detector alarm on the last sample of s, its sums running since the given index? */
  ghost predicate Alarms(o: Options, s: seq<real>, since: nat)
    requires since <= |s|
  {
    Statistic(o.delta, s, since) > o.lambda
  }

  /** What one more sample does to the alarm state; s already ends with it. */
  ghost function NextAlarm(o: Options, a: Alarm, s: seq<real>): (r: Alarm)
    requires a.since <= |s|
    ensures r.since <= |s|
  {
    if |s| < o.warmup then a.(status := Warmup)
    else if Alarms(o, s, a.since) then Alarm(|s|, Drift, if a.status != Drift then a.drifts + 1 else a.drifts)
    else a.(status := Stable)
  }

  ghost function AlarmAfter(o: Options, s: seq<real>): (a: Alarm)
    ensures a.since <= |s|
  {
    if s == [] then Alarm(0, Warmup, 0) else NextAlarm(o, AlarmAfter(o, s[..|s| - 1]), s)
  }

  /** Sample number i (from 1) is the first of a period of drift. */
  ghost predicate EntersDrift(o: Options, s: seq<real>, i: nat)
    requires 1 <= i <= |s|
  {
    AlarmAfter(o, s[..i]).status == Drift && AlarmAfter(o, s[..i - 1]).status != Drift
  }

  ghost function Entries(o: Options, s: seq<real>): set<nat> {
    set i: nat | 1 <= i <= |s| && EntersDrift(o, s, i)
  }

  lemma EarlierEntry(o: Options, front: seq<real>, x: real, i: nat)
    requires 1 <= i <= |front|
    ensures EntersDrift(o, front + [x], i) == EntersDrift(o, front, i)
  {
    var s := front + [x];
    assert front[..i] == s[..i] && front[..i - 1] == s[..i - 1];
  }

  lemma EntriesExtend(o: Options, front: seq<real>, x: real)
    ensures var s := front + [x];
      Entries(o, s) == Entries(o, front) + (if EntersDrift(o, s, |s|) then {|s|} else {})
  {
    hide EntersDrift;
    forall i: nat | 1 <= i <= |front| ensures EntersDrift(o, front + [x], i) == EntersDrift(o, front, i) {
      EarlierEntry(o, front, x, i);
    }
  }

  lemma AlarmExtends(o: Options, front: seq<real>, x: real)
    ensures AlarmAfter(o, front + [x]) == NextAlarm(o, AlarmAfter(o, front), front + [x])
    ensures EntersDrift(o, front + [x], |front| + 1)
       <==> AlarmAfter(o, front + [x]).status == Drift && AlarmAfter(o, front).status != Drift
  {
    var s := front + [x];
    assert s[..|s| - 1] == front && s[..|s|] == s;
  }

  /** The event counter is the number of entries into drift over the whole stream. */
  lemma {:induction false} DriftsCountEntries(o: Options, s: seq<real>)
    ensures AlarmAfter(o, s).drifts == |Entries(o, s)|
  {
    hide EntersDrift, Alarms;
    if s == [] {
      assert Entries(o, s) == {};
    } else {
      var front, x := s[..|s| - 1], s[|s| - 1];
      assert s == front + [x];
      DriftsCountEntries(o, front);
      AlarmExtends(o, front, x);
      EntriesExtend(o, front, x);
      assert |s| !in Entries(o, front);
    }
  }

  /** During warmup nothing is counted and the detector is never reset; afterwards the status is never warmup. */
  lemma {:induction false} WarmupStatus(o: Options, s: seq<real>)
    ensures AlarmAfter(o, s).status == Warmup <==> s == [] || |s| < o.warmup
    ensures |s| < o.warmup ==> AlarmAfter(o, s) == Alarm(0, Warmup, 0)
  {
    if s != [] { WarmupStatus(o, s[..|s| - 1]); }
  }

  /** No entry into drift falls within the warmup. */
  lemma NoEarlyEntries(o: Options, s: seq<real>)
    ensures forall i | i in Entries(o, s) :: i >= o.warmup
  {
    forall i | i in Entries(o, s) ensures i >= o.warmup {
      WarmupStatus(o, s[..i]);
    }
  }

  /** Every sample lies within delta of the mean of the stream up to it. */
  ghost predicate Quiet(o: Options, s: seq<real>) {
    forall i | 0 <= i < |s| :: -o.delta <= Deviation(s, i) <= o.delta
  }

  lemma QuietFront(o: Options, s: seq<real>)
    requires s != [] && Quiet(o, s)
    ensures Quiet(o, s[..|s| - 1])
  {
    hide Mean;
    var front := s[..|s| - 1];
    forall i | 0 <= i < |front| ensures Deviation(front, i) == Deviation(s, i) {
      assert front[..i + 1] == s[..i + 1];
    }
  }

  /** With a lambda that is not negative, samples that stay within delta of the running mean never count as drift. */
  lemma {:induction false} QuietNeverDrifts(o: Options, s: seq<real>)
    requires o.lambda >= 0.0 && Quiet(o, s)
    ensures AlarmAfter(o, s).drifts == 0 && AlarmAfter(o, s).status != Drift
  {
    hide Quiet, Statistic;
    if s != [] {
      QuietFront(o, s);
      QuietNeverDrifts(o, s[..|s| - 1]);
      QuietSince(o, s, AlarmAfter(o, s[..|s| - 1]).since);
    }
  }

  lemma QuietSince(o: Options, s: seq<real>, since: nat)
    requires since <= |s| && Quiet(o, s)
    ensures Statistic(o.delta, s, since) == 0.0
  {
    hide Statistic, Deviation;
    QuietStream(o.delta, 0.0, s, since);
    assert (|s| - since) as real * 0.0 == 0.0;
  }

  /** Margin times the estimate, clamped. */
  function Clamped(o: Options, v: real): real {
    Min(o.ceil, Max(o.floor, v * o.margin))
  }

  /** The threshold after stream s: NaN when no samples count as warm, else floor or the clamped estimate. */
  function Threshold(o: Options, s: seq<real>): Number
    requires ValidOptions(o)
  {
    if |s| < o.warmup then Finite(o.floor)
    else match Value(o.quantile, s)
      case NoData => NotFinite
      case Estimate(v) => Finite(Clamped(o, v))
  }

  lemma ClampOrdered(o: Options, lo: real, v: real, hi: real)
    requires o.floor <= o.ceil && lo <= v <= hi
    ensures o.floor <= Clamped(o, v) <= o.ceil
    ensures o.margin >= 0.0 ==> Clamped(o, lo) <= Clamped(o, v) <= Clamped(o, hi)
  {
    if o.margin >= 0.0 {
      assert (v - lo) * o.margin >= 0.0 && (hi - v) * o.margin >= 0.0;
      assert lo * o.margin <= v * o.margin <= hi * o.margin;
    }
  }

  /** Once warm the threshold is the clamp of margin times a value between the least and the greatest sample. */
  lemma WarmThreshold(o: Options, s: seq<real>)
    requires ValidOptions(o) && s != [] && |s| >= o.warmup
    ensures Threshold(o, s).Finite? && o.floor <= Threshold(o, s).value <= o.ceil
    ensures o.margin >= 0.0 ==>
      Clamped(o, Least(s)) <= Threshold(o, s).value <= Clamped(o, Greatest(s))
  {
    hide Value, Least, Greatest, Clamped;
    ValueWithinStream(o.quantile, s);
    var v := Value(o.quantile, s).value;
    ClampOrdered(o, Least(s), v, Greatest(s));
    assert Threshold(o, s) == Finite(Clamped(o, v));
  }

  /** The threshold is a number, then in [floor, ceil], exactly when the stream is not empty or warmup is positive. */
  lemma ThresholdAlwaysClamped(o: Options, s: seq<real>)
    requires ValidOptions(o)
    ensures Threshold(o, s).Finite? <==> s != [] || o.warmup > 0
    ensures Threshold(o, s).Finite? ==> o.floor <= Threshold(o, s).value <= o.ceil
  {
    hide Run, Clamped, EarlyIndex;
    if s != [] && |s| >= o.warmup { WarmThreshold(o, s); }
  }

  /** The floor below warmup; then margin times the estimate, or the bound that it passes. */
  lemma ThresholdExactly(o: Options, s: seq<real>)
    requires ValidOptions(o)
    ensures |s| < o.warmup ==> Threshold(o, s) == Finite(o.floor)
    ensures |s| >= o.warmup && s != [] ==>
      && Threshold(o, s).Finite? && Value(o.quantile, s).Estimate?
      && var t, raw := Threshold(o, s).value, o.margin * Value(o.quantile, s).value;
         && (o.floor <= raw <= o.ceil ==> t == raw)
         && (raw < o.floor ==> t == o.floor) && (raw > o.ceil ==> t == o.ceil)
  {
    hide Value, Least, Greatest, ValidQuantile;
    if s != [] { ValueWithinStream(o.quantile, s); }
    if |s| >= o.warmup && s != [] { ClampExactly(o, Value(o.quantile, s).value); }
    hide Clamped;
  }

  lemma ClampExactly(o: Options, v: real)
    requires o.floor <= o.ceil
    ensures var raw := o.margin * v;
      && (o.floor <= raw <= o.ceil ==> Clamped(o, v) == raw)
      && (raw < o.floor ==> Clamped(o, v) == o.floor) && (raw > o.ceil ==> Clamped(o, v) == o.ceil)
  {
  }

  /** Once warm, with five samples or more, that is margin times the height of the marker that tracks the quantile. */
  lemma ThresholdTracksQuantile(o: Options, s: seq<real>) returns (i: nat)
    requires ValidOptions(o) && |s| >= o.warmup && |s| >= 5
    ensures var m, rank := Run(o.quantile, s), 1.0 + (|s| - 1) as real * o.quantile;
      && i < 5 && (forall j | 0 <= j < 5 :: m.np[j] == rank <==> j == i) && -2.0 < rank - m.n[i] as real < 3.0
      && (o.floor <= o.margin * m.q[i] <= o.ceil ==> Threshold(o, s) == Finite(o.margin * m.q[i]))
  {
    hide Run, Threshold, Value;
    i := ValueTracksQuantile(o.quantile, s);
    ThresholdExactly(o, s);
  }

  // ---------- when the detector alarms ----------

  /** The detector's sums run since the last sample at which the status was drift, or from the start. */
  lemma {:induction false} SumsSinceLastDrift(o: Options, s: seq<real>)
    ensures var since := AlarmAfter(o, s).since;
      && (since > 0 ==> AlarmAfter(o, s[..since]).status == Drift)
      && forall i | since < i <= |s| :: AlarmAfter(o, s[..i]).status != Drift
  {
    hide Alarms;
    if s != [] {
      var front := s[..|s| - 1];
      SumsSinceLastDrift(o, front);
      assert s[..|s|] == s;
      forall i | 0 <= i < |s| ensures s[..i] == front[..i] {
      }
    }
  }

  /** The status is drift exactly when warm and the statistic since the last drift exceeds lambda. */
  lemma DriftExactly(o: Options, s: seq<real>)
    requires s != []
    ensures AlarmAfter(o, s).status == Drift <==>
      |s| >= o.warmup && Statistic(o.delta, s, AlarmAfter(o, s[..|s| - 1]).since) > o.lambda
  {
    hide Statistic;
  }

  class DriftAdaptiveThreshold {
    const opts: Options
    const quantile: P2Quantile
    const ph: Detector
    var status: Status
    var driftEvents: nat
    ghost var stream: seq<real>

    ghost predicate Valid()
      reads this, quantile, ph
    {
      && ValidOptions(opts)
      && quantile.Valid() && ph.Valid()
      && quantile.p == opts.quantile && ph.delta == opts.delta && ph.lambda == opts.lambda
      && quantile.stream == ph.stream == stream
      && Alarm(ph.since, status, driftEvents) == AlarmAfter(opts, stream)
    }

    constructor (o: Options)
      requires ValidOptions(o)
      ensures Valid() && stream == [] && opts == o
      ensures fresh(quantile) && fresh(ph)
    {
      opts := o;
      quantile := new P2Quantile(o.quantile);
      ph := new Detector(o.delta, o.lambda);
      status, driftEvents := Warmup, 0;
      stream := [];
    }

    /** One sample: status, event count and detector reset follow AlarmAfter of the longer stream. */
    method Observe(x: Number)
      requires Valid()
      modifies this, quantile, ph
      ensures Valid() && stream == old(stream) + Samples(x)
    {
      hide AlarmAfter, P2Quantile.Valid, Detector.Valid, Statistic;
      if x.NotFinite? { return; }
      AlarmExtends(opts, stream, x.value);
      quantile.Observe(x);
      var drift, _ := ph.Observe(x);
      stream := stream + [x.value];
      UpdateStatus(quantile.Count(), drift);
    }

    method UpdateStatus(count: nat, drift: bool)
      requires ph.Valid()
      modifies `status, `driftEvents, ph
      ensures ph.Valid() && ph.stream == old(ph.stream)
      ensures if count < opts.warmup then
          status == Warmup && driftEvents == old(driftEvents) && ph.since == old(ph.since)
        else if drift then
          status == Drift && ph.since == |ph.stream|
          && driftEvents == if old(status) == Drift then old(driftEvents) else old(driftEvents) + 1
        else
          status == Stable && driftEvents == old(driftEvents) && ph.since == old(ph.since)
    {
      hide Detector.Valid;
      if count < opts.warmup {
        status := Warmup;
        return;
      }
      if drift {
        if status != Drift { driftEvents := driftEvents + 1; }
        status := Drift;
        ph.Reset();
      } else {
        status := Stable;
      }
    }

    method GetThreshold() returns (t: Number)
      requires Valid()
      ensures t == Threshold(opts, stream)
    {
      hide P2Heights.Value, P2Quantile.Value, P2Quantile.Valid, Detector.Valid;
      if quantile.Count() < opts.warmup { return Finite(opts.floor); }
      match quantile.Value() {
        case NoData => t := NotFinite;
        case Estimate(v) =>
          var raw := v * opts.margin;
          t := Finite(Min(opts.ceil, Max(opts.floor, raw)));
      }
    }
  }
}
