/** The rhythm sessions of rhythmManager.ts: trust and drift of one session, and runs over all sessions. */
module Rhythm {
  import opened Bounds
  import opened Optional
  import SyncPulse

  type Sid = string

  const DRIFT_WINDOW := 0.15
  const TRUST_DECAY_RATE := 0.05
  const STEP := 0.02
  const SILENCE_MS := 30000
  const ASK := 0.7
  const DROP := 0.3

  /** None where the code has computed NaN. */
  type Score = Option<real>

  datatype Session = Session(pulse: seq<nat>, trust: Score, lastSync: int, drift: real)

  datatype Verdict = Verdict(valid: bool, trust: Score, ask: bool)

  ghost predicate Sound(s: Session) {
    && |s.pulse| == 16
    && (forall k | 0 <= k < |s.pulse| :: 150 <= s.pulse[k] <= 1399)
    && 1.0 <= s.drift <= 2.0
    && (s.trust.Some? ==> DROP <= s.trust.value <= 1.0)
  }

  /** The exponential function, as far as the trust score depends on it. */
  ghost predicate Decaying(exp: real -> real) {
    && exp(0.0) == 1.0
    && (forall x | x <= 0.0 :: 0.0 < exp(x) <= 1.0)
    && (forall x, y | x <= y :: exp(x) <= exp(y))
  }

  // ---------- one validation ----------

  /** Sum of the relative deviations of the first n timings. */
  function Deviation(expected: seq<real>, received: seq<real>, n: nat): (d: real)
    requires n <= |expected| && n <= |received|
    requires forall k | 0 <= k < n :: expected[k] > 0.0
    ensures d >= 0.0
  {
    if n == 0 then 0.0
    else Deviation(expected, received, n - 1) + Abs(received[n - 1] - expected[n - 1]) / expected[n - 1]
  }

  function Expected(s: Session): (e: seq<real>)
    ensures |e| == |s.pulse|
  {
    seq(|s.pulse|, k requires 0 <= k < |s.pulse| => s.pulse[k] as real * s.drift)
  }

  lemma ExpectedPositive(s: Session)
    requires Sound(s)
    ensures forall k | 0 <= k < |Expected(s)| :: Expected(s)[k] >= 150.0
  {
    forall k | 0 <= k < |s.pulse| ensures Expected(s)[k] >= 150.0 {
      ProductAtLeast(s.pulse[k] as real, s.drift);
    }
  }

  lemma ProductAtLeast(x: real, d: real)
    requires x >= 150.0 && d >= 1.0
    ensures x * d >= 150.0
  {
    assert x * d == x + x * (d - 1.0);
    assert x * (d - 1.0) >= 0.0;
  }

  /** None for no timings at all: the code divides zero by zero. */
  function AverageDeviation(s: Session, timings: seq<real>): (d: Score)
    requires Sound(s)
    ensures d.None? <==> timings == []
    ensures d.Some? ==> d.value >= 0.0
  {
    var n := MinNat(|s.pulse|, |timings|);
    ExpectedPositive(s);
    if n == 0 then None else Some(Deviation(Expected(s), timings, n) / n as real)
  }

  function Closeness(exp: real -> real, deviation: real): real {
    exp(-deviation * deviation / (2.0 * DRIFT_WINDOW * DRIFT_WINDOW))
  }

  function Earned(trust: Score, closeness: Score): Score {
    if closeness.Some? && trust.Some? && closeness.value > trust.value then Some(Min(1.0, trust.value + STEP))
    else closeness
  }

  function Silence(lastSync: int, now: int): real {
    if now - lastSync > SILENCE_MS then TRUST_DECAY_RATE * ((now - lastSync) as real / 1000.0) else 0.0
  }

  function Corrected(drift: real, trust: Score, deviation: Score): real {
    if trust.Some? && deviation.Some? && trust.value > 0.8 && deviation.value > 0.05 then
      Min(2.0, drift * (1.0 + deviation.value * 0.1))
    else if trust.Some? && deviation.Some? && trust.value > 0.9 && deviation.value < 0.02 then
      Max(1.0, drift * 0.995)
    else drift
  }

  /** The session record after a validation, before the check that may delete it. */
  function Validated(exp: real -> real, s: Session, timings: seq<real>, now: int): Session
    requires Sound(s)
  {
    var deviation := AverageDeviation(s, timings);
    var closeness := if deviation.Some? then Some(Closeness(exp, deviation.value)) else None;
    var earned := Earned(s.trust, closeness);
    var trust := if earned.Some? then Some(earned.value - Silence(s.lastSync, now)) else None;
    Session(s.pulse, trust, now, Corrected(s.drift, trust, deviation))
  }

  function VerdictOf(trust: Score): Verdict {
    Verdict(trust.Some? && trust.value >= DROP, trust, trust.Some? && DROP <= trust.value < ASK)
  }

  predicate Dropped(trust: Score) { trust.Some? && trust.value < DROP }

  /** The verdict in numbers; NaN is neither valid nor questioned. */
  lemma VerdictExactly(trust: Score)
    ensures var v := VerdictOf(trust);
      && v.trust == trust && (v.valid <==> trust.Some? && trust.value >= 0.3)
      && (v.ask <==> trust.Some? && 0.3 <= trust.value < 0.7) && (Dropped(trust) <==> trust.Some? && !v.valid)
  {
  }

  // ---------- laws of one validation ----------

  lemma ClosenessRange(exp: real -> real, d: real)
    requires Decaying(exp)
    ensures 0.0 < Closeness(exp, d) <= 1.0
  {
    assert d * d >= 0.0;
    QuotientNegative(-d * d, 2.0 * DRIFT_WINDOW * DRIFT_WINDOW);
  }

  lemma QuotientNegative(a: real, b: real)
    requires a <= 0.0 && b > 0.0
    ensures a / b <= 0.0
  {
    var q := a / b;
    assert q * b == a;
  }

  /** The expected rhythm is a perfect match. */
  lemma ClosenessPerfect(exp: real -> real)
    requires Decaying(exp)
    ensures Closeness(exp, 0.0) == 1.0
  {
  }

  lemma {:induction false} DeviationOfExpected(e: seq<real>, n: nat)
    requires n <= |e| && forall k | 0 <= k < |e| :: e[k] > 0.0
    ensures Deviation(e, e, n) == 0.0
  {
    if n > 0 { DeviationOfExpected(e, n - 1); }
  }

  lemma CorrectedRange(drift: real, trust: Score, deviation: Score)
    requires 1.0 <= drift <= 2.0 && (deviation.Some? ==> deviation.value >= 0.0)
    ensures 1.0 <= Corrected(drift, trust, deviation) <= 2.0
  {
    if deviation.Some? {
      var growth := deviation.value * 0.1;
      assert drift * (1.0 + growth) == drift + drift * growth;
      assert drift * growth >= 0.0;
    }
  }

  /** What survives the deletion check is sound again; trust is a number exactly when there were timings. */
  lemma ValidatedSound(exp: real -> real, s: Session, timings: seq<real>, now: int)
    requires Sound(s) && Decaying(exp)
    ensures var after := Validated(exp, s, timings, now);
      && (after.trust.None? <==> timings == [])
      && (after.trust.Some? ==> after.trust.value <= 1.0)
      && (!Dropped(after.trust) ==> Sound(after))
  {
    hide Closeness, Corrected;
    var deviation := AverageDeviation(s, timings);
    if deviation.Some? { ClosenessRange(exp, deviation.value); }
    var after := Validated(exp, s, timings, now);
    CorrectedRange(s.drift, after.trust, deviation);
  }

  /** Trust is never more than one step above what it was, nor above what the rhythm itself earned. */
  lemma SlowRise(exp: real -> real, s: Session, timings: seq<real>, now: int)
    requires Sound(s) && Decaying(exp) && timings != [] && s.trust.Some?
    ensures var after := Validated(exp, s, timings, now);
      && after.trust.Some?
      && after.trust.value <= s.trust.value + 0.02
      && after.trust.value <= Closeness(exp, AverageDeviation(s, timings).value) + 0.02
  {
    hide Closeness, Corrected, AverageDeviation;
  }

  /** A rhythm closer to the expected one is never trusted less. */
  lemma CloserIsTrusted(exp: real -> real, s: Session, near: seq<real>, far: seq<real>, now: int)
    requires Sound(s) && Decaying(exp) && near != [] && far != []
    requires AverageDeviation(s, near).value <= AverageDeviation(s, far).value
    ensures Validated(exp, s, near, now).trust.value >= Validated(exp, s, far, now).trust.value
  {
    hide Corrected, AverageDeviation;
    var n, f := AverageDeviation(s, near).value, AverageDeviation(s, far).value;
    SquaresOrdered(n, f);
    var c := 2.0 * DRIFT_WINDOW * DRIFT_WINDOW;
    QuotientsOrdered(-f * f, -n * n, c);
    ClosenessRange(exp, n);
    ClosenessRange(exp, f);
    assert Closeness(exp, f) <= Closeness(exp, n);
    hide Closeness;
  }

  lemma SquaresOrdered(a: real, b: real)
    requires 0.0 <= a <= b
    ensures -b * b <= -a * a
  {
    assert b * b == a * a + (b - a) * (b + a);
    assert (b - a) * (b + a) >= 0.0;
  }

  lemma QuotientsOrdered(a: real, b: real, c: real)
    requires a <= b && c > 0.0
    ensures a / c <= b / c
  {
    QuotientNegative(a - b, c);
    assert a / c - b / c == (a - b) / c;
  }

  /** After more than thirty seconds the decay exceeds full trust, so a rhythm of any quality then ends below -0.5. */
  lemma SilenceEnds(exp: real -> real, s: Session, timings: seq<real>, now: int)
    requires Sound(s) && Decaying(exp) && timings != [] && now - s.lastSync > SILENCE_MS
    ensures Validated(exp, s, timings, now).trust.Some? && Validated(exp, s, timings, now).trust.value < -0.5
  {
    hide Closeness, Corrected;
    ClosenessRange(exp, AverageDeviation(s, timings).value);
    assert Silence(s.lastSync, now) > 1.5;
  }

  /**
   * A validation ends the session exactly when it brings timings and comes after more than thirty seconds or with a
   * rhythm whose closeness is below 0.3. There is no gradual decay in between.
   */
  lemma EndsExactly(exp: real -> real, s: Session, timings: seq<real>, now: int)
    requires Sound(s) && Decaying(exp)
    ensures Dropped(Validated(exp, s, timings, now).trust) <==>
      && timings != []
      && (now - s.lastSync > 30000 || Closeness(exp, AverageDeviation(s, timings).value) < 0.3)
    ensures now - s.lastSync <= 30000 ==> Silence(s.lastSync, now) == 0.0
  {
    if timings != [] {
      ClosenessRange(exp, AverageDeviation(s, timings).value);
      if now - s.lastSync > SILENCE_MS { SilenceEnds(exp, s, timings, now); }
    }
    hide Closeness, Corrected, AverageDeviation;
  }

  /**
   * The bound of one step per validation fails exactly through empty timings: they leave NaN, which the session
   * survives, and the next rhythm is then trusted at face value, so two validations reach full trust from any trust.
   */
  lemma EmptyTimingsForget(exp: real -> real, s: Session, now: int, later: int)
    requires Sound(s) && Decaying(exp) && later - now <= SILENCE_MS
    ensures var blank := Validated(exp, s, [], now);
      && !Dropped(blank.trust) && Sound(blank)
      && !VerdictOf(blank.trust).valid
      && Validated(exp, blank, Expected(blank), later).trust == Some(1.0)
  {
    var blank := Validated(exp, s, [], now);
    ValidatedSound(exp, s, [], now);
    ExpectedPositive(blank);
    DeviationOfExpected(Expected(blank), 16);
    assert AverageDeviation(blank, Expected(blank)) == Some(0.0);
    ClosenessPerfect(exp);
  }

  // ---------- drift compensation ----------

  /** Drift grows only under a trusted rhythm that deviates, and shrinks only under a trusted one that does not. */
  lemma DriftDirection(exp: real -> real, s: Session, timings: seq<real>, now: int)
    requires Sound(s)
    ensures var after, d := Validated(exp, s, timings, now), AverageDeviation(s, timings);
      && (after.drift > s.drift ==> d.Some? && d.value > 0.05 && after.trust.value > 0.8)
      && (after.drift < s.drift ==> d.Some? && d.value < 0.02 && after.trust.value > 0.9)
  {
    hide Closeness, AverageDeviation;
    var after, d := Validated(exp, s, timings, now), AverageDeviation(s, timings);
    if d.Some? && d.value > 0.05 {
      assert s.drift * (1.0 + d.value * 0.1) == s.drift + s.drift * (d.value * 0.1);
      assert s.drift * (d.value * 0.1) >= 0.0;
    }
  }

  /** The exponential lies above its tangent at 0. */
  ghost predicate AboveTangent(exp: real -> real) { forall x :: exp(x) >= 1.0 + x }

  ghost predicate Steady(exp: real -> real, s: Session) {
    Decaying(exp) && AboveTangent(exp) && Sound(s) && s.trust.Some? && s.trust.value > 0.9
  }

  /** A prompt validation with deviation below 0.02. */
  ghost predicate Quiet(s: Session, c: (seq<real>, int))
    requires Sound(s)
  {
    && c.1 - s.lastSync <= SILENCE_MS
    && AverageDeviation(s, c.0).Some? && AverageDeviation(s, c.0).value < 0.02
  }

  lemma QuietCloseness(exp: real -> real, d: real)
    requires AboveTangent(exp) && 0.0 <= d < 0.02
    ensures Closeness(exp, d) > 0.9
  {
    var x := -d * d / (2.0 * DRIFT_WINDOW * DRIFT_WINDOW);
    assert x * 0.045 == -(d * d);
    assert d * d <= 0.02 * d;
    assert x > -0.01;
  }

  lemma QuietStep(exp: real -> real, s: Session, c: (seq<real>, int))
    requires Steady(exp, s) && Quiet(s, c)
    ensures var after := Validated(exp, s, c.0, c.1);
      Steady(exp, after) && after.drift == Max(1.0, s.drift * 0.995)
  {
    hide Closeness, AverageDeviation;
    var d := AverageDeviation(s, c.0).value;
    QuietCloseness(exp, d);
    ClosenessRange(exp, d);
    ValidatedSound(exp, s, c.0, c.1);
  }

  ghost predicate AllQuiet(exp: real -> real, s: Session, cs: seq<(seq<real>, int)>)
    requires Steady(exp, s)
    decreases |cs|
  {
    cs == [] || (Quiet(s, cs[0]) && (
      QuietStep(exp, s, cs[0]);
      AllQuiet(exp, Validated(exp, s, cs[0].0, cs[0].1), cs[1..])))
  }

  ghost function AfterAll(exp: real -> real, s: Session, cs: seq<(seq<real>, int)>): (r: Session)
    requires Steady(exp, s) && AllQuiet(exp, s, cs)
    ensures Steady(exp, r)
    decreases |cs|
  {
    if cs == [] then s
    else
      QuietStep(exp, s, cs[0]);
      AfterAll(exp, Validated(exp, s, cs[0].0, cs[0].1), cs[1..])
  }

  /** In a quiet stretch drift falls by at least 0.005 per validation until it is 1: two hundred are always enough. */
  lemma {:induction false} DriftRecovers(exp: real -> real, s: Session, cs: seq<(seq<real>, int)>)
    requires Steady(exp, s) && AllQuiet(exp, s, cs)
    ensures AfterAll(exp, s, cs).drift <= Max(1.0, s.drift - 0.005 * |cs| as real)
    ensures |cs| >= 200 ==> AfterAll(exp, s, cs).drift == 1.0
    decreases |cs|
  {
    hide Validated, Quiet;
    if cs != [] {
      QuietStep(exp, s, cs[0]);
      DriftRecovers(exp, Validated(exp, s, cs[0].0, cs[0].1), cs[1..]);
    }
  }

  // ---------- runs over all sessions ----------

  datatype Event =
    | Issue(sid: Sid, digest: SyncPulse.Digest, now: int)
    | Check(sid: Sid, timings: seq<real>, now: int)

  type Store = m: map<Sid, Session> | forall sid | sid in m :: Sound(m[sid])

  function Fresh(digest: SyncPulse.Digest, now: int): Session {
    Session(SyncPulse.Pulse(digest), Some(1.0), now, 1.0)
  }

  lemma FreshSound(digest: SyncPulse.Digest, now: int)
    ensures Sound(Fresh(digest, now))
  {
    SyncPulse.PulseShape(digest);
  }

  function Next(exp: real -> real, m: Store, e: Event): Store
    requires Decaying(exp)
  {
    match e
    case Issue(sid, digest, now) =>
      FreshSound(digest, now);
      m[sid := Fresh(digest, now)]
    case Check(sid, timings, now) =>
      if sid !in m then m
      else
        var after := Validated(exp, m[sid], timings, now);
        ValidatedSound(exp, m[sid], timings, now);
        if Dropped(after.trust) then m - {sid} else m[sid := after]
  }

  function Respond(exp: real -> real, m: Store, sid: Sid, timings: seq<real>, now: int): Verdict {
    if sid !in m then Verdict(false, Some(0.0), true) else VerdictOf(Validated(exp, m[sid], timings, now).trust)
  }

  function Run(exp: real -> real, m: Store, es: seq<Event>): Store
    requires Decaying(exp)
  {
    if es == [] then m else Next(exp, Run(exp, m, es[..|es| - 1]), es[|es| - 1])
  }

  function Checks(es: seq<Event>, sid: Sid): nat {
    if es == [] then 0
    else Checks(es[..|es| - 1], sid) + if es[|es| - 1].Check? && es[|es| - 1].sid == sid then 1 else 0
  }

  ghost predicate OnlyRhythms(es: seq<Event>, sid: Sid) {
    forall e | e in es && e.sid == sid :: e.Check? && e.timings != []
  }

  /** Over any run of non-empty validations of a session, trust rises by at most one step for each of them. */
  lemma {:induction false} SlowRecovery(exp: real -> real, m: Store, es: seq<Event>, sid: Sid)
    requires Decaying(exp) && OnlyRhythms(es, sid)
    requires sid in m && m[sid].trust.Some?
    ensures sid in Run(exp, m, es) ==>
      && Run(exp, m, es)[sid].trust.Some?
      && Run(exp, m, es)[sid].trust.value <= m[sid].trust.value + 0.02 * Checks(es, sid) as real
  {
    hide Validated, Sound, Decaying;
    if es != [] {
      var front, e := es[..|es| - 1], es[|es| - 1];
      assert e in es;
      SlowRecovery(exp, m, front, sid);
      var before := Run(exp, m, front);
      if e.sid == sid && sid in before {
        SlowRise(exp, before[sid], e.timings, e.now);
        assert 0.02 * (Checks(front, sid) + 1) as real == 0.02 * Checks(front, sid) as real + 0.02;
      }
    }
  }

  /** A session under interrogation leaves it only after at least (0.7 - trust) / 0.02 further validations. */
  lemma InterrogationLasts(exp: real -> real, m: Store, es: seq<Event>, sid: Sid)
    requires Decaying(exp) && OnlyRhythms(es, sid)
    requires sid in m && m[sid].trust.Some? && VerdictOf(m[sid].trust).ask
    requires sid in Run(exp, m, es) && !VerdictOf(Run(exp, m, es)[sid].trust).ask
    ensures Checks(es, sid) as real >= (0.7 - m[sid].trust.value) / 0.02
  {
    SlowRecovery(exp, m, es, sid);
  }

  /** The stored trust is NaN exactly when the last thing that happened to the session was an empty validation. */
  lemma {:induction false} BlankExactly(exp: real -> real, es: seq<Event>, sid: Sid)
    requires Decaying(exp) && sid in Run(exp, map[], es)
    ensures Run(exp, map[], es)[sid].trust.None? <==> LastBlank(es, sid)
  {
    hide Validated, Sound, Decaying;
    var front, e := es[..|es| - 1], es[|es| - 1];
    var before := Run(exp, map[], front);
    if e.sid != sid {
      BlankExactly(exp, front, sid);
    } else if e.Check? {
      ValidatedSound(exp, before[sid], e.timings, e.now);
    }
  }

  predicate LastBlank(es: seq<Event>, sid: Sid) {
    && es != []
    && var e := es[|es| - 1];
       if e.sid == sid then e.Check? && e.timings == [] else LastBlank(es[..|es| - 1], sid)
  }
}
