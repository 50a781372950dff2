/** What a rhythm earns in rhythmManager.ts, in terms of the pulse, the drift and the timings alone. */
module DriftCompensation {
  import opened Bounds
  import opened Optional
  import opened Reals
  import opened Rhythm

  /** The client plays the pulse, every delay stretched by the same factor; fewer delays than the pulse has will do. */
  ghost predicate Plays(pulse: seq<nat>, timings: seq<real>, factor: real) {
    timings != [] && forall k | 0 <= k < |timings| && k < |pulse| :: timings[k] == factor * pulse[k] as real
  }

  // ---------- one validation ----------

  lemma RelativeTerm(e: real, t: real, x: real)
    requires e > 0.0 && t == (1.0 + x) * e
    ensures Abs(t - e) / e == Abs(x)
  {
    assert t - e == x * e;
    assert (if x < 0.0 then -x else x) * e == Abs(t - e) by {
      if x < 0.0 { assert x * e <= 0.0; } else { assert x * e >= 0.0; }
    }
    var q := Abs(t - e) / e;
    assert q * e == Abs(t - e);
    assert (q - Abs(x)) * e == 0.0;
  }

  lemma {:induction false} RelativeDeviations(e: seq<real>, t: seq<real>, n: nat, x: real)
    requires n <= |e| && n <= |t|
    requires forall k | 0 <= k < n :: e[k] > 0.0 && t[k] == (1.0 + x) * e[k]
    ensures Deviation(e, t, n) == n as real * Abs(x)
  {
    hide Abs;
    if n > 0 {
      RelativeDeviations(e, t, n - 1, x);
      RelativeTerm(e[n - 1], t[n - 1], x);
      assert (n - 1) as real * Abs(x) + Abs(x) == n as real * Abs(x);
    }
  }

  lemma AverageOf(n: real, a: real)
    requires n > 0.0
    ensures n * a / n == a
  {
  }

  /** Timings off the compensated pulse by one relative error have that error as their average deviation. */
  lemma RelativeError(s: Session, timings: seq<real>, x: real)
    requires Sound(s) && Plays(s.pulse, timings, (1.0 + x) * s.drift)
    ensures AverageDeviation(s, timings) == Some(Abs(x))
  {
    hide Sound, Abs, Expected, Plays, Deviation;
    PulseLength(s);
    ExpectedPositive(s);
    var n := MinNat(|s.pulse|, |timings|);
    ExpectedScaled(s, timings, x);
    RelativeDeviations(Expected(s), timings, n, x);
    AverageOf(n as real, Abs(x));
  }

  lemma PulseLength(s: Session)
    requires Sound(s)
    ensures |s.pulse| == 16
  {
  }

  lemma Regroup(f: real, d: real, p: real)
    ensures f * d * p == f * (p * d)
  {
  }

  lemma ExpectedScaled(s: Session, timings: seq<real>, x: real)
    requires Plays(s.pulse, timings, (1.0 + x) * s.drift)
    ensures timings != [] && forall k | 0 <= k < |timings| && k < |s.pulse| :: timings[k] == (1.0 + x) * Expected(s)[k]
  {
    var f := 1.0 + x;
    forall k | 0 <= k < |timings| && k < |s.pulse| ensures timings[k] == f * Expected(s)[k] {
      Regroup(f, s.drift, s.pulse[k] as real);
    }
  }

  /** The Gaussian of the relative error, with a window of 0.15. */
  lemma WindowOf(exp: real -> real, x: real)
    ensures Closeness(exp, Abs(x)) == exp(-(x * x) / 0.045)
  {
    var d := Abs(x);
    assert d * d == x * x;
    Exponent(d);
    ClosenessAt(exp, d, -(x * x) / 0.045);
  }

  lemma ClosenessAt(exp: real -> real, d: real, e: real)
    requires e == -d * d / (2.0 * DRIFT_WINDOW * DRIFT_WINDOW)
    ensures Closeness(exp, d) == exp(e)
  {
  }

  lemma Exponent(d: real)
    ensures -d * d / (2.0 * DRIFT_WINDOW * DRIFT_WINDOW) == -(d * d) / 0.045
  {
    assert -d * d == -(d * d);
  }

  /**
   * All that the validation of a rhythm with one relative error x does: trust falls at once to the Gaussian of the
   * error or rises towards it by 0.02, and after more than thirty seconds loses another 0.05 for each; a trusted
   * client's drift follows the size of the error.
   */
  lemma OffBy(exp: real -> real, s: Session, timings: seq<real>, now: int, x: real)
    requires Sound(s) && Plays(s.pulse, timings, (1.0 + x) * s.drift)
    ensures var after, g, silence := Validated(exp, s, timings, now), exp(-(x * x) / 0.045), now - s.lastSync;
      && after.pulse == s.pulse && after.lastSync == now && after.trust.Some?
      && after.trust.value
         == (if s.trust.Some? && g > s.trust.value then Min(1.0, s.trust.value + 0.02) else g)
            - (if silence > 30000 then 0.05 * (silence as real / 1000.0) else 0.0)
      && after.drift == (
           if after.trust.value > 0.8 && Abs(x) > 0.05 then Min(2.0, s.drift * (1.0 + Abs(x) / 10.0))
           else if after.trust.value > 0.9 && Abs(x) < 0.02 then Max(1.0, s.drift * 0.995)
           else s.drift)
  {
    hide Plays, Closeness, AverageDeviation, Abs, Sound;
    RelativeError(s, timings, x);
    WindowOf(exp, x);
    assert Abs(x) * 0.1 == Abs(x) / 10.0;
  }

  /** The compensated pulse itself has no deviation: trust is full already, or rises by 0.02. */
  lemma PerfectRhythm(exp: real -> real, s: Session, timings: seq<real>, now: int)
    requires Sound(s) && Decaying(exp) && Plays(s.pulse, timings, s.drift) && now - s.lastSync <= 30000
    ensures AverageDeviation(s, timings) == Some(0.0)
    ensures var after := Validated(exp, s, timings, now);
      after.trust == Some(if s.trust.Some? && s.trust.value < 1.0 then Min(1.0, s.trust.value + 0.02) else 1.0)
  {
    assert (1.0 + 0.0) * s.drift == s.drift;
    RelativeError(s, timings, 0.0);
    OffBy(exp, s, timings, now, 0.0);
    assert -(0.0 * 0.0) / 0.045 == 0.0;
    hide Plays, AverageDeviation;
  }

  lemma CatchUp(drift: real, c: real, x: real)
    requires drift >= 1.0 && 1.05 * drift < c && x == c / drift - 1.0
    ensures x > 0.05 && c - drift * (1.0 + x / 10.0) == 0.9 * (c - drift)
  {
    QuotientOrder(c, drift, 1.05);
    assert (1.0 + x) * drift == c;
    assert x * drift == c - drift;
    assert drift * (1.0 + x / 10.0) == drift + x * drift / 10.0;
  }

  /** Drift compensation catches up: each trusted validation closes a tenth of the gap to a slower client. */
  lemma DriftCatchesUp(exp: real -> real, s: Session, timings: seq<real>, now: int, c: real)
    requires Sound(s) && Plays(s.pulse, timings, c) && now - s.lastSync <= 30000
    requires 1.05 * s.drift < c <= 2.0
    ensures var after := Validated(exp, s, timings, now);
      after.trust.Some? && (after.trust.value > 0.8 ==> c - after.drift == 0.9 * (c - s.drift))
  {
    var x := c / s.drift - 1.0;
    assert (1.0 + x) * s.drift == c;
    CatchUp(s.drift, c, x);
    OffBy(exp, s, timings, now, x);
    hide Plays, Validated;
  }

  // ---------- whole runs ----------

  /** The time of the session's last event, if it had one. */
  ghost function LastTime(es: seq<Event>, sid: Sid): int {
    if es == [] then 0
    else if es[|es| - 1].sid == sid then es[|es| - 1].now
    else LastTime(es[..|es| - 1], sid)
  }

  /** Since the pulse of this digest was issued the client has played it, never silent for more than thirty seconds. */
  ghost predicate InStep(es: seq<Event>, sid: Sid, digest: SyncPulse.Digest) {
    && es != []
    && var front, e := es[..|es| - 1], es[|es| - 1];
       if e.sid != sid then InStep(front, sid, digest)
       else if e.Issue? then e.digest == digest
       else
         && InStep(front, sid, digest)
         && e.now - LastTime(front, sid) <= 30000 && Plays(SyncPulse.Pulse(digest), e.timings, 1.0)
  }

  /** Such a client keeps its session and full trust over every run, whatever happens in other sessions. */
  lemma {:induction false} InStepStays(exp: real -> real, es: seq<Event>, sid: Sid, digest: SyncPulse.Digest)
    requires Decaying(exp) && InStep(es, sid, digest)
    ensures sid in Run(exp, map[], es)
    ensures Run(exp, map[], es)[sid] == Session(SyncPulse.Pulse(digest), Some(1.0), LastTime(es, sid), 1.0)
  {
    hide Validated, Sound, Decaying, Plays;
    var front, e := es[..|es| - 1], es[|es| - 1];
    if e.sid != sid || e.Check? { InStepStays(exp, front, sid, digest); }
    if e.sid == sid && e.Check? { PerfectKeeps(exp, Run(exp, map[], front)[sid], e.timings, e.now); }
  }

  lemma PerfectKeeps(exp: real -> real, s: Session, timings: seq<real>, now: int)
    requires Sound(s) && Decaying(exp) && s.trust == Some(1.0) && s.drift == 1.0
    requires Plays(s.pulse, timings, 1.0) && now - s.lastSync <= 30000
    ensures Validated(exp, s, timings, now) == Session(s.pulse, Some(1.0), now, 1.0)
  {
    PerfectRhythm(exp, s, timings, now);
    hide Plays, AverageDeviation, Sound;
  }
}
