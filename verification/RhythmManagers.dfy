/** rhythmManager.ts itself: session records updated in place, tied to the run of all events so far. */
module RhythmManagers {
  import opened Bounds
  import opened Optional
  import opened Rhythm

  class RhythmState {
    var secretSequence: seq<nat>
    var trustScore: Score
    var lastSync: int
    var driftCompensation: real

    constructor (pulse: seq<nat>, now: int)
      ensures View() == Session(pulse, Some(1.0), now, 1.0)
    {
      secretSequence, trustScore, lastSync, driftCompensation := pulse, Some(1.0), now, 1.0;
    }

    ghost function View(): Session
      reads this
    {
      Session(secretSequence, trustScore, lastSync, driftCompensation)
    }

    method AverageOf(timings: seq<real>) returns (average: Score)
      requires Sound(View())
      ensures average == AverageDeviation(View(), timings)
    {
      ExpectedPositive(View());
      var pulse, drift := secretSequence, driftCompensation;
      var expectedTimings := seq(|pulse|, k requires 0 <= k < |pulse| => pulse[k] as real * drift);
      assert expectedTimings == Expected(View());
      hide Expected, Sound;
      var count := MinNat(|expectedTimings|, |timings|);
      var totalDeviation := 0.0;
      for i := 0 to count
        invariant totalDeviation == Deviation(expectedTimings, timings, i)
      {
        var delta := Abs(timings[i] - expectedTimings[i]);
        totalDeviation := totalDeviation + delta / expectedTimings[i];
      }
      average := if count == 0 then None else Some(totalDeviation / count as real);
    }

    /** The updates that one validation makes to the record. */
    method Update(exp: real -> real, timings: seq<real>, now: int)
      requires Sound(View())
      modifies this
      ensures View() == Validated(exp, old(View()), timings, now)
    {
      hide Sound, Deviation, Expected;
      var average := AverageOf(timings);
      var trustDelta: Score := if average.Some? then Some(Closeness(exp, average.value)) else None;
      hide Closeness, AverageDeviation;
      if trustDelta.Some? && trustScore.Some? && trustDelta.value > trustScore.value {
        trustScore := Some(Min(1.0, trustScore.value + STEP));
      } else {
        trustScore := trustDelta;
      }
      var timeSinceLastSync := now - lastSync;
      if timeSinceLastSync > SILENCE_MS && trustScore.Some? {
        trustScore := Some(trustScore.value - TRUST_DECAY_RATE * (timeSinceLastSync as real / 1000.0));
      }
      lastSync := now;
      if average.Some? && trustScore.Some? {
        if trustScore.value > 0.8 && average.value > 0.05 {
          driftCompensation := Min(2.0, driftCompensation * (1.0 + average.value * 0.1));
        } else if trustScore.value > 0.9 && average.value < 0.02 {
          driftCompensation := Max(1.0, driftCompensation * 0.995);
        }
      }
    }
  }

  class RhythmManager {
    const exp: real -> real
    var rhythmSessions: map<Sid, RhythmState>
    /** Every pulse issued and every rhythm checked so far. */
    ghost var events: seq<Event>

    ghost function Sessions(): map<Sid, Session>
      reads `rhythmSessions, rhythmSessions.Values
    {
      map sid | sid in rhythmSessions :: rhythmSessions[sid].View()
    }

    ghost predicate Valid()
      reads this, rhythmSessions.Values
    {
      Decaying(exp) && Distinct() && Sessions() == Run(exp, map[], events)
    }

    /** No two session ids share a record. */
    ghost predicate Distinct()
      reads `rhythmSessions
    {
      forall a, b | a in rhythmSessions && b in rhythmSessions && a != b :: rhythmSessions[a] != rhythmSessions[b]
    }

    constructor (exp: real -> real)
      requires Decaying(exp)
      ensures Valid() && events == [] && rhythmSessions == map[] && this.exp == exp
    {
      this.exp := exp;
      rhythmSessions, events := map[], [];
    }

    method GenerateSyncPulse(sid: Sid, seed: SyncPulse.Digest, now: int) returns (pulse: seq<nat>)
      requires Valid()
      modifies this
      ensures Valid() && events == old(events) + [Issue(sid, seed, now)]
      ensures fresh(rhythmSessions.Values - old(rhythmSessions.Values))
      ensures pulse == SyncPulse.Pulse(seed)
    {
      hide Decaying, Sound, Run, Distinct, Sessions;
      pulse := SyncPulse.MakePulse(seed);
      IssueExtends(exp, events, sid, seed, now);
      NewSession(sid, pulse, now);
      events := events + [Issue(sid, seed, now)];
    }

    /** A fresh record takes the place of the session's old one. */
    method NewSession(sid: Sid, pulse: seq<nat>, now: int)
      requires Distinct()
      modifies `rhythmSessions
      ensures Distinct() && fresh(rhythmSessions.Values - old(rhythmSessions.Values))
      ensures Sessions() == old(Sessions())[sid := Session(pulse, Some(1.0), now, 1.0)]
    {
      var state := new RhythmState(pulse, now);
      rhythmSessions := rhythmSessions[sid := state];
    }

    /** A validation of an existing session: its record is updated, or removed when trust is lost. */
    method CheckSession(sid: Sid, timings: seq<real>, now: int) returns (verdict: Verdict)
      requires Distinct() && sid in rhythmSessions && Sound(rhythmSessions[sid].View())
      modifies `rhythmSessions, rhythmSessions[sid]
      ensures Distinct() && rhythmSessions.Values <= old(rhythmSessions.Values)
      ensures var after := Validated(exp, old(rhythmSessions[sid].View()), timings, now);
        && verdict == VerdictOf(after.trust)
        && Sessions() == if Dropped(after.trust) then old(Sessions()) - {sid} else old(Sessions())[sid := after]
    {
      hide Sound, Validated;
      var state := rhythmSessions[sid];
      state.Update(exp, timings, now);
      verdict := VerdictOf(state.trustScore);
      if Dropped(state.trustScore) {
        rhythmSessions := rhythmSessions - {sid};
        assert Sessions() == old(Sessions()) - {sid};
      } else {
        assert Sessions() == old(Sessions())[sid := state.View()];
      }
    }

    method ValidateRhythm(sid: Sid, timings: seq<real>, now: int) returns (verdict: Verdict)
      requires Valid()
      modifies this, rhythmSessions.Values
      ensures Valid() && events == old(events) + [Check(sid, timings, now)]
      ensures rhythmSessions.Values <= old(rhythmSessions.Values)
      ensures verdict == Respond(exp, Run(exp, map[], old(events)), sid, timings, now)
    {
      hide Decaying, Sound, Validated, Run, Distinct;
      RunExtends(exp, events, Check(sid, timings, now));
      events := events + [Check(sid, timings, now)];
      if sid !in rhythmSessions { return Verdict(false, Some(0.0), true); }
      assert Sessions()[sid] == rhythmSessions[sid].View();
      verdict := CheckSession(sid, timings, now);
    }

    /** Between 1 and 2, and 1 without a session. */
    method GetDriftAdjustment(sid: Sid) returns (d: real)
      requires Valid()
      ensures d == if sid in Sessions() then Sessions()[sid].drift else 1.0
      ensures 1.0 <= d <= 2.0
    {
      if sid !in rhythmSessions { return 1.0; }
      d := rhythmSessions[sid].driftCompensation;
      assert Sessions()[sid].drift == d;
      d := if d == 0.0 then 1.0 else d;
    }

    /** The stored trust, or zero where there is no session or its last validation was empty. */
    method GetTrustStatus(sid: Sid) returns (t: real)
      requires Valid()
      ensures t == if sid in Sessions() && Sessions()[sid].trust.Some? then Sessions()[sid].trust.value else 0.0
      ensures 0.0 <= t <= 1.0
      ensures t == 0.0 <==> sid !in Sessions() || LastBlank(events, sid)
    {
      if sid in rhythmSessions && rhythmSessions[sid].trustScore.Some? {
        t := rhythmSessions[sid].trustScore.value;
      } else {
        t := 0.0;
      }
      if sid in Sessions() { BlankExactly(exp, events, sid); }
    }
  }

  lemma IssueExtends(exp: real -> real, es: seq<Event>, sid: Sid, seed: SyncPulse.Digest, now: int)
    requires Decaying(exp)
    ensures Run(exp, map[], es + [Issue(sid, seed, now)])
         == Run(exp, map[], es)[sid := Session(SyncPulse.Pulse(seed), Some(1.0), now, 1.0)]
  {
    hide Decaying, Sound, Run;
    RunExtends(exp, es, Issue(sid, seed, now));
  }

  lemma RunExtends(exp: real -> real, es: seq<Event>, e: Event)
    requires Decaying(exp)
    ensures Run(exp, map[], es + [e]) == Next(exp, Run(exp, map[], es), e)
  {
    assert (es + [e])[..|es + [e]| - 1] == es;
  }
}
