/** The enclave route of server.ts and verifyEntropySeal of sealValidator.ts: replay check, sequence, key ratchet. */
module Enclave {
  import opened Optional

  type Sid = string
  type Key = string

  const RATCHET := 50
  const CLOCK_SKEW_US := 30000000
  const FRESH_US := 5000000
  const ARGON2_COST_THRESHOLD := 0.7

  /**
   * The decoded seal header. ts is what the subtraction makes of the field, so null is 0 and numeric text is its
   * number, and None stands for NaN. seqNo is compared strictly, so None stands for everything but a number.
   */
  datatype Seal = Seal(sig: string, ts: Option<real>, seqNo: Option<real>)

  /** Base64 and JSON decoding, HMAC over session, sequence number and noise, and the hash that evolves a key. */
  datatype Env = Env(parse: string -> Option<Seal>, hmac: (Key, string, int, string) -> string,
                     evolve: (Key, Option<string>, real) -> Key)

  datatype SealVerdict = SealVerdict(valid: bool, trustImpact: real, requiresArgon2: bool)

  function VerifyEntropySeal(env: Env, session: string, header: Option<string>, noise: Option<string>,
                             packetIndex: int, secret: Key, nowMicro: int, trust: real): SealVerdict {
    if header == None || header.value == "" then SealVerdict(false, -0.3, true)
    else
      match env.parse(header.value)
      case None => SealVerdict(false, -0.4, true)
      case Some(seal) =>
        if seal.ts.Some? && (nowMicro as real - seal.ts.value > (FRESH_US + CLOCK_SKEW_US) as real
                             || nowMicro as real - seal.ts.value < -CLOCK_SKEW_US as real) then
          SealVerdict(false, -0.5, true)
        else if seal.seqNo != Some(packetIndex as real) then SealVerdict(false, -0.6, true)
        else if seal.sig != env.hmac(secret, session, packetIndex, if noise.Some? then noise.value else "") then
          SealVerdict(false, -0.4, true)
        else if trust < ARGON2_COST_THRESHOLD then SealVerdict(true, 0.02, true)
        else SealVerdict(true, 0.05, false)
  }

  datatype Entry = Entry(key: Key, counter: nat)

  /** Session keys, last accepted sequence numbers, banned addresses and completed ratchet cycles. */
  datatype State = State(keys: map<Sid, Entry>, seqs: map<Sid, nat>, banned: set<string>, cycles: nat)

  datatype Event =
    | Handshake(sid: Sid, secret: Key)
    | Request(sid: Sid, ip: string, seal: Option<string>, noise: Option<string>,
              nowMicro: int, trust: real, random: real)

  datatype Response = Established | NoSession | ReplayAttack | SealInvalid | Accepted(seqNo: nat, requiresArgon2: bool)

  const START := State(map[], map[], {}, 0)

  function LastSeq(st: State, sid: Sid): nat { if sid in st.seqs then st.seqs[sid] else 0 }

  function ClaimedSeq(env: Env, header: Option<string>): Option<real> {
    match env.parse(if header.Some? then header.value else "")
    case None => None
    case Some(seal) => seal.seqNo
  }

  function Respond(env: Env, st: State, e: Event): Response {
    match e
    case Handshake(_, _) => Established
    case Request(sid, ip, seal, noise, nowMicro, trust, _) =>
      if sid !in st.keys then NoSession
      else
        var last := LastSeq(st, sid);
        var claimed := ClaimedSeq(env, seal);
        if last > 0 && claimed.Some? && claimed.value <= last as real then ReplayAttack
        else
          var v := VerifyEntropySeal(env, "default", seal, noise, last + 1, st.keys[sid].key, nowMicro, trust);
          if v.valid then Accepted(last + 1, v.requiresArgon2) else SealInvalid
  }

  function Next(env: Env, st: State, e: Event): State {
    match e
    case Handshake(sid, secret) =>
      st.(keys := st.keys[sid := Entry(secret, 0)]["default" := Entry(secret, 0)])
    case Request(sid, ip, seal, noise, _, _, random) =>
      match Respond(env, st, e)
      case ReplayAttack => st.(banned := st.banned + {ip})
      case Accepted(seqNo, _) =>
        var entry := st.keys[sid];
        var advanced := st.(seqs := st.seqs[sid := seqNo]);
        if entry.counter + 1 >= RATCHET then
          advanced.(keys := st.keys[sid := Entry(env.evolve(entry.key, noise, random), 0)], cycles := st.cycles + 1)
        else
          advanced.(keys := st.keys[sid := Entry(entry.key, entry.counter + 1)])
      case _ => st
  }

  function Run(env: Env, es: seq<Event>): State {
    if es == [] then START else Next(env, Run(env, es[..|es| - 1]), es[|es| - 1])
  }

  // ---------- what a run looks like for one session ----------

  /** Sequence numbers accepted for the session, in order. */
  function AcceptedSeqs(env: Env, es: seq<Event>, sid: Sid): seq<nat> {
    if es == [] then []
    else
      var front, e := es[..|es| - 1], es[|es| - 1];
      var before := AcceptedSeqs(env, front, sid);
      var r := Respond(env, Run(env, front), e);
      if r.Accepted? && e.sid == sid then before + [r.seqNo] else before
  }

  predicate Rekeys(e: Event, sid: Sid) { e.Handshake? && (e.sid == sid || sid == "default") }

  /** Packets accepted since the last handshake that set the session's key. */
  function AcceptedSince(env: Env, es: seq<Event>, sid: Sid): nat {
    if es == [] then 0
    else
      var front, e := es[..|es| - 1], es[|es| - 1];
      if Rekeys(e, sid) then 0
      else if Respond(env, Run(env, front), e).Accepted? && e.sid == sid then AcceptedSince(env, front, sid) + 1
      else AcceptedSince(env, front, sid)
  }

  /** The accepted sequence numbers are 1, 2, 3, ... without gap or repeat, and the store holds the last of them. */
  lemma {:induction false} AcceptedConsecutive(env: Env, es: seq<Event>, sid: Sid)
    ensures LastSeq(Run(env, es), sid) == |AcceptedSeqs(env, es, sid)|
    ensures forall i | 0 <= i < |AcceptedSeqs(env, es, sid)| :: AcceptedSeqs(env, es, sid)[i] == i + 1
  {
    hide VerifyEntropySeal;
    if es != [] { AcceptedConsecutive(env, es[..|es| - 1], sid); }
  }

  lemma RunExtend(env: Env, es: seq<Event>, e: Event)
    ensures Run(env, es + [e]) == Next(env, Run(env, es), e)
  {
    assert (es + [e])[..|es + [e]| - 1] == es;
  }

  /** What one event does to one entry. */
  lemma NextEntry(env: Env, st: State, e: Event, sid: Sid)
    requires sid in st.keys
    ensures sid in Next(env, st, e).keys
    ensures var entry := st.keys[sid];
      Next(env, st, e).keys[sid] ==
        if Rekeys(e, sid) then Entry(e.secret, 0)
        else if Respond(env, st, e).Accepted? && e.sid == sid then
          if entry.counter + 1 >= RATCHET then Entry(env.evolve(entry.key, e.noise, e.random), 0)
          else Entry(entry.key, entry.counter + 1)
        else entry
  {
    hide VerifyEntropySeal, ClaimedSeq, LastSeq;
  }

  /** The new state as its parts, by the response to a request. */
  lemma NextByResponse(env: Env, st: State, e: Event)
    requires e.Request?
    ensures var r, next := Respond(env, st, e), Next(env, st, e);
      match r
      case ReplayAttack => next == State(st.keys, st.seqs, st.banned + {e.ip}, st.cycles)
      case Accepted(seqNo, _) =>
        && e.sid in st.keys
        && var entry, seqs := st.keys[e.sid], st.seqs[e.sid := seqNo];
           var evolved := Entry(env.evolve(entry.key, e.noise, e.random), 0);
           next == if entry.counter + 1 >= RATCHET
             then State(st.keys[e.sid := evolved], seqs, st.banned, st.cycles + 1)
             else State(st.keys[e.sid := Entry(entry.key, entry.counter + 1)], seqs, st.banned, st.cycles)
      case _ => next == st
  {
    hide VerifyEntropySeal, ClaimedSeq, LastSeq;
  }

  lemma NextCycles(env: Env, st: State, e: Event)
    ensures Respond(env, st, e).Accepted? ==> e.sid in st.keys
    ensures Next(env, st, e).cycles == st.cycles +
      if Respond(env, st, e).Accepted? && st.keys[e.sid].counter + 1 >= RATCHET then 1 else 0
  {
    hide VerifyEntropySeal, ClaimedSeq, LastSeq;
  }

  /** An entry appears only by a handshake. */
  lemma EntryAppears(env: Env, st: State, e: Event, sid: Sid)
    requires sid in Next(env, st, e).keys && !Rekeys(e, sid)
    ensures sid in st.keys
  {
    hide VerifyEntropySeal, ClaimedSeq, LastSeq;
  }

  /** The packet counter is the number of packets accepted since the handshake, modulo 50. */
  lemma {:induction false} CounterIsModulo(env: Env, es: seq<Event>, sid: Sid)
    requires sid in Run(env, es).keys
    ensures Run(env, es).keys[sid].counter == AcceptedSince(env, es, sid) % 50
  {
    hide Respond, Next;
    if es != [] {
      var front, e := es[..|es| - 1], es[|es| - 1];
      if !Rekeys(e, sid) {
        EntryAppears(env, Run(env, front), e, sid);
        CounterIsModulo(env, front, sid);
        CountUp(AcceptedSince(env, front, sid));
        NextEntry(env, Run(env, front), e, sid);
      } else {
        HandshakeEntry(env, Run(env, front), e, sid);
      }
    }
  }

  lemma HandshakeEntry(env: Env, st: State, e: Event, sid: Sid)
    requires Rekeys(e, sid)
    ensures sid in Next(env, st, e).keys && Next(env, st, e).keys[sid] == Entry(e.secret, 0)
  {
  }

  lemma CountUp(n: nat)
    ensures (n + 1) % 50 == if n % 50 + 1 >= RATCHET then 0 else n % 50 + 1
  {
  }

  /**
   * The key of a session changes only by a handshake for it and with every 50th packet accepted since then,
   * and it does change to the evolved key with each of those.
   */
  lemma KeyChanges(env: Env, es: seq<Event>, e: Event, sid: Sid)
    requires sid in Run(env, es).keys
    ensures var before, after := Run(env, es), Run(env, es + [e]);
      && sid in after.keys
      && after.keys[sid].key ==
           if Rekeys(e, sid) then e.secret
           else if Respond(env, before, e).Accepted? && e.sid == sid && (AcceptedSince(env, es, sid) + 1) % 50 == 0
           then env.evolve(before.keys[sid].key, e.noise, e.random)
           else before.keys[sid].key
  {
    hide Respond, Next, Run;
    RunExtend(env, es, e);
    CounterIsModulo(env, es, sid);
    CountUp(AcceptedSince(env, es, sid));
    NextEntry(env, Run(env, es), e, sid);
  }

  /** A ratchet cycle is counted with every 50th packet accepted since the handshake of its session, and only then. */
  lemma CyclesExactly(env: Env, es: seq<Event>, e: Event)
    ensures Run(env, es + [e]).cycles == Run(env, es).cycles +
      if Respond(env, Run(env, es), e).Accepted? && (AcceptedSince(env, es, e.sid) + 1) % 50 == 0 then 1 else 0
  {
    hide Respond, Next, Run;
    RunExtend(env, es, e);
    NextCycles(env, Run(env, es), e);
    if Respond(env, Run(env, es), e).Accepted? {
      CounterIsModulo(env, es, e.sid);
      CountUp(AcceptedSince(env, es, e.sid));
    }
  }

  /** Not more than thirty-five seconds old and not more than thirty seconds ahead. */
  ghost predicate Fresh(seal: Seal, nowMicro: int) {
    seal.ts.Some? ==> -30000000.0 <= nowMicro as real - seal.ts.value <= 35000000.0
  }

  /**
   * A packet is accepted exactly when its session exists and its seal decodes, is fresh, carries the next
   * sequence number and the matching signature.
   */
  lemma AcceptedExactly(env: Env, st: State, e: Event)
    requires e.Request?
    ensures Respond(env, st, e).Accepted? <==>
      && e.sid in st.keys && e.seal.Some? && e.seal.value != ""
      && env.parse(e.seal.value).Some?
      && var seal, noise := env.parse(e.seal.value).value, if e.noise.Some? then e.noise.value else "";
         && Fresh(seal, e.nowMicro)
         && seal.seqNo == Some((LastSeq(st, e.sid) + 1) as real)
         && seal.sig == env.hmac(st.keys[e.sid].key, "default", LastSeq(st, e.sid) + 1, noise)
  {
  }

  /** An accepted packet asks for the costly check exactly below the trust threshold; only a valid seal gains trust. */
  lemma VerdictMeaning(env: Env, session: string, header: Option<string>, noise: Option<string>,
                       packetIndex: int, secret: Key, nowMicro: int, trust: real)
    ensures var v := VerifyEntropySeal(env, session, header, noise, packetIndex, secret, nowMicro, trust);
      && (v.valid <==> v.trustImpact > 0.0)
      && (v.requiresArgon2 <==> !v.valid || trust < 0.7)
      && (v.valid ==> v.trustImpact == if trust < 0.7 then 0.02 else 0.05)
      && (!v.valid ==> (v.trustImpact == (
            if header == None || header.value == "" then -0.3
            else if env.parse(header.value) == None then -0.4
            else if !Fresh(env.parse(header.value).value, nowMicro) then -0.5
            else if env.parse(header.value).value.seqNo != Some(packetIndex as real) then -0.6
            else -0.4)))
  {
  }

  /** A seal whose sequence number was accepted before is never accepted, and presenting it bans the sender. */
  lemma ReplayRejected(env: Env, es: seq<Event>, e: Event, n: nat)
    requires e.Request? && n in AcceptedSeqs(env, es, e.sid) && e.sid in Run(env, es).keys
    requires ClaimedSeq(env, e.seal) == Some(n as real)
    ensures Respond(env, Run(env, es), e) == ReplayAttack
    ensures e.ip in Next(env, Run(env, es), e).banned
  {
    AcceptedConsecutive(env, es, e.sid);
    hide Run, AcceptedSeqs, VerifyEntropySeal;
  }

  /**
   * A handshake gives the shared default session a new key but not a new sequence: the first seal of the new
   * client, numbered 1, is answered as a replay exactly when some earlier client had a packet accepted there.
   */
  lemma FirstSealAfterHandshake(env: Env, es: seq<Event>, sid: Sid, secret: Key, e: Event)
    requires e.Request? && (e.sid == sid || e.sid == "default") && ClaimedSeq(env, e.seal) == Some(1.0)
    ensures var st := Run(env, es + [Handshake(sid, secret)]);
      Respond(env, st, e) == ReplayAttack <==> AcceptedSeqs(env, es, e.sid) != []
  {
    hide Run, AcceptedSeqs, VerifyEntropySeal, ClaimedSeq;
    RunExtend(env, es, Handshake(sid, secret));
    AcceptedConsecutive(env, es, e.sid);
  }

  /** Request i of the run was answered as a replay from the given address. */
  ghost predicate ReplayAt(env: Env, es: seq<Event>, i: nat, ip: string)
    requires i < |es|
  {
    es[i].Request? && es[i].ip == ip && Respond(env, Run(env, es[..i]), es[i]) == ReplayAttack
  }

  lemma ReplayEarlier(env: Env, es: seq<Event>, e: Event, i: nat, ip: string)
    requires i <= |es|
    ensures i < |es| ==> ReplayAt(env, es + [e], i, ip) == ReplayAt(env, es, i, ip)
    ensures i == |es| ==>
      (ReplayAt(env, es + [e], i, ip) <==> e.Request? && e.ip == ip && Respond(env, Run(env, es), e) == ReplayAttack)
  {
    hide Respond, Run;
    assert (es + [e])[..i] == es[..i];
    assert es[..|es|] == es;
  }

  lemma BannedByStep(env: Env, st: State, e: Event, ip: string)
    ensures ip in Next(env, st, e).banned <==>
      ip in st.banned || (e.Request? && e.ip == ip && Respond(env, st, e) == ReplayAttack)
  {
    hide VerifyEntropySeal, ClaimedSeq, LastSeq;
  }

  /** After any run the banned addresses are exactly those that sent a packet answered as a replay. */
  lemma {:induction false} BannedExactly(env: Env, es: seq<Event>, ip: string)
    ensures ip in Run(env, es).banned <==> exists i | 0 <= i < |es| :: ReplayAt(env, es, i, ip)
  {
    hide Respond, Next, ReplayAt;
    if es != [] {
      var front, e := es[..|es| - 1], es[|es| - 1];
      assert es == front + [e];
      BannedExactly(env, front, ip);
      BannedByStep(env, Run(env, front), e, ip);
      ReplayEarlier(env, front, e, |front|, ip);
      forall i | 0 <= i < |front| ensures ReplayAt(env, es, i, ip) == ReplayAt(env, front, i, ip) {
        ReplayEarlier(env, front, e, i, ip);
      }
    }
  }

  // ---------- the server ----------

  class EnclaveServer {
    const env: Env
    var sessionKeys: map<Sid, Entry>
    var packetSequences: map<Sid, nat>
    var bannedIPs: set<string>
    var keyRatchetCycles: nat
    /** Every event so far. */
    ghost var events: seq<Event>

    ghost predicate Valid()
      reads this
    {
      State(sessionKeys, packetSequences, bannedIPs, keyRatchetCycles) == Run(env, events)
    }

    constructor (env: Env)
      ensures Valid() && events == [] && this.env == env
    {
      this.env := env;
      sessionKeys, packetSequences, bannedIPs, keyRatchetCycles := map[], map[], {}, 0;
      events := [];
    }

    /** The end of the ML-KEM handshake: a fresh session id and the shared default both get the secret. */
    method Establish(sid: Sid, secret: Key)
      requires Valid()
      modifies this
      ensures Valid() && events == old(events) + [Handshake(sid, secret)]
    {
      RunExtend(env, events, Handshake(sid, secret));
      events := events + [Handshake(sid, secret)];
      sessionKeys := sessionKeys[sid := Entry(secret, 0)];
      sessionKeys := sessionKeys["default" := Entry(secret, 0)];
    }

    method Handle(sid: Sid, ip: string, seal: Option<string>, noise: Option<string>,
                  nowMicro: int, trust: real, random: real)
      returns (r: Response)
      requires Valid()
      modifies this
      ensures var e := Request(sid, ip, seal, noise, nowMicro, trust, random);
        Valid() && events == old(events) + [e] && r == Respond(env, Run(env, old(events)), e)
    {
      hide VerifyEntropySeal, ClaimedSeq, Run, Next;
      ghost var st, e := Run(env, events), Request(sid, ip, seal, noise, nowMicro, trust, random);
      RunExtend(env, events, e);
      events := events + [e];
      NextByResponse(env, st, e);
      if sid !in sessionKeys { return NoSession; }
      var entry := sessionKeys[sid];
      var lastSeq := if sid in packetSequences then packetSequences[sid] else 0;
      var expectedSeq := lastSeq + 1;
      var claimedSeq := ClaimedSeq(env, seal);
      if lastSeq > 0 && claimedSeq.Some? && claimedSeq.value <= lastSeq as real {
        bannedIPs := bannedIPs + {ip};
        return ReplayAttack;
      }
      var verdict := VerifyEntropySeal(env, "default", seal, noise, expectedSeq, entry.key, nowMicro, trust);
      if !verdict.valid { return SealInvalid; }
      r := Accepted(expectedSeq, verdict.requiresArgon2);
      assert Respond(env, st, e) == r;
      hide Respond;
      entry := entry.(counter := entry.counter + 1);
      if entry.counter >= RATCHET {
        entry := Entry(env.evolve(entry.key, noise, random), 0);
        keyRatchetCycles := keyRatchetCycles + 1;
      }
      sessionKeys := sessionKeys[sid := entry];
      packetSequences := packetSequences[sid := expectedSeq];
    }
  }
}
