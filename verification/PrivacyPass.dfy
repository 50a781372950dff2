/** The issuer and verifier of privacyPass.ts: batches of blinded evaluations and one-time redemption. */
module PrivacyPass {
  import opened Hex
  import opened Optional
  import opened Oprf
  import opened SpentSet

  const OUTPUT_BYTES := 48

  datatype Reason = MalformedNonce | MalformedOutput | TokenAlreadySpent | TokenInvalid

  datatype RedeemResult = Valid | Rejected(reason: Reason)

  /** What the checks before the ledger make of a presented token. */
  datatype Presented = Malformed(reason: Reason) | Token(key: string, nonce: seq<Byte>, output: seq<Byte>)

  function Present(nonceHex: string, outputHex: string): Presented {
    match Decode(nonceHex)
    case None => Malformed(MalformedNonce)
    case Some(nonce) =>
      if |nonce| < 8 || |nonce| > 64 then Malformed(MalformedNonce)
      else if |outputHex| != 2 * OUTPUT_BYTES || !(forall i | 0 <= i < |outputHex| :: IsDigit(outputHex[i])) then
        Malformed(MalformedOutput)
      else Token(Lower(nonceHex), nonce, Bytes(Lower(outputHex)))
  }

  /** Does the output equal the server's own evaluation of the nonce? */
  function Genuine<E>(c: Suite<E>, skS: int, nonce: seq<Byte>, output: seq<Byte>): bool {
    match Evaluate(c, skS, nonce)
    case None => false
    case Some(expected) => |expected| % 2 == 0 && Bytes(expected) == output
  }

  /** Eight to sixty-four bytes in hexadecimal. */
  predicate NonceText(s: string) { IsHexText(s) && 16 <= |s| <= 128 }

  /** Forty-eight bytes in hexadecimal. */
  predicate OutputText(s: string) { IsHexText(s) && |s| == 96 }

  lemma PresentExact(nonceHex: string, outputHex: string)
    ensures Present(nonceHex, outputHex) ==
      if !NonceText(nonceHex) then Malformed(MalformedNonce)
      else if !OutputText(outputHex) then Malformed(MalformedOutput)
      else Token(Lower(nonceHex), Bytes(nonceHex), Bytes(Lower(outputHex)))
    ensures Decode(nonceHex) == if IsHexText(nonceHex) then Some(Bytes(nonceHex)) else None
    ensures NonceText(nonceHex) ==> 8 <= |Bytes(nonceHex)| <= 64
  {
    hide Bytes, Lower, IsDigit;
  }

  /** The comparison of bytes decides whether the presented text is the evaluation of the nonce, in any letter case. */
  lemma GenuineExact<E(!new)>(c: Suite<E>, skS: int, nonceHex: string, outputHex: string)
    requires Lawful(c) && NonceText(nonceHex) && OutputText(outputHex)
    ensures Evaluate(c, skS, Bytes(nonceHex)).Some?
    ensures Genuine(c, skS, Bytes(nonceHex), Bytes(Lower(outputHex)))
       <==> Lower(outputHex) == Lower(Evaluate(c, skS, Bytes(nonceHex)).value)
  {
    hide Bytes, Lower, IsDigit, Lawful, Encode;
    EvaluateDefined(c, skS, Bytes(nonceHex));
    EvaluateHex(c, skS, Bytes(nonceHex));
    hide Evaluate;
    LowerTwice(outputHex);
    LowerIsBytes(outputHex, Evaluate(c, skS, Bytes(nonceHex)).value);
  }

  lemma EvaluateHex<E(!new)>(c: Suite<E>, skS: int, nonce: seq<Byte>)
    requires Evaluate(c, skS, nonce).Some?
    ensures IsHexText(Evaluate(c, skS, nonce).value)
  {
    EncodedBytes(FinalizeHash(c, nonce, c.toBytes(c.mul(c.hashToGroup(nonce), skS))).value);
  }

  /** For one nonce, however it is spelled, at most one output text is ever genuine, up to letter case. */
  lemma OneOutput<E(!new)>(c: Suite<E>, skS: int, nonce: string, output: string, nonce': string, output': string)
    requires Lawful(c) && NonceText(nonce) && OutputText(output) && NonceText(nonce') && OutputText(output')
    requires Lower(nonce) == Lower(nonce')
    requires Genuine(c, skS, Bytes(nonce), Bytes(Lower(output)))
    requires Genuine(c, skS, Bytes(nonce'), Bytes(Lower(output')))
    ensures Lower(output) == Lower(output')
  {
    hide Bytes, Lower, IsDigit, Genuine, Lawful, Evaluate;
    LowerIsBytes(nonce, nonce');
    GenuineExact(c, skS, nonce, output);
    GenuineExact(c, skS, nonce', output');
  }

  /** The issuer evaluates a batch element by element; None where it throws. */
  function EvaluateAll<E(==)>(c: Suite<E>, skS: int, blinded: seq<string>): (r: Option<seq<string>>)
    ensures r.Some? ==> |r.value| == |blinded|
  {
    if blinded == [] then Some([])
    else
      match EvaluateAll(c, skS, blinded[..|blinded| - 1])
      case None => None
      case Some(front) =>
        match BlindEvaluate(c, skS, blinded[|blinded| - 1])
        case None => None
        case Some(last) => Some(front + [last])
  }

  class PrivacyPassIssuer<E(==,!new)> {
    const suite: Suite<E>
    const skS: int
    const maxBatch: int
    const config: Config
    var spent: seq<Entry>
    var lastPrune: int
    var issued: nat
    var redeemed: nat
    var rejected: nat
    /** Well-formed redemption attempts in call order, and the number of all redeem calls. */
    ghost var attempts: seq<Attempt>
    ghost var calls: nat

    ghost predicate Valid()
      reads this
    {
      && Lawful(suite) && Scalar(suite, skS)
      && Ledger(spent, lastPrune) == Run(config, attempts)
      && redeemed == |History(config, attempts)|
      && redeemed + rejected == calls
    }

    constructor (suite: Suite<E>, skS: int, maxBatch: int, config: Config)
      requires Lawful(suite) && Scalar(suite, skS)
      ensures Valid() && attempts == [] && calls == 0 && issued == 0
      ensures this.suite == suite && this.skS == skS && this.maxBatch == maxBatch && this.config == config
    {
      this.suite, this.skS, this.maxBatch, this.config := suite, skS, maxBatch, config;
      spent, lastPrune := [], 0;
      issued, redeemed, rejected := 0, 0, 0;
      attempts, calls := [], 0;
    }

    /** All or nothing: None on an empty or over-long batch or on any element that does not deserialize. */
    method IssueBatch(blinded: seq<string>) returns (evaluated: Option<seq<string>>)
      requires Valid()
      modifies this`issued
      ensures Valid()
      ensures evaluated == if blinded == [] || |blinded| > maxBatch then None else EvaluateAll(suite, skS, blinded)
      ensures issued == old(issued) + if evaluated.Some? then |evaluated.value| else 0
    {
      hide Run, History, Lawful;
      if blinded == [] || |blinded| > maxBatch { return None; }
      var answers := [];
      for i := 0 to |blinded|
        invariant EvaluateAll(suite, skS, blinded[..i]) == Some(answers)
        invariant issued == old(issued) && Valid()
      {
        assert blinded[..i + 1][..i] == blinded[..i];
        var answer := BlindEvaluate(suite, skS, blinded[i]);
        if answer == None {
          FailedBatch(suite, skS, blinded, i);
          return None;
        }
        answers := answers + [answer.value];
      }
      assert blinded[..|blinded|] == blinded;
      issued := issued + |answers|;
      return Some(answers);
    }

    /**
     * The verdict on a well-formed token is that of the ledger; malformed ones do not touch it. In plain terms: the
     * formats are 16 to 128 and 96 hexadecimal digits, a spent nonce is answered as spent, and what remains is
     * accepted exactly when the output spells the server's own evaluation of the nonce, in whatever letter case.
     */
    method Redeem(nonceHex: string, outputHex: string, pruneTime: int, markTime: int) returns (r: RedeemResult)
      requires Valid()
      modifies this
      ensures Valid() && calls == old(calls) + 1 && issued == old(issued)
      ensures match Present(nonceHex, outputHex)
        case Malformed(reason) => r == Rejected(reason) && attempts == old(attempts)
        case Token(key, nonce, output) =>
          var a := Attempt(key, Genuine(suite, skS, nonce, output), pruneTime, markTime);
          && attempts == old(attempts) + [a]
          && r == match Judge(Run(config, old(attempts)), a)
               case Accepted => RedeemResult.Valid
               case AlreadySpent => Rejected(TokenAlreadySpent)
               case Invalid => Rejected(TokenInvalid)
      ensures r == Rejected(MalformedNonce) <==> !NonceText(nonceHex)
      ensures r == Rejected(MalformedOutput) <==> NonceText(nonceHex) && !OutputText(outputHex)
      ensures r == Rejected(TokenAlreadySpent) <==>
        && NonceText(nonceHex) && OutputText(outputHex)
        && Has(Prune(Run(config, old(attempts)), pruneTime).spent, Lower(nonceHex))
      ensures r == RedeemResult.Valid || r == Rejected(TokenInvalid) ==>
        && NonceText(nonceHex) && OutputText(outputHex) && Evaluate(suite, skS, Bytes(nonceHex)).Some?
        && (r == RedeemResult.Valid <==> Lower(outputHex) == Lower(Evaluate(suite, skS, Bytes(nonceHex)).value))
    {
      hide Run, History, Lawful, Genuine, Prune, Has, Evaluate, Decode, Bytes;
      PresentExact(nonceHex, outputHex);
      if NonceText(nonceHex) && OutputText(outputHex) { GenuineExact(suite, skS, nonceHex, outputHex); }
      calls := calls + 1;
      var decoded := Decode(nonceHex);
      if decoded == None || |decoded.value| < 8 || |decoded.value| > 64 {
        rejected := rejected + 1;
        return Rejected(MalformedNonce);
      }
      var nonce := decoded.value;
      if |outputHex| != 2 * OUTPUT_BYTES || !(forall i | 0 <= i < |outputHex| :: IsDigit(outputHex[i])) {
        rejected := rejected + 1;
        return Rejected(MalformedOutput);
      }
      var key := Lower(nonceHex);
      r := Consume(key, nonce, Bytes(Lower(outputHex)), pruneTime, markTime);
    }

    method Consume(key: string, nonce: seq<Byte>, output: seq<Byte>, pruneTime: int, markTime: int)
      returns (r: RedeemResult)
      requires Lawful(suite) && Scalar(suite, skS)
      requires Ledger(spent, lastPrune) == Run(config, attempts) && redeemed == |History(config, attempts)|
      requires redeemed + rejected + 1 == calls && |nonce| <= 64
      modifies `spent, `lastPrune, `redeemed, `rejected, `attempts
      ensures Valid()
      ensures var a := Attempt(key, Genuine(suite, skS, nonce, output), pruneTime, markTime);
        && attempts == old(attempts) + [a]
        && r == match Judge(Run(config, old(attempts)), a)
             case Accepted => RedeemResult.Valid
             case AlreadySpent => Rejected(TokenAlreadySpent)
             case Invalid => Rejected(TokenInvalid)
      ensures Evaluate(suite, skS, nonce).Some? && |Evaluate(suite, skS, nonce).value| % 2 == 0
      ensures r == RedeemResult.Valid ==> Bytes(Evaluate(suite, skS, nonce).value) == output
      ensures r == Rejected(TokenInvalid) ==> Bytes(Evaluate(suite, skS, nonce).value) != output
    {
      hide Lawful, Evaluate, Run, History, Unexpired;
      EvaluateDefined(suite, skS, nonce);
      ghost var a := Attempt(key, Genuine(suite, skS, nonce, output), pruneTime, markTime);
      RunExtends(config, attempts, a);
      attempts := attempts + [a];
      PruneIfDue(pruneTime);
      if Has(spent, key) {
        rejected := rejected + 1;
        return Rejected(TokenAlreadySpent);
      }
      var expected := Evaluate(suite, skS, nonce);
      if Bytes(expected.value) != output {
        rejected := rejected + 1;
        return Rejected(TokenInvalid);
      }
      MarkSpent(key, markTime);
      redeemed := redeemed + 1;
      return RedeemResult.Valid;
    }

    method MarkSpent(key: string, now: int)
      modifies `spent
      ensures Ledger(spent, lastPrune) == Mark(config, old(Ledger(spent, lastPrune)), key, now)
    {
      if |spent| >= config.maxSpent {
        if spent != [] { spent := spent[1..]; }
      }
      spent := spent + [Entry(key, now + config.ttl)];
    }

    method PruneIfDue(now: int)
      modifies `spent, `lastPrune
      ensures Ledger(spent, lastPrune) == Prune(old(Ledger(spent, lastPrune)), now)
    {
      if now - lastPrune < PRUNE_INTERVAL { return; }
      lastPrune := now;
      var kept := [];
      var entries := spent;
      for i := 0 to |entries|
        invariant lastPrune == now && spent == entries
        invariant kept + Unexpired(entries[i..], now) == Unexpired(entries, now)
      {
        assert entries[i..][1..] == entries[i + 1..];
        if entries[i].expiry > now { kept := kept + [entries[i]]; }
      }
      spent := kept;
    }
  }

  lemma {:induction false} FailedBatch<E>(c: Suite<E>, skS: int, blinded: seq<string>, i: nat)
    requires i < |blinded| && BlindEvaluate(c, skS, blinded[i]) == None
    ensures EvaluateAll(c, skS, blinded) == None
  {
    if i < |blinded| - 1 { FailedBatch(c, skS, blinded[..|blinded| - 1], i); }
  }

  lemma RunExtends(c: Config, s: seq<Attempt>, a: Attempt)
    ensures Run(c, s + [a]) == After(c, Run(c, s), a)
    ensures History(c, s + [a]) == if Judge(Run(c, s), a) == Accepted then History(c, s) + [a] else History(c, s)
  {
    assert (s + [a])[..|s + [a]| - 1] == s;
  }

  /** Redemption never meets an over-long hash input. */
  lemma EvaluateDefined<E(!new)>(c: Suite<E>, skS: int, nonce: seq<Byte>)
    requires Lawful(c) && |nonce| <= 64
    ensures Evaluate(c, skS, nonce).Some? && |Evaluate(c, skS, nonce).value| % 2 == 0
  {
    assert Reversible(c, c.mul(c.hashToGroup(nonce), skS));
  }

  // ---------- what the protocol promises ----------

  lemma {:induction false} EvaluateAllAt<E>(c: Suite<E>, skS: int, blinded: seq<string>, i: nat)
    requires EvaluateAll(c, skS, blinded).Some? && i < |blinded|
    ensures BlindEvaluate(c, skS, blinded[i]) == Some(EvaluateAll(c, skS, blinded).value[i])
  {
    if i < |blinded| - 1 { EvaluateAllAt(c, skS, blinded[..|blinded| - 1], i); }
  }

  /**
   * A client that blinds a nonce, has it evaluated in a batch, and finalizes the answer holds a token that is
   * well formed, genuine, and accepted the first time its nonce is redeemed in whatever run, in any letter case.
   */
  lemma HonestTokenAccepted<E(!new)>(c: Suite<E>, skS: int, nonce: seq<Byte>, blind: int, batch: seq<string>, i: nat,
                                     nonceHex: string, outputHex: string,
                                     cfg: Config, s: seq<Attempt>, t0: int, t1: int)
    requires Lawful(c) && Scalar(c, skS) && Scalar(c, blind)
    requires forall b :: |c.hash(b)| == OUTPUT_BYTES
    requires 8 <= |nonce| <= 64
    requires i < |batch| && Blind(c, nonce, blind) == Some(batch[i]) && EvaluateAll(c, skS, batch).Some?
    requires Lower(nonceHex) == Lower(Encode(nonce)) && IsHexText(nonceHex)
    requires var token := Finalize(c, nonce, blind, EvaluateAll(c, skS, batch).value[i]);
      token.Some? && Lower(outputHex) == Lower(token.value) && IsHexText(outputHex)
    requires cfg.maxSpent >= 1
    ensures var p := Present(nonceHex, outputHex);
      && p.Token? && Genuine(c, skS, p.nonce, p.output)
      && var a := Attempt(p.key, true, t0, t1);
         (Monotone(s + [a]) && (forall j | 0 <= j < |History(cfg, s)| :: History(cfg, s)[j].key != p.key)
          ==> Judge(Run(cfg, s), a) == Accepted)
  {
    hide Lawful, Run, History, Finalize, Evaluate, EvaluateAll;
    EvaluateAllAt(c, skS, batch, i);
    OprfCorrect(c, nonce, blind, skS);
    var token := Finalize(c, nonce, blind, EvaluateAll(c, skS, batch).value[i]).value;
    PresentHonest(c, skS, nonce, token, nonceHex, outputHex);
    var a := Attempt(Present(nonceHex, outputHex).key, true, t0, t1);
    if Monotone(s + [a]) && forall j | 0 <= j < |History(cfg, s)| :: History(cfg, s)[j].key != a.key {
      FreshAccepted(cfg, s, a);
    }
  }

  lemma PresentHonest<E(!new)>(c: Suite<E>, skS: int, nonce: seq<Byte>, token: string,
                               nonceHex: string, outputHex: string)
    requires Lawful(c) && 8 <= |nonce| <= 64
    requires forall b :: |c.hash(b)| == OUTPUT_BYTES
    requires Evaluate(c, skS, nonce) == Some(token)
    requires Lower(nonceHex) == Lower(Encode(nonce)) && IsHexText(nonceHex)
    requires Lower(outputHex) == Lower(token) && IsHexText(outputHex)
    ensures Present(nonceHex, outputHex).Token?
    ensures Genuine(c, skS, Present(nonceHex, outputHex).nonce, Present(nonceHex, outputHex).output)
  {
    hide Lawful, Evaluate, Bytes, Encode, Lower, IsDigit;
    EvaluatedText(c, skS, nonce);
    PresentText(nonce, token, nonceHex, outputHex);
  }

  /** Any letter case of a nonce and of a token text is read as their bytes. */
  lemma PresentText(nonce: seq<Byte>, token: string, nonceHex: string, outputHex: string)
    requires 8 <= |nonce| <= 64 && IsHexText(token) && |token| == 2 * OUTPUT_BYTES
    requires Lower(nonceHex) == Lower(Encode(nonce)) && IsHexText(nonceHex)
    requires Lower(outputHex) == Lower(token) && IsHexText(outputHex)
    ensures Present(nonceHex, outputHex) == Token(Lower(nonceHex), nonce, Bytes(token))
  {
    hide Bytes, Encode, Lower, IsDigit;
    EncodedBytes(nonce);
    LowerIsBytes(nonceHex, Encode(nonce));
    LowerIsBytes(outputHex, token);
    LowerTwice(outputHex);
  }

  lemma EvaluatedText<E(!new)>(c: Suite<E>, skS: int, nonce: seq<Byte>)
    requires Evaluate(c, skS, nonce).Some?
    requires forall b :: |c.hash(b)| == OUTPUT_BYTES
    ensures IsHexText(Evaluate(c, skS, nonce).value) && |Evaluate(c, skS, nonce).value| == 2 * OUTPUT_BYTES
  {
    var digest := FinalizeHash(c, nonce, c.toBytes(c.mul(c.hashToGroup(nonce), skS))).value;
    EncodedBytes(digest);
  }

  lemma LowerTwice(s: string)
    requires IsHexText(s)
    ensures IsHexText(Lower(s)) && Bytes(Lower(s)) == Bytes(s)
  {
    EncodeBytes(s);
    EncodedBytes(Bytes(s));
  }
}
