/** The OPRF of privacyPass.ts over an abstract group of prime order (section 3.3.1 of RFC 9497). */
module Oprf {
  import opened Hex
  import opened Modular
  import opened Optional

  const ELEMENT_BYTES := 49

  /**
   * The curve and the hashes the code imports: scalar multiplication, hash-to-curve, compressed
   * encoding of elements with its partial inverse, and SHA-384.
   */
  datatype Suite<!E(==)> = Suite(order: nat, identity: E, mul: (E, int) -> E, hashToGroup: seq<Byte> -> E,
                                 toBytes: E -> seq<Byte>, fromBytes: seq<Byte> -> Option<E>,
                                hash: seq<Byte> -> seq<Byte>)

  ghost predicate Composes<E>(c: Suite<E>, e: E, a: int, b: int)
    requires c.order > 0
  {
    c.mul(c.mul(e, a), b) == c.mul(e, (a * b) % c.order)
  }

  ghost predicate Reversible<E>(c: Suite<E>, e: E) {
    && |c.toBytes(e)| <= ELEMENT_BYTES
    && (e != c.identity ==> |c.toBytes(e)| == ELEMENT_BYTES && c.fromBytes(c.toBytes(e)) == Some(e))
  }

  /** What is assumed of them: scalars act modulo a prime order and encoding non-identity elements is reversible. */
  ghost predicate Lawful<E(!new)>(c: Suite<E>) {
    && Prime(c.order)
    && (forall e, a, b :: Composes(c, e, a, b))
    && (forall e :: c.mul(e, 1) == e)
    && (forall a :: c.mul(c.identity, a) == c.identity)
    && (forall e :: Reversible(c, e))
    && (c.fromBytes(c.toBytes(c.identity)) in {None, Some(c.identity)})
  }

  ghost predicate Scalar<E>(c: Suite<E>, s: int) { 0 < s < c.order }

  /** I2OSP(n, 2), for n that fits. */
  function I2osp2(n: nat): (r: seq<Byte>)
    requires n < 0x10000
    ensures |r| == 2
  {
    [n / 256, n % 256]
  }

  /** None where the two-byte length throws. */
  function FinalizeHash<E>(c: Suite<E>, input: seq<Byte>, element: seq<Byte>): Option<seq<Byte>> {
    if |input| >= 0x10000 || |element| >= 0x10000 then None else Some(c.hash(Preimage(input, element)))
  }

  function Preimage(input: seq<Byte>, element: seq<Byte>): seq<Byte>
    requires |input| < 0x10000 && |element| < 0x10000
  {
    var finalize: seq<Byte> := [70, 105, 110, 97, 108, 105, 122, 101];
    I2osp2(|input|) + input + I2osp2(|element|) + element + finalize
  }

  function Serialize<E>(c: Suite<E>, e: E): string { Encode(c.toBytes(e)) }

  /** Rejects bad hex, wrong length, points off the curve and the identity. */
  function Deserialize<E(==)>(c: Suite<E>, hex: string): Option<E> {
    match Decode(hex)
    case None => None
    case Some(bytes) =>
      if |bytes| != ELEMENT_BYTES then None
      else if c.fromBytes(bytes) == Some(c.identity) then None
      else c.fromBytes(bytes)
  }

  function Blind<E>(c: Suite<E>, input: seq<Byte>, scalar: int): Option<string> {
    if scalar <= 0 || scalar >= c.order then None
    else Some(Serialize(c, c.mul(c.hashToGroup(input), scalar)))
  }

  function BlindEvaluate<E(==)>(c: Suite<E>, skS: int, blinded: string): Option<string> {
    match Deserialize(c, blinded)
    case None => None
    case Some(e) => Some(Serialize(c, c.mul(e, skS)))
  }

  function Finalize<E(==)>(c: Suite<E>, input: seq<Byte>, blind: int, evaluated: string): Option<string>
    requires 0 < blind < c.order
  {
    match Deserialize(c, evaluated)
    case None => None
    case Some(e) => Hexed(FinalizeHash(c, input, c.toBytes(c.mul(e, Invert(blind, c.order)))))
  }

  function Hexed(b: Option<seq<Byte>>): Option<string> {
    match b
    case None => None
    case Some(bytes) => Some(Encode(bytes))
  }

  /** The server's direct evaluation at redemption. */
  function Evaluate<E>(c: Suite<E>, skS: int, input: seq<Byte>): Option<string> {
    Hexed(FinalizeHash(c, input, c.toBytes(c.mul(c.hashToGroup(input), skS))))
  }

  // ---------- correctness ----------

  lemma DeserializeSerialized<E(!new)>(c: Suite<E>, e: E)
    requires Lawful(c)
    ensures Deserialize(c, Serialize(c, e)) == if e == c.identity then None else Some(e)
  {
    DecodeEncode(c.toBytes(e));
    assert Reversible(c, e);
  }

  /** A non-zero scalar sends nothing but the identity to the identity. */
  lemma ScalarKeepsNonIdentity<E(!new)>(c: Suite<E>, e: E, s: int)
    requires Lawful(c) && Scalar(c, s)
    ensures c.mul(e, s) == c.identity <==> e == c.identity
  {
    InvertCorrect(s, c.order);
    hide Invert;
    var i := Invert(s, c.order);
    assert Composes(c, e, s, i);
    assert c.mul(e, 1) == e && c.mul(c.identity, i) == c.identity && c.mul(c.identity, s) == c.identity;
  }

  /** Unblinding undoes blinding under the key. */
  lemma UnblindEvaluated<E(!new)>(c: Suite<E>, e: E, r: int, s: int)
    requires Lawful(c) && Scalar(c, r) && Scalar(c, s)
    ensures c.mul(c.mul(c.mul(e, r), s), Invert(r, c.order)) == c.mul(e, s)
  {
    CancelInverse(s, r, c.order);
    hide Invert;
    var i := Invert(r, c.order);
    assert Composes(c, e, r, s);
    assert Composes(c, e, (r * s) % c.order, i);
  }

  /**
   * For every input, blind and key: the issuer answers exactly when the input does not hash to the identity,
   * and then finalizing the answer gives the server's own evaluation, or fails with it on an over-long input.
   */
  lemma OprfCorrect<E(!new)>(c: Suite<E>, input: seq<Byte>, blind: int, skS: int)
    requires Lawful(c) && Scalar(c, blind) && Scalar(c, skS)
    ensures Blind(c, input, blind).Some?
    ensures var answer := BlindEvaluate(c, skS, Blind(c, input, blind).value);
      && (answer.Some? <==> c.hashToGroup(input) != c.identity)
      && (answer.Some? ==> Finalize(c, input, blind, answer.value) == Evaluate(c, skS, input))
  {
    hide Lawful, Deserialize, Serialize, FinalizeHash, Invert;
    var h := c.hashToGroup(input);
    var blinded := c.mul(h, blind);
    ScalarKeepsNonIdentity(c, h, blind);
    DeserializeSerialized(c, blinded);
    if h != c.identity {
      var evaluated := c.mul(blinded, skS);
      ScalarKeepsNonIdentity(c, blinded, skS);
      DeserializeSerialized(c, evaluated);
      UnblindEvaluated(c, h, blind, skS);
    }
  }

  // ---------- what blinding hides ----------

  /** In a group of prime order every element but the identity is a multiple of every other one. */
  ghost predicate Cyclic<E(!new)>(c: Suite<E>) {
    forall e, f :: Reaches(c, e, f)
  }

  ghost predicate Reaches<E(!new)>(c: Suite<E>, e: E, f: E) {
    e != c.identity && f != c.identity ==> exists s :: Multiple(c, e, f, s)
  }

  ghost predicate Multiple<E>(c: Suite<E>, e: E, f: E, s: int) { Scalar(c, s) && c.mul(e, s) == f }

  /**
   * What the issuer sees says nothing about the input: for every other input that does not hash to the identity
   * there is a blind that would have given the same text.
   */
  lemma BlindHides<E(!new)>(c: Suite<E>, x: seq<Byte>, r: int, y: seq<Byte>) returns (s: int)
    requires Lawful(c) && Cyclic(c) && Scalar(c, r)
    requires c.hashToGroup(x) != c.identity && c.hashToGroup(y) != c.identity
    ensures Scalar(c, s) && Blind(c, x, r).Some? && Blind(c, y, s) == Blind(c, x, r)
  {
    ScalarKeepsNonIdentity(c, c.hashToGroup(x), r);
    hide Lawful;
    assert Reaches(c, c.hashToGroup(y), c.mul(c.hashToGroup(x), r));
    s :| Multiple(c, c.hashToGroup(y), c.mul(c.hashToGroup(x), r), s);
  }

  // ---------- what a token binds ----------

  lemma I2osp2Injective(m: nat, n: nat)
    requires m < 0x10000 && n < 0x10000 && I2osp2(m) == I2osp2(n)
    ensures m == n
  {
    assert I2osp2(m)[0] == I2osp2(n)[0] && I2osp2(m)[1] == I2osp2(n)[1];
  }

  /** The length prefixes keep input and element apart. */
  lemma PreimageInjective(x: seq<Byte>, e: seq<Byte>, x': seq<Byte>, e': seq<Byte>)
    requires |x| < 0x10000 && |e| < 0x10000 && |x'| < 0x10000 && |e'| < 0x10000
    requires Preimage(x, e) == Preimage(x', e')
    ensures x == x' && e == e'
  {
    hide I2osp2;
    var u, v := Preimage(x, e), Preimage(x', e');
    assert I2osp2(|x|) == u[..2] == v[..2] == I2osp2(|x'|);
    I2osp2Injective(|x|, |x'|);
    assert x == u[2..2 + |x|] && x' == v[2..2 + |x|];
    assert I2osp2(|e|) == u[2 + |x|..4 + |x|] == v[2 + |x|..4 + |x|] == I2osp2(|e'|);
    I2osp2Injective(|e|, |e'|);
    assert e == u[4 + |x|..4 + |x| + |e|] && e' == v[4 + |x|..4 + |x| + |e|];
  }

  /** With a hash that has no collisions, a token text determines its input and the element the key made of it. */
  lemma TokenDetermines<E(!new)>(c: Suite<E>, skS: int, x: seq<Byte>, skS': int, x': seq<Byte>)
    requires Lawful(c) && forall b, b' :: c.hash(b) == c.hash(b') ==> b == b'
    requires Evaluate(c, skS, x).Some? && Evaluate(c, skS, x) == Evaluate(c, skS', x')
    ensures x == x'
    ensures var e, e' := c.mul(c.hashToGroup(x), skS), c.mul(c.hashToGroup(x'), skS');
      c.toBytes(e) == c.toBytes(e') && (e != c.identity && e' != c.identity ==> e == e')
  {
    var e, e' := c.mul(c.hashToGroup(x), skS), c.mul(c.hashToGroup(x'), skS');
    assert Reversible(c, e) && Reversible(c, e');
    EncodedBytes(c.hash(Preimage(x, c.toBytes(e))));
    EncodedBytes(c.hash(Preimage(x', c.toBytes(e'))));
    hide Lawful, Preimage;
    PreimageInjective(x, c.toBytes(e), x', c.toBytes(e'));
  }
}
