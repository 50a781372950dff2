/**
 * The wire form of a ClientHello (section 4.1.2 of RFC 8446, extensions as in section 4.2),
 * and the proof that the parser inverts it.
 */
module TlsEncoding {
  import opened Hex
  import opened Optional
  import opened Tls

  datatype Extension =
    | ServerName(data: Buffer)
    | SupportedVersions(versions: seq<Word>)
    | Alpn(protocols: seq<Buffer>)
    | SignatureAlgorithms(algs: seq<Word>)
    | Other(typ: Word, data: Buffer)

  datatype ClientHello = ClientHello(legacyVersion: Word, random: Buffer, sessionId: Buffer, ciphers: seq<Word>,
                                     compression: Buffer, extensions: Option<seq<Extension>>)

  // ---------- encoding ----------

  function U16Bytes(v: Word): (b: Buffer)
    ensures |b| == 2
  {
    [v / 256, v % 256]
  }

  function U16List(s: seq<Word>): (b: Buffer)
    ensures |b| == 2 * |s|
  {
    if s == [] then [] else U16Bytes(s[0]) + U16List(s[1..])
  }

  function ProtocolList(ps: seq<Buffer>): Buffer
    requires forall i | 0 <= i < |ps| :: |ps[i]| < 256
  {
    if ps == [] then [] else [|ps[0]|] + ps[0] + ProtocolList(ps[1..])
  }

  function TypeOf(e: Extension): Word {
    match e
    case ServerName(_) => 0x0000
    case SupportedVersions(_) => 0x002b
    case Alpn(_) => 0x0010
    case SignatureAlgorithms(_) => 0x000d
    case Other(typ, _) => typ
  }

  ghost predicate Encodable(e: Extension) {
    match e
    case ServerName(data) => |data| < 0x10000
    case SupportedVersions(versions) => 2 * |versions| < 256
    case Alpn(ps) => (forall i | 0 <= i < |ps| :: |ps[i]| < 256) && 2 + |ProtocolList(ps)| < 0x10000
    case SignatureAlgorithms(algs) => 2 + 2 * |algs| < 0x10000
    case Other(typ, data) => typ !in {0x0000, 0x002b, 0x0010, 0x000d} && |data| < 0x10000
  }

  ghost function Body(e: Extension): (b: Buffer)
    requires Encodable(e)
    ensures |b| < 0x10000
  {
    match e
    case ServerName(data) => data
    case SupportedVersions(versions) => [2 * |versions|] + U16List(versions)
    case Alpn(ps) => U16Bytes(|ProtocolList(ps)|) + ProtocolList(ps)
    case SignatureAlgorithms(algs) => U16Bytes(2 * |algs|) + U16List(algs)
    case Other(_, data) => data
  }

  ghost function ExtensionBytes(e: Extension): (b: Buffer)
    requires Encodable(e)
  {
    U16Bytes(TypeOf(e)) + U16Bytes(|Body(e)|) + Body(e)
  }

  ghost predicate AllEncodable(es: seq<Extension>) { forall i | 0 <= i < |es| :: Encodable(es[i]) }

  ghost function ExtensionList(es: seq<Extension>): Buffer
    requires AllEncodable(es)
  {
    if es == [] then [] else ExtensionBytes(es[0]) + ExtensionList(es[1..])
  }

  /** Every length fits its field; nothing else is asked of the message. */
  ghost predicate WellFormed(ch: ClientHello) {
    && |ch.random| == 32 && |ch.sessionId| < 256
    && 2 * |ch.ciphers| < 0x10000
    && |ch.compression| < 256
    && (ch.extensions.Some? ==> AllEncodable(ch.extensions.value) && |ExtensionList(ch.extensions.value)| < 0x10000)
  }

  ghost function TailBytes(ch: ClientHello): (b: Buffer)
    requires WellFormed(ch)
    ensures ch.extensions.None? ==> b == []
  {
    match ch.extensions
    case None => []
    case Some(es) => U16Bytes(|ExtensionList(es)|) + ExtensionList(es)
  }

  function Prefixed(b: Buffer): Buffer
    requires |b| < 256
  {
    [|b|] + b
  }

  function CipherBytes(s: seq<Word>): Buffer
    requires 2 * |s| < 0x10000
  {
    U16Bytes(2 * |s|) + U16List(s)
  }

  ghost function BodyBytes(ch: ClientHello): Buffer
    requires WellFormed(ch)
  {
    Prefixed(ch.sessionId) + (CipherBytes(ch.ciphers) + (Prefixed(ch.compression) + TailBytes(ch)))
  }

  /** The handshake message; its three length bytes are free because the parser does not read them. */
  ghost function Handshake(ch: ClientHello, length: Buffer): Buffer
    requires WellFormed(ch) && |length| == 3
  {
    [0x01] + length + U16Bytes(ch.legacyVersion) + ch.random + BodyBytes(ch)
  }

  // ---------- what the parser should report ----------

  /** Highest offered version that is neither GREASE nor above TLS 1.3, 0 if there is none. */
  function Best(best: Word, versions: seq<Word>): Word
    decreases |versions|
  {
    if versions == [] then best else Best(Better(best, versions[0]), versions[1..])
  }

  function Protocols(ps: seq<Buffer>): seq<string> {
    if ps == [] then [] else [Ascii(ps[0])] + Protocols(ps[1..])
  }

  function Offer(info: Info, e: Extension): Info {
    var seen := info.(extensions := info.extensions + [TypeOf(e)]);
    match e
    case ServerName(_) => seen.(sni := true)
    case SupportedVersions(versions) => if Best(0, versions) != 0 then seen.(tlsVersion := Best(0, versions)) else seen
    case Alpn(ps) => seen.(alpn := seen.alpn + Protocols(ps))
    case SignatureAlgorithms(algs) => seen.(sigAlgs := seen.sigAlgs + algs)
    case Other(_, _) => seen
  }

  function OfferAll(info: Info, es: seq<Extension>): Info
    decreases |es|
  {
    if es == [] then info else OfferAll(Offer(info, es[0]), es[1..])
  }

  // ---------- reading encoded pieces out of a buffer ----------

  ghost predicate At(buf: Buffer, p: nat, bytes: Buffer) {
    p + |bytes| <= |buf| && buf[p..p + |bytes|] == bytes
  }

  lemma AtConcat(buf: Buffer, p: nat, a: Buffer, b: Buffer)
    requires At(buf, p, a + b)
    ensures At(buf, p, a) && At(buf, p + |a|, b)
  {
    var ab := a + b;
    assert buf[p..p + |a|] == ab[..|a|] == a;
    assert buf[p + |a|..p + |a| + |b|] == ab[|a|..] == b;
  }

  lemma AtByte(buf: Buffer, p: nat, x: Byte)
    requires At(buf, p, [x])
    ensures p < |buf| && buf[p] == x
  {
    assert buf[p..p + 1][0] == x;
  }

  lemma AtU16(buf: Buffer, p: nat, v: Word)
    requires At(buf, p, U16Bytes(v))
    ensures p + 1 < |buf| && U16(buf, p) == v
  {
    var b := buf[p..p + 2];
    assert b[0] == buf[p] && b[1] == buf[p + 1];
  }

  lemma {:induction false} ReadCipherList(buf: Buffer, p: nat, i: nat, s: seq<Word>)
    requires At(buf, p, U16List(s))
    ensures CipherLoop(buf, p, i, i + 2 * |s|) == (s, p + 2 * |s|)
    decreases |s|
  {
    if s != [] {
      AtConcat(buf, p, U16Bytes(s[0]), U16List(s[1..]));
      AtU16(buf, p, s[0]);
      ReadCipherList(buf, p + 2, i + 2, s[1..]);
      assert s == [s[0]] + s[1..];
    }
  }

  lemma {:induction false} ReadVersionList(buf: Buffer, body: nat, bodyEnd: nat, i: nat, best: Word, s: seq<Word>)
    requires At(buf, body + 1 + i, U16List(s)) && bodyEnd == body + 1 + i + 2 * |s|
    ensures VersionLoop(buf, body, bodyEnd, i + 2 * |s|, i, best) == Some(Best(best, s))
    decreases |s|
  {
    if s != [] {
      AtConcat(buf, body + 1 + i, U16Bytes(s[0]), U16List(s[1..]));
      AtU16(buf, body + 1 + i, s[0]);
      ReadVersionList(buf, body, bodyEnd, i + 2, Better(best, s[0]), s[1..]);
    }
  }

  /** One protocol name at the cursor. */
  lemma ReadProtocol(buf: Buffer, q: nat, name: Buffer, bodyEnd: nat)
    requires |name| < 256 && At(buf, q, [|name|] + name) && q + 1 + |name| <= bodyEnd <= |buf|
    ensures AlpnLoop(buf, q, bodyEnd) == [Ascii(name)] + AlpnLoop(buf, q + 1 + |name|, bodyEnd)
  {
    hide Ascii;
    AtConcat(buf, q, [|name|], name);
    AtByte(buf, q, |name|);
  }

  lemma ProtocolFirst(ps: seq<Buffer>)
    requires ps != [] && forall i | 0 <= i < |ps| :: |ps[i]| < 256
    ensures ProtocolList(ps) == ([|ps[0]|] + ps[0]) + ProtocolList(ps[1..])
    ensures Protocols(ps) == [Ascii(ps[0])] + Protocols(ps[1..])
  {
    hide Ascii;
  }

  lemma NoProtocols(buf: Buffer, q: nat, ps: seq<Buffer>)
    requires ps == [] && q <= |buf|
    ensures ProtocolList(ps) == [] && AlpnLoop(buf, q, q) == [] == Protocols(ps)
  {
  }

  lemma AtWithin(buf: Buffer, p: nat, bytes: Buffer)
    requires At(buf, p, bytes)
    ensures p + |bytes| <= |buf|
  {
  }

  lemma {:induction false} ReadProtocolList(buf: Buffer, q: nat, ps: seq<Buffer>)
    requires forall i | 0 <= i < |ps| :: |ps[i]| < 256
    requires At(buf, q, ProtocolList(ps))
    ensures q + |ProtocolList(ps)| <= |buf|
    ensures AlpnLoop(buf, q, q + |ProtocolList(ps)|) == Protocols(ps)
    decreases |ps|
  {
    hide AlpnLoop, At, ProtocolList, Protocols, Ascii;
    AtWithin(buf, q, ProtocolList(ps));
    if ps == [] {
      NoProtocols(buf, q, ps);
    } else {
      var first, rest := [|ps[0]|] + ps[0], ProtocolList(ps[1..]);
      ProtocolFirst(ps);
      AtConcat(buf, q, first, rest);
      ReadProtocol(buf, q, ps[0], q + |first| + |rest|);
      ReadProtocolList(buf, q + |first|, ps[1..]);
    }
  }

  lemma {:induction false} ReadSigAlgList(buf: Buffer, q: nat, s: seq<Word>)
    requires At(buf, q, U16List(s))
    ensures SigAlgLoop(buf, q, q + 2 * |s|) == s
    decreases |s|
  {
    if s != [] {
      AtConcat(buf, q, U16Bytes(s[0]), U16List(s[1..]));
      AtU16(buf, q, s[0]);
      ReadSigAlgList(buf, q + 2, s[1..]);
      assert s == [s[0]] + s[1..];
    }
  }

  lemma ReadVersionsBody(buf: Buffer, body: nat, versions: seq<Word>, info: Info)
    requires Encodable(SupportedVersions(versions)) && At(buf, body, Body(SupportedVersions(versions)))
    ensures body + |Body(SupportedVersions(versions))| <= |buf|
    ensures ParseExtension(buf, 0x002b, body, body + |Body(SupportedVersions(versions))|, info)
         == Some(Offer(info, SupportedVersions(versions)))
  {
    BodyWithin(buf, body, SupportedVersions(versions));
    hide U16List, VersionLoop, Best, At;
    AtConcat(buf, body, [2 * |versions|], U16List(versions));
    AtByte(buf, body, 2 * |versions|);
    ReadVersionList(buf, body, body + 1 + 2 * |versions|, 0, 0, versions);
  }

  lemma ReadAlpnBody(buf: Buffer, body: nat, ps: seq<Buffer>, info: Info)
    requires Encodable(Alpn(ps)) && At(buf, body, Body(Alpn(ps)))
    ensures body + |Body(Alpn(ps))| <= |buf|
    ensures ParseExtension(buf, 0x0010, body, body + |Body(Alpn(ps))|, info) == Some(Offer(info, Alpn(ps)))
  {
    BodyWithin(buf, body, Alpn(ps));
    hide ProtocolList, AlpnLoop, At, Protocols;
    AtConcat(buf, body, U16Bytes(|ProtocolList(ps)|), ProtocolList(ps));
    ReadProtocolList(buf, body + 2, ps);
  }

  lemma ReadSigAlgsBody(buf: Buffer, body: nat, algs: seq<Word>, info: Info)
    requires Encodable(SignatureAlgorithms(algs)) && At(buf, body, Body(SignatureAlgorithms(algs)))
    ensures body + |Body(SignatureAlgorithms(algs))| <= |buf|
    ensures ParseExtension(buf, 0x000d, body, body + |Body(SignatureAlgorithms(algs))|, info)
         == Some(Offer(info, SignatureAlgorithms(algs)))
  {
    BodyWithin(buf, body, SignatureAlgorithms(algs));
    hide U16List, SigAlgLoop, At;
    AtConcat(buf, body, U16Bytes(2 * |algs|), U16List(algs));
    ReadSigAlgList(buf, body + 2, algs);
  }

  lemma BodyWithin(buf: Buffer, body: nat, e: Extension)
    requires Encodable(e) && At(buf, body, Body(e))
    ensures body + |Body(e)| <= |buf|
  {
  }

  lemma ReadPlainBody(buf: Buffer, body: nat, e: Extension, info: Info)
    requires Encodable(e) && At(buf, body, Body(e)) && (e.ServerName? || e.Other?)
    ensures body + |Body(e)| <= |buf|
    ensures ParseExtension(buf, TypeOf(e), body, body + |Body(e)|, info) == Some(Offer(info, e))
  {
    BodyWithin(buf, body, e);
    hide Body, VersionLoop, AlpnLoop, SigAlgLoop, Best, Protocols, At;
  }

  /** One encoded extension is read as that extension. */
  lemma ReadExtensionBody(buf: Buffer, body: nat, e: Extension, info: Info)
    requires Encodable(e) && At(buf, body, Body(e))
    ensures body + |Body(e)| <= |buf|
    ensures ParseExtension(buf, TypeOf(e), body, body + |Body(e)|, info) == Some(Offer(info, e))
  {
    hide ParseExtension, Offer, Body, At, Encodable;
    match e
    case SupportedVersions(versions) => ReadVersionsBody(buf, body, versions, info);
    case Alpn(ps) => ReadAlpnBody(buf, body, ps, info);
    case SignatureAlgorithms(algs) => ReadSigAlgsBody(buf, body, algs, info);
    case _ => ReadPlainBody(buf, body, e, info);
  }

  lemma ReadExtensionHeader(buf: Buffer, p: nat, e: Extension)
    requires Encodable(e) && At(buf, p, ExtensionBytes(e))
    ensures p + 4 + |Body(e)| <= |buf|
    ensures U16(buf, p) == TypeOf(e) && U16(buf, p + 2) == |Body(e)| && At(buf, p + 4, Body(e))
  {
    hide Body;
    AtConcat(buf, p, U16Bytes(TypeOf(e)) + U16Bytes(|Body(e)|), Body(e));
    AtConcat(buf, p, U16Bytes(TypeOf(e)), U16Bytes(|Body(e)|));
    AtU16(buf, p, TypeOf(e));
    AtU16(buf, p + 2, |Body(e)|);
  }

  lemma ReadExtension(buf: Buffer, p: nat, extEnd: nat, e: Extension, info: Info)
    requires Encodable(e) && At(buf, p, ExtensionBytes(e)) && p + |ExtensionBytes(e)| <= extEnd <= |buf|
    ensures ExtensionLoop(buf, p, extEnd, info) == ExtensionLoop(buf, p + |ExtensionBytes(e)|, extEnd, Offer(info, e))
  {
    hide ParseExtension, Offer, Body, TypeOf, At;
    ReadExtensionHeader(buf, p, e);
    ReadExtensionBody(buf, p + 4, e, info);
  }

  lemma {:induction false} ReadExtensionList(buf: Buffer, p: nat, es: seq<Extension>, info: Info)
    requires AllEncodable(es) && At(buf, p, ExtensionList(es))
    ensures ExtensionLoop(buf, p, p + |ExtensionList(es)|, info) == Some(OfferAll(info, es))
    decreases |es|
  {
    hide ParseExtension, Offer, ExtensionBytes;
    if es != [] {
      var first, rest := ExtensionBytes(es[0]), ExtensionList(es[1..]);
      AtConcat(buf, p, first, rest);
      ReadExtension(buf, p, p + |first| + |rest|, es[0], info);
      ReadExtensionList(buf, p + |first|, es[1..], Offer(info, es[0]));
    }
  }

  // ---------- the round trip ----------

  /** What the parser reports for a message. */
  function InfoOf(ch: ClientHello): Info {
    OfferAll(Info(ch.legacyVersion, false, ch.ciphers, [], [], []),
             if ch.extensions.Some? then ch.extensions.value else [])
  }

  lemma ReadExtensionBlock(buf: Buffer, p: nat, es: seq<Extension>, info: Info)
    requires AllEncodable(es) && |ExtensionList(es)| < 0x10000
    requires At(buf, p, U16Bytes(|ExtensionList(es)|) + ExtensionList(es))
    ensures ParseTail(buf, p, info) == Some(OfferAll(info, es))
  {
    hide ExtensionList, ExtensionLoop, OfferAll, At, U16, U16Bytes, AllEncodable;
    AtConcat(buf, p, U16Bytes(|ExtensionList(es)|), ExtensionList(es));
    AtU16(buf, p, |ExtensionList(es)|);
    AtWithin(buf, p + 2, ExtensionList(es));
    ReadExtensionList(buf, p + 2, es, info);
  }

  lemma NoExtensionBlock(buf: Buffer, p: nat, info: Info)
    requires |buf| <= p + 1
    ensures ParseTail(buf, p, info) == Some(OfferAll(info, []))
  {
  }

  lemma ReadTail(buf: Buffer, p: nat, ch: ClientHello, info: Info)
    requires WellFormed(ch) && At(buf, p, TailBytes(ch))
    requires ch.extensions.None? ==> |buf| <= p + 1
    ensures ParseTail(buf, p, info) == Some(OfferAll(info, if ch.extensions.Some? then ch.extensions.value else []))
  {
    hide ExtensionList, ParseTail, OfferAll, At, AllEncodable;
    if ch.extensions.Some? {
      ReadExtensionBlock(buf, p, ch.extensions.value, info);
    } else {
      NoExtensionBlock(buf, p, info);
    }
  }

  lemma ReadPrefixed(buf: Buffer, p: nat, b: Buffer)
    requires |b| < 256 && At(buf, p, Prefixed(b))
    ensures p + 1 + |b| <= |buf| && buf[p] == |b|
  {
    AtConcat(buf, p, [|b|], b);
    AtByte(buf, p, |b|);
  }

  lemma ReadCipherSuites(buf: Buffer, p: nat, s: seq<Word>)
    requires 2 * |s| < 0x10000 && At(buf, p, CipherBytes(s))
    ensures p + 2 <= |buf| && CipherLoop(buf, p + 2, 0, U16(buf, p)) == (s, p + |CipherBytes(s)|)
  {
    AtConcat(buf, p, U16Bytes(2 * |s|), U16List(s));
    AtU16(buf, p, 2 * |s|);
    ReadCipherList(buf, p + 2, 0, s);
  }

  lemma PrefixedLength(b: Buffer)
    requires |b| < 256
    ensures |Prefixed(b)| == 1 + |b|
  {
  }

  lemma ReadCompression(buf: Buffer, p: nat, ch: ClientHello, info: Info)
    requires WellFormed(ch) && At(buf, p, Prefixed(ch.compression) + TailBytes(ch))
    requires ch.extensions.None? ==> |buf| <= p + |Prefixed(ch.compression)| + 1
    ensures ParseCompression(buf, p, info)
         == Some(OfferAll(info, if ch.extensions.Some? then ch.extensions.value else []))
  {
    hide TailBytes, OfferAll, ParseTail, At;
    AtConcat(buf, p, Prefixed(ch.compression), TailBytes(ch));
    ReadPrefixed(buf, p, ch.compression);
    ReadTail(buf, p + 1 + |ch.compression|, ch, info);
  }

  lemma ReadCipherPart(buf: Buffer, p: nat, ch: ClientHello)
    requires WellFormed(ch) && At(buf, p, CipherBytes(ch.ciphers) + (Prefixed(ch.compression) + TailBytes(ch)))
    requires ch.extensions.None? ==> |buf| <= p + |CipherBytes(ch.ciphers)| + |Prefixed(ch.compression)| + 1
    ensures ParseCiphers(buf, p, ch.legacyVersion) == Some(InfoOf(ch))
  {
    hide TailBytes, OfferAll, ParseCompression, CipherBytes, CipherLoop, Prefixed, At;
    var c, rest := CipherBytes(ch.ciphers), Prefixed(ch.compression) + TailBytes(ch);
    AtConcat(buf, p, c, rest);
    ReadCipherSuites(buf, p, ch.ciphers);
    ReadCompression(buf, p + |c|, ch, Info(ch.legacyVersion, false, ch.ciphers, [], [], []));
  }

  lemma ReadBody(buf: Buffer, p: nat, ch: ClientHello)
    requires WellFormed(ch) && At(buf, p, BodyBytes(ch))
    requires ch.extensions.None? ==> |buf| <= p + |BodyBytes(ch)| + 1
    ensures ParseBody(buf, p, ch.legacyVersion) == Some(InfoOf(ch))
  {
    hide TailBytes, InfoOf, ParseCiphers, CipherBytes, At, Prefixed;
    var s, rest := Prefixed(ch.sessionId), CipherBytes(ch.ciphers) + (Prefixed(ch.compression) + TailBytes(ch));
    AtConcat(buf, p, s, rest);
    ReadPrefixed(buf, p, ch.sessionId);
    PrefixedLength(ch.sessionId);
    PrefixedLength(ch.compression);
    ReadCipherPart(buf, p + |s|, ch);
  }

  /**
   * The parser inverts the encoding wherever a handshake starts: bytes after an extension block are ignored,
   * and without one at most a single byte may follow.
   */
  lemma ParseInvertsEncoding(buf: Buffer, p: nat, ch: ClientHello, length: Buffer)
    requires WellFormed(ch) && |length| == 3
    requires HandshakeStart(buf) == Some(p) && At(buf, p, Handshake(ch, length))
    requires ch.extensions.None? ==> |buf| <= p + |Handshake(ch, length)| + 1
    ensures Parse(buf) == Some(InfoOf(ch))
  {
    hide BodyBytes, ParseBody, InfoOf, HandshakeStart;
    var a := [0x01] + length;
    var b := a + U16Bytes(ch.legacyVersion);
    AtConcat(buf, p, b + ch.random, BodyBytes(ch));
    AtConcat(buf, p, b, ch.random);
    AtConcat(buf, p, a, U16Bytes(ch.legacyVersion));
    AtConcat(buf, p, [0x01], length);
    AtByte(buf, p, 0x01);
    AtU16(buf, p + 4, ch.legacyVersion);
    ReadBody(buf, p + 38, ch);
  }

  lemma AtAfter(header: Buffer, body: Buffer)
    ensures At(header + body, |header|, body)
  {
  }

  /** The bare handshake message and the same message in one TLS record parse to the same report. */
  lemma ParseRoundTrip(ch: ClientHello, length: Buffer, header: Buffer)
    requires WellFormed(ch) && |length| == 3
    requires |header| == 5 && header[0] == 0x16
    ensures Parse(Handshake(ch, length)) == Some(InfoOf(ch))
    ensures Parse(header + Handshake(ch, length)) == Some(InfoOf(ch))
  {
    hide Parse, InfoOf;
    var message := Handshake(ch, length);
    assert [] + message == message;
    AtAfter([], message);
    ParseInvertsEncoding(message, 0, ch, length);
    AtAfter(header, message);
    ParseInvertsEncoding(header + message, 5, ch, length);
  }

  // ---------- the report in declarative terms ----------

  ghost predicate Eligible(v: Word) { !IsGrease(v) && 0 < v <= 0x0304 }

  /** Best is the greatest eligible version offered, or the starting value when nothing beats it. */
  lemma {:induction false} BestIsHighest(best: Word, versions: seq<Word>)
    ensures Best(best, versions) == best || (Best(best, versions) in versions && Eligible(Best(best, versions)))
    ensures best <= Best(best, versions)
    ensures forall v | v in versions && Eligible(v) :: v <= Best(best, versions)
    decreases |versions|
  {
    if versions != [] { BestIsHighest(Better(best, versions[0]), versions[1..]); }
  }

  function Types(es: seq<Extension>): seq<Word> {
    seq(|es|, i requires 0 <= i < |es| => TypeOf(es[i]))
  }

  function AllProtocols(es: seq<Extension>): seq<string> {
    if es == [] then []
    else (if es[0].Alpn? then Protocols(es[0].protocols) else []) + AllProtocols(es[1..])
  }

  function AllSigAlgs(es: seq<Extension>): seq<Word> {
    if es == [] then []
    else (if es[0].SignatureAlgorithms? then es[0].algs else []) + AllSigAlgs(es[1..])
  }

  lemma {:induction false} OfferAllTypes(info: Info, es: seq<Extension>)
    ensures OfferAll(info, es).ciphers == info.ciphers
    ensures OfferAll(info, es).extensions == info.extensions + Types(es)
    decreases |es|
  {
    hide Best, Protocols;
    if es != [] {
      OfferAllTypes(Offer(info, es[0]), es[1..]);
      assert Types(es) == [TypeOf(es[0])] + Types(es[1..]);
    }
  }

  lemma {:induction false} OfferAllLists(info: Info, es: seq<Extension>)
    ensures OfferAll(info, es).alpn == info.alpn + AllProtocols(es)
    ensures OfferAll(info, es).sigAlgs == info.sigAlgs + AllSigAlgs(es)
    decreases |es|
  {
    hide Best, Protocols, TypeOf;
    if es != [] { OfferAllLists(Offer(info, es[0]), es[1..]); }
  }

  lemma {:induction false} OfferAllFlags(info: Info, es: seq<Extension>)
    ensures OfferAll(info, es).sni <==> info.sni || exists i | 0 <= i < |es| :: es[i].ServerName?
    ensures (forall i | 0 <= i < |es| :: !es[i].SupportedVersions?) ==> OfferAll(info, es).tlsVersion == info.tlsVersion
    decreases |es|
  {
    hide Best, Protocols, TypeOf;
    if es != [] {
      OfferAllFlags(Offer(info, es[0]), es[1..]);
      assert forall i | 1 <= i < |es| :: es[i] == es[1..][i - 1];
    }
  }

  lemma {:induction false} OfferAllVersion(info: Info, es: seq<Extension>, k: nat)
    requires k < |es| && es[k].SupportedVersions?
    requires forall i | 0 <= i < |es| && i != k :: !es[i].SupportedVersions?
    ensures OfferAll(info, es).tlsVersion
         == if Best(0, es[k].versions) != 0 then Best(0, es[k].versions) else info.tlsVersion
    decreases |es|
  {
    hide Best;
    if k == 0 {
      OfferAllFlags(Offer(info, es[0]), es[1..]);
    } else {
      OfferAllVersion(Offer(info, es[0]), es[1..], k - 1);
    }
  }

  /**
   * The report names exactly the encoded ciphers, extension types, protocols and signature algorithms, in wire
   * order; the SNI flag tells whether a server_name extension is there.
   */
  lemma InfoFields(ch: ClientHello)
    ensures var es := if ch.extensions.Some? then ch.extensions.value else [];
      && InfoOf(ch).ciphers == ch.ciphers
      && InfoOf(ch).extensions == Types(es)
      && InfoOf(ch).alpn == AllProtocols(es)
      && InfoOf(ch).sigAlgs == AllSigAlgs(es)
      && (InfoOf(ch).sni <==> exists i | 0 <= i < |es| :: es[i].ServerName?)
  {
    hide OfferAll;
    var es := if ch.extensions.Some? then ch.extensions.value else [];
    var start := Info(ch.legacyVersion, false, ch.ciphers, [], [], []);
    OfferAllTypes(start, es);
    OfferAllLists(start, es);
    OfferAllFlags(start, es);
  }

  /**
   * The version: with at most one supported_versions extension, the highest version offered there that is neither
   * GREASE nor above TLS 1.3, and the legacy version when there is no such offer.
   */
  lemma InfoVersion(ch: ClientHello, k: nat)
    requires ch.extensions.Some? && k < |ch.extensions.value| && ch.extensions.value[k].SupportedVersions?
    requires forall i | 0 <= i < |ch.extensions.value| && i != k :: !ch.extensions.value[i].SupportedVersions?
    ensures var versions := ch.extensions.value[k].versions;
      var v := InfoOf(ch).tlsVersion;
      if exists w | w in versions :: Eligible(w)
      then v in versions && Eligible(v) && forall w | w in versions && Eligible(w) :: w <= v
      else v == ch.legacyVersion
  {
    hide OfferAll, Best;
    var versions := ch.extensions.value[k].versions;
    OfferAllVersion(Info(ch.legacyVersion, false, ch.ciphers, [], [], []), ch.extensions.value, k);
    BestIsHighest(0, versions);
  }

  /** A protocol name of seven-bit bytes is reported as written; of other bytes the top bit is lost. */
  lemma ProtocolText(ps: seq<Buffer>, k: nat, i: nat)
    requires k < |ps| && i < |ps[k]|
    ensures |Protocols(ps)| == |ps| && |Protocols(ps)[k]| == |ps[k]|
    ensures Protocols(ps)[k][i] as int == if ps[k][i] < 128 then ps[k][i] else ps[k][i] - 128
  {
    ProtocolAt(ps, k);
  }

  lemma {:induction false} ProtocolAt(ps: seq<Buffer>, k: nat)
    requires k < |ps|
    ensures |Protocols(ps)| == |ps| && Protocols(ps)[k] == Ascii(ps[k])
  {
    if k > 0 {
      ProtocolAt(ps[1..], k - 1);
    } else {
      ProtocolCount(ps);
    }
  }

  lemma {:induction false} ProtocolCount(ps: seq<Buffer>)
    ensures |Protocols(ps)| == |ps|
  {
    if ps != [] { ProtocolCount(ps[1..]); }
  }

  lemma InfoLegacyVersion(ch: ClientHello)
    requires ch.extensions.Some? ==>
      forall i | 0 <= i < |ch.extensions.value| :: !ch.extensions.value[i].SupportedVersions?
    ensures InfoOf(ch).tlsVersion == ch.legacyVersion
  {
    hide OfferAll;
    var es := if ch.extensions.Some? then ch.extensions.value else [];
    OfferAllFlags(Info(ch.legacyVersion, false, ch.ciphers, [], [], []), es);
  }
}
