/** From bytes to fingerprint: rearranged or greased ClientHello messages have one JA4. */
module Ja4Wire {
  import opened Filtering
  import opened Ja4
  import opened Optional
  import opened Sorting
  import opened Tls
  import opened TlsEncoding

  /** The bytes of a message, bare or in one record. */
  ghost predicate Carries(buf: Buffer, ch: ClientHello) {
    WellFormed(ch) && exists length: Buffer, header: Buffer | |length| == 3 :: Framed(buf, ch, length, header)
  }

  ghost predicate Framed(buf: Buffer, ch: ClientHello, length: Buffer, header: Buffer)
    requires WellFormed(ch) && |length| == 3
  {
    buf == Handshake(ch, length) || (|header| == 5 && header[0] == 0x16 && buf == header + Handshake(ch, length))
  }

  lemma CarriesParse(buf: Buffer, ch: ClientHello)
    requires Carries(buf, ch)
    ensures Parse(buf) == Some(InfoOf(ch))
  {
    hide Parse, InfoOf, Handshake;
    var length: Buffer, header: Buffer :| |length| == 3 && Framed(buf, ch, length, header);
    if buf == Handshake(ch, length) {
      ParseRoundTrip(ch, length, [0x16, 3, 1, 0, 0]);
    } else {
      ParseRoundTrip(ch, length, header);
    }
  }

  function ExtensionsOf(ch: ClientHello): seq<Extension> {
    if ch.extensions.Some? then ch.extensions.value else []
  }

  /** No extension type occurs twice. */
  ghost predicate DistinctTypes(es: seq<Extension>) { forall v :: multiset(Types(es))[v] <= 1 }

  /** A message that offers TLS 1.3 is shown as such, and else as the highest version it offers. */
  lemma ShowsHighestVersion(buf: Buffer, ch: ClientHello, k: nat, transport: char, sha12: string -> string)
    requires Carries(buf, ch) && k < |ExtensionsOf(ch)| && ExtensionsOf(ch)[k].SupportedVersions?
    requires forall i | 0 <= i < |ExtensionsOf(ch)| && i != k :: !ExtensionsOf(ch)[i].SupportedVersions?
    ensures Parse(buf).Some?
    ensures var u, offered := ComputeJA4(Parse(buf).value, transport, sha12), ExtensionsOf(ch)[k].versions;
      && |u| >= 10
      && (0x0304 in offered ==> u[1..3] == "13")
      && (0x0304 !in offered && 0x0303 in offered ==> u[1..3] == "12")
      && (0x0304 !in offered && 0x0303 !in offered && 0x0302 in offered ==> u[1..3] == "11")
      && (0x0304 !in offered && 0x0303 !in offered && 0x0302 !in offered && 0x0301 in offered ==> u[1..3] == "10")
  {
    hide Parse, InfoOf, Carries, ComputeJA4, Eligible, VersionLabel;
    CarriesParse(buf, ch);
    InfoVersion(ch, k);
    ShowsVersion(InfoOf(ch), transport, sha12);
    LabelOf(InfoOf(ch).tlsVersion);
    HighestOffered(ExtensionsOf(ch)[k].versions, InfoOf(ch).tlsVersion);
  }

  lemma ShowsVersion(info: Info, transport: char, sha12: string -> string)
    ensures |ComputeJA4(info, transport, sha12)| >= 10
    ensures ComputeJA4(info, transport, sha12)[1..3] == VersionLabel(info.tlsVersion)
  {
    hide PartA, VersionLabel, CipherText, TextC;
    PartASlices(info, transport);
    FrontSlice(PartA(info, transport), "_" + sha12(CipherText(info)) + "_" + sha12(TextC(info)));
    var front := PartA(info, transport);
    assert ComputeJA4(info, transport, sha12) == front + ("_" + sha12(CipherText(info)) + "_" + sha12(TextC(info)));
  }

  lemma FrontSlice(front: string, rest: string)
    requires |front| >= 3
    ensures (front + rest)[1..3] == front[1..3]
  {
  }

  lemma HighestOffered(offered: seq<Word>, v: Word)
    requires (exists w | w in offered :: Eligible(w)) ==>
      v in offered && Eligible(v) && forall w | w in offered && Eligible(w) :: w <= v
    ensures 0x0304 in offered ==> v == 0x0304
    ensures 0x0304 !in offered && 0x0303 in offered ==> v == 0x0303
    ensures 0x0304 !in offered && 0x0303 !in offered && 0x0302 in offered ==> v == 0x0302
    ensures 0x0304 !in offered && 0x0303 !in offered && 0x0302 !in offered && 0x0301 in offered ==> v == 0x0301
  {
    assert Eligible(0x0304) && Eligible(0x0303) && Eligible(0x0302) && Eligible(0x0301);
  }

  // ---------- permuting ----------

  lemma {:induction false} TypesContents(s: seq<Extension>, t: seq<Extension>)
    requires multiset(s) == multiset(t)
    ensures multiset(Types(s)) == multiset(Types(t))
  {
    hide TypeOf;
    assert |multiset(s)| == |s| && |multiset(t)| == |t|;
    if s != [] {
      var front, last := s[..|s| - 1], s[|s| - 1];
      SameMembers(s, t);
      var rest := TakeOut(t, last);
      FrontContents(s, rest);
      TypesContents(front, rest);
      SplitLast(Types(s));
      assert Types(s)[..|s| - 1] == Types(front);
    }
  }

  lemma SameMembers(s: seq<Extension>, t: seq<Extension>)
    requires multiset(s) == multiset(t)
    ensures forall x :: x in s <==> x in t
  {
    forall x ensures x in s <==> x in t {
      assert x in s <==> x in multiset(s);
      assert x in t <==> x in multiset(t);
    }
  }

  lemma FrontContents(s: seq<Extension>, rest: seq<Extension>)
    requires s != [] && multiset(s) == multiset(rest) + multiset{s[|s| - 1]}
    ensures multiset(s[..|s| - 1]) == multiset(rest)
  {
    SplitLast(s);
    assert multiset(s[..|s| - 1]) == multiset(s) - multiset{s[|s| - 1]};
  }

  lemma TakeOut(t: seq<Extension>, x: Extension) returns (rest: seq<Extension>)
    requires x in t
    ensures multiset(t) == multiset(rest) + multiset{x}
    ensures multiset(Types(t)) == multiset(Types(rest)) + multiset{TypeOf(x)}
  {
    hide TypeOf;
    var j :| 0 <= j < |t| && t[j] == x;
    rest := t[..j] + t[j + 1..];
    assert t == t[..j] + [x] + t[j + 1..];
    assert Types(t) == Types(t[..j]) + [TypeOf(x)] + Types(t[j + 1..]);
    assert Types(rest) == Types(t[..j]) + Types(t[j + 1..]);
  }

  lemma TwiceCounted(s: seq<Word>, i: nat, j: nat)
    requires i < j < |s| && s[i] == s[j]
    ensures multiset(s)[s[i]] >= 2
  {
    assert s == s[..j] + s[j..];
    assert s[i] == s[..j][i] && s[j] == s[j..][0];
    assert s[i] in multiset(s[..j]) && s[j] in multiset(s[j..]);
    assert multiset(s) == multiset(s[..j]) + multiset(s[j..]);
  }

  /** With distinct types every other extension has another type. */
  lemma OnlyOne(es: seq<Extension>, k: nat, i: nat)
    requires DistinctTypes(es) && k < |es| && i < |es| && i != k
    ensures TypeOf(es[i]) != TypeOf(es[k])
  {
    if TypeOf(es[i]) == TypeOf(es[k]) {
      var t := Types(es);
      TwiceCounted(t, if i < k then i else k, if i < k then k else i);
    }
  }

  /** What an extension adds to the protocols and to the signature algorithms. */
  function ProtocolsIn(e: Extension): seq<string> { if e.Alpn? then Protocols(e.protocols) else [] }

  function SigAlgsIn(e: Extension): seq<Word> { if e.SignatureAlgorithms? then e.algs else [] }

  lemma {:induction false} NoProtocolsIn(es: seq<Extension>)
    requires forall i | 0 <= i < |es| :: !es[i].Alpn?
    ensures AllProtocols(es) == []
  {
    if es != [] { NoProtocolsIn(es[1..]); }
  }

  lemma {:induction false} OneProtocols(es: seq<Extension>, k: nat)
    requires k < |es| && es[k].Alpn? && forall i | 0 <= i < |es| && i != k :: !es[i].Alpn?
    ensures AllProtocols(es) == ProtocolsIn(es[k])
  {
    hide Protocols;
    if k == 0 { NoProtocolsIn(es[1..]); } else { OneProtocols(es[1..], k - 1); }
  }

  lemma {:induction false} NoSigAlgsIn(es: seq<Extension>)
    requires forall i | 0 <= i < |es| :: !es[i].SignatureAlgorithms?
    ensures AllSigAlgs(es) == []
  {
    if es != [] { NoSigAlgsIn(es[1..]); }
  }

  lemma {:induction false} OneSigAlgs(es: seq<Extension>, k: nat)
    requires k < |es| && es[k].SignatureAlgorithms? && forall i | 0 <= i < |es| && i != k :: !es[i].SignatureAlgorithms?
    ensures AllSigAlgs(es) == SigAlgsIn(es[k])
  {
    if k == 0 { NoSigAlgsIn(es[1..]); } else { OneSigAlgs(es[1..], k - 1); }
  }

  /** Position of the same extension in another arrangement. */
  lemma Elsewhere(s: seq<Extension>, t: seq<Extension>, k: nat) returns (j: nat)
    requires multiset(s) == multiset(t) && k < |s|
    ensures j < |t| && t[j] == s[k]
  {
    assert s[k] in multiset(t);
    j :| 0 <= j < |t| && t[j] == s[k];
  }

  lemma ProtocolsPermuted(s: seq<Extension>, t: seq<Extension>)
    requires multiset(s) == multiset(t) && DistinctTypes(s) && DistinctTypes(t)
    ensures AllProtocols(s) == AllProtocols(t)
  {
    hide AllProtocols, DistinctTypes, Types;
    if k :| 0 <= k < |s| && s[k].Alpn? {
      var j := Elsewhere(s, t, k);
      forall i | 0 <= i < |s| && i != k ensures !s[i].Alpn? { OnlyOne(s, k, i); }
      forall i | 0 <= i < |t| && i != j ensures !t[i].Alpn? { OnlyOne(t, j, i); }
      OneProtocols(s, k);
      OneProtocols(t, j);
    } else {
      forall i | 0 <= i < |t| ensures !t[i].Alpn? { var k := Elsewhere(t, s, i); }
      NoProtocolsIn(s);
      NoProtocolsIn(t);
    }
  }

  lemma SigAlgsPermuted(s: seq<Extension>, t: seq<Extension>)
    requires multiset(s) == multiset(t) && DistinctTypes(s) && DistinctTypes(t)
    ensures AllSigAlgs(s) == AllSigAlgs(t)
  {
    hide AllSigAlgs, DistinctTypes, Types;
    if k :| 0 <= k < |s| && s[k].SignatureAlgorithms? {
      var j := Elsewhere(s, t, k);
      forall i | 0 <= i < |s| && i != k ensures !s[i].SignatureAlgorithms? { OnlyOne(s, k, i); }
      forall i | 0 <= i < |t| && i != j ensures !t[i].SignatureAlgorithms? { OnlyOne(t, j, i); }
      OneSigAlgs(s, k);
      OneSigAlgs(t, j);
    } else {
      forall i | 0 <= i < |t| ensures !t[i].SignatureAlgorithms? { var k := Elsewhere(t, s, i); }
      NoSigAlgsIn(s);
      NoSigAlgsIn(t);
    }
  }

  lemma VersionPermuted(info: Info, s: seq<Extension>, t: seq<Extension>)
    requires multiset(s) == multiset(t) && DistinctTypes(s) && DistinctTypes(t)
    ensures OfferAll(info, s).tlsVersion == OfferAll(info, t).tlsVersion
  {
    hide OfferAll, DistinctTypes, Types, Best;
    if k :| 0 <= k < |s| && s[k].SupportedVersions? {
      var j := Elsewhere(s, t, k);
      forall i | 0 <= i < |s| && i != k ensures !s[i].SupportedVersions? { OnlyOne(s, k, i); }
      forall i | 0 <= i < |t| && i != j ensures !t[i].SupportedVersions? { OnlyOne(t, j, i); }
      OfferAllVersion(info, s, k);
      OfferAllVersion(info, t, j);
    } else {
      forall i | 0 <= i < |t| ensures !t[i].SupportedVersions? { var k := Elsewhere(t, s, i); }
      OfferAllFlags(info, s);
      OfferAllFlags(info, t);
    }
  }

  lemma SniPermuted(info: Info, s: seq<Extension>, t: seq<Extension>)
    requires multiset(s) == multiset(t)
    ensures OfferAll(info, s).sni == OfferAll(info, t).sni
  {
    hide OfferAll;
    OfferAllFlags(info, s);
    OfferAllFlags(info, t);
    if k :| 0 <= k < |s| && s[k].ServerName? { var j := Elsewhere(s, t, k); }
    if k :| 0 <= k < |t| && t[k].ServerName? { var j := Elsewhere(t, s, k); }
  }

  /** Permuting ciphers and extensions of a message with distinct extension types keeps what the fingerprint reads. */
  lemma PermutedAlike(a: ClientHello, b: ClientHello)
    requires a.legacyVersion == b.legacyVersion && multiset(a.ciphers) == multiset(b.ciphers)
    requires multiset(ExtensionsOf(a)) == multiset(ExtensionsOf(b)) && DistinctTypes(ExtensionsOf(a))
    ensures Alike(InfoOf(a), InfoOf(b))
  {
    var s, t := ExtensionsOf(a), ExtensionsOf(b);
    TypesContents(s, t);
    assert DistinctTypes(t);
    hide OfferAll, DistinctTypes, Types, SameSet;
    InfoFields(a);
    InfoFields(b);
    var start := Info(a.legacyVersion, false, a.ciphers, [], [], []);
    var other := Info(b.legacyVersion, false, b.ciphers, [], [], []);
    VersionPermuted(start, s, t);
    SameVersion(start, other, t);
    SniPermuted(start, s, t);
    SameSni(start, other, t);
    ProtocolsPermuted(s, t);
    SigAlgsPermuted(s, t);
    StripIgnoresOrder(a.ciphers, b.ciphers);
    StripIgnoresOrder(Types(s), Types(t));
  }

  /** The version depends on the extensions and the version so far alone. */
  lemma {:induction false} SameVersion(a: Info, b: Info, es: seq<Extension>)
    requires a.tlsVersion == b.tlsVersion
    ensures OfferAll(a, es).tlsVersion == OfferAll(b, es).tlsVersion
    decreases |es|
  {
    hide Best, Protocols, TypeOf;
    if es != [] { SameVersion(Offer(a, es[0]), Offer(b, es[0]), es[1..]); }
  }

  lemma SameSni(a: Info, b: Info, es: seq<Extension>)
    requires a.sni == b.sni
    ensures OfferAll(a, es).sni == OfferAll(b, es).sni
  {
    OfferAllFlags(a, es);
    OfferAllFlags(b, es);
    hide OfferAll;
  }

  // ---------- inserting GREASE ----------

  lemma {:induction false} InsertedVersion(info: Info, es: seq<Extension>, k: nat, g: Extension)
    requires k <= |es| && g.Other?
    ensures OfferAll(info, es[..k] + [g] + es[k..]).tlsVersion == OfferAll(info, es).tlsVersion
    decreases k
  {
    hide Best, Protocols, TypeOf;
    var r := es[..k] + [g] + es[k..];
    if k == 0 {
      assert r[1..] == es;
      SameVersion(Offer(info, g), info, es);
    } else {
      assert r[1..] == es[1..][..k - 1] + [g] + es[1..][k - 1..];
      InsertedVersion(Offer(info, es[0]), es[1..], k - 1, g);
    }
  }

  lemma {:induction false} InsertedLists(es: seq<Extension>, k: nat, g: Extension)
    requires k <= |es| && g.Other?
    ensures AllProtocols(es[..k] + [g] + es[k..]) == AllProtocols(es)
    ensures AllSigAlgs(es[..k] + [g] + es[k..]) == AllSigAlgs(es)
    decreases k
  {
    hide Protocols;
    var r := es[..k] + [g] + es[k..];
    if k == 0 {
      assert r[1..] == es;
    } else {
      assert r[1..] == es[1..][..k - 1] + [g] + es[1..][k - 1..];
      InsertedLists(es[1..], k - 1, g);
    }
  }

  lemma InsertedSni(info: Info, es: seq<Extension>, k: nat, g: Extension)
    requires k <= |es| && g.Other?
    ensures OfferAll(info, es[..k] + [g] + es[k..]).sni == OfferAll(info, es).sni
  {
    hide OfferAll;
    var r := es[..k] + [g] + es[k..];
    OfferAllFlags(info, es);
    OfferAllFlags(info, r);
    if i :| 0 <= i < |es| && es[i].ServerName? { assert r[if i < k then i else i + 1] == es[i]; }
    if i :| 0 <= i < |r| && r[i].ServerName? { assert r[i] == es[if i < k then i else i - 1]; }
  }

  /** A GREASE extension anywhere among the extensions keeps what the fingerprint reads. */
  lemma GreasedAlike(a: ClientHello, b: ClientHello, k: nat, g: Extension)
    requires a.extensions.Some? && k <= |a.extensions.value| && g.Other? && IsGrease(g.typ)
    requires b == a.(extensions := Some(a.extensions.value[..k] + [g] + a.extensions.value[k..]))
    ensures Alike(InfoOf(a), InfoOf(b))
  {
    var es, r := a.extensions.value, b.extensions.value;
    hide OfferAll, SameSet;
    InfoFields(a);
    InfoFields(b);
    var start := Info(a.legacyVersion, false, a.ciphers, [], [], []);
    InsertedVersion(start, es, k, g);
    InsertedSni(start, es, k, g);
    InsertedLists(es, k, g);
    var t := Types(es);
    assert Types(r) == t[..k] + [g.typ] + t[k..];
    StripIgnoresOrder(a.ciphers, a.ciphers);
    GreasedTypes(t, k, g.typ);
  }

  lemma GreasedTypes(t: seq<Word>, k: nat, g: Word)
    requires k <= |t| && IsGrease(g)
    ensures SameSet(t, t[..k] + [g] + t[k..])
  {
    StripInsert(t, k, g);
  }

  /** The list with v before position k. */
  function Inserted(s: seq<Word>, k: nat, v: Word): seq<Word>
    requires k <= |s|
  {
    s[..k] + [v] + s[k..]
  }

  /** A GREASE value among the ciphers. */
  lemma GreasedCiphersAlike(a: ClientHello, b: ClientHello, k: nat, v: Word)
    requires k <= |a.ciphers| && IsGrease(v) && b == a.(ciphers := Inserted(a.ciphers, k, v))
    ensures Alike(InfoOf(a), InfoOf(b))
  {
    hide OfferAll, SameSet;
    InfoFields(a);
    InfoFields(b);
    var es := ExtensionsOf(a);
    var start := Info(a.legacyVersion, false, a.ciphers, [], [], []);
    var other := Info(b.legacyVersion, false, b.ciphers, [], [], []);
    SameVersion(start, other, es);
    SameSni(start, other, es);
    StripIgnoresOrder(Types(es), Types(es));
    GreasedTypes(a.ciphers, k, v);
  }

  /** Two bodies of one extension that give the same version. */
  ghost predicate Interchangeable(d: Extension, e: Extension) {
    || (d.SignatureAlgorithms? && e.SignatureAlgorithms?)
    || (d.SupportedVersions? && e.SupportedVersions? && Best(0, d.versions) == Best(0, e.versions))
  }

  lemma {:induction false} UpdatedVersion(info: Info, es: seq<Extension>, j: nat, e: Extension)
    requires j < |es| && Interchangeable(es[j], e)
    ensures OfferAll(info, es[j := e]).tlsVersion == OfferAll(info, es).tlsVersion
    decreases j
  {
    hide Best, Protocols, TypeOf;
    if j == 0 {
      assert es[0 := e][1..] == es[1..];
      SameVersion(Offer(info, e), Offer(info, es[0]), es[1..]);
    } else {
      assert es[j := e][1..] == es[1..][j - 1 := e];
      UpdatedVersion(Offer(info, es[0]), es[1..], j - 1, e);
    }
  }

  lemma {:induction false} UpdatedProtocols(es: seq<Extension>, j: nat, e: Extension)
    requires j < |es| && Interchangeable(es[j], e)
    ensures AllProtocols(es[j := e]) == AllProtocols(es)
    decreases j
  {
    hide Protocols;
    if j == 0 {
      assert es[0 := e][1..] == es[1..];
    } else {
      assert es[j := e][1..] == es[1..][j - 1 := e];
      UpdatedProtocols(es[1..], j - 1, e);
    }
  }

  lemma {:induction false} UpdatedSigAlgs(es: seq<Extension>, j: nat, k: nat, v: Word)
    requires j < |es| && es[j].SignatureAlgorithms? && k <= |es[j].algs| && IsGrease(v)
    ensures Strip(AllSigAlgs(es[j := SignatureAlgorithms(Inserted(es[j].algs, k, v))])) == Strip(AllSigAlgs(es))
    decreases j
  {
    hide IsGrease, Filter;
    var t := es[j := SignatureAlgorithms(Inserted(es[j].algs, k, v))];
    if j == 0 {
      assert t[1..] == es[1..];
      StripInsert(es[0].algs, k, v);
    } else {
      assert t[1..] == es[1..][j - 1 := SignatureAlgorithms(Inserted(es[j].algs, k, v))];
      UpdatedSigAlgs(es[1..], j - 1, k, v);
    }
    assert AllSigAlgs(es) == SigAlgsIn(es[0]) + AllSigAlgs(es[1..]);
    assert AllSigAlgs(t) == SigAlgsIn(t[0]) + AllSigAlgs(t[1..]);
    FilterConcat(NotGrease, SigAlgsIn(es[0]), AllSigAlgs(es[1..]));
    FilterConcat(NotGrease, SigAlgsIn(t[0]), AllSigAlgs(t[1..]));
  }

  lemma UpdatedSni(info: Info, es: seq<Extension>, j: nat, e: Extension)
    requires j < |es| && Interchangeable(es[j], e)
    ensures OfferAll(info, es[j := e]).sni == OfferAll(info, es).sni
  {
    hide OfferAll;
    var t := es[j := e];
    OfferAllFlags(info, es);
    OfferAllFlags(info, t);
    if i :| 0 <= i < |es| && es[i].ServerName? { assert t[i] == es[i]; }
    if i :| 0 <= i < |t| && t[i].ServerName? { assert t[i] == es[i]; }
  }

  /** A GREASE value among the signature algorithms of one extension. */
  lemma GreasedSigAlgsAlike(a: ClientHello, b: ClientHello, j: nat, k: nat, v: Word)
    requires a.extensions.Some? && j < |a.extensions.value| && a.extensions.value[j].SignatureAlgorithms?
    requires k <= |a.extensions.value[j].algs| && IsGrease(v)
    requires var es := a.extensions.value;
      b == a.(extensions := Some(es[j := SignatureAlgorithms(Inserted(es[j].algs, k, v))]))
    ensures Alike(InfoOf(a), InfoOf(b))
  {
    hide OfferAll, SameSet, Strip, Inserted;
    var es, t := a.extensions.value, b.extensions.value;
    var start := Info(a.legacyVersion, false, a.ciphers, [], [], []);
    InfoFields(a);
    InfoFields(b);
    UpdatedVersion(start, es, j, t[j]);
    UpdatedSni(start, es, j, t[j]);
    UpdatedProtocols(es, j, t[j]);
    UpdatedSigAlgs(es, j, k, v);
    assert Types(es) == Types(t);
    StripIgnoresOrder(Types(es), Types(t));
    StripIgnoresOrder(a.ciphers, a.ciphers);
  }

  lemma {:induction false} BestInserted(best: Word, versions: seq<Word>, k: nat, v: Word)
    requires k <= |versions| && IsGrease(v)
    ensures Best(best, Inserted(versions, k, v)) == Best(best, versions)
    decreases k
  {
    hide IsGrease;
    var r := Inserted(versions, k, v);
    if k == 0 {
      assert r[1..] == versions;
    } else {
      assert r[1..] == Inserted(versions[1..], k - 1, v);
      BestInserted(Better(best, versions[0]), versions[1..], k - 1, v);
    }
  }

  lemma {:induction false} UpdatedNoSigAlgs(es: seq<Extension>, j: nat, e: Extension)
    requires j < |es| && es[j].SupportedVersions? && e.SupportedVersions?
    ensures AllSigAlgs(es[j := e]) == AllSigAlgs(es)
    decreases j
  {
    if j == 0 {
      assert es[0 := e][1..] == es[1..];
    } else {
      assert es[j := e][1..] == es[1..][j - 1 := e];
      UpdatedNoSigAlgs(es[1..], j - 1, e);
    }
  }

  /** A GREASE value among the offered versions of one extension. */
  lemma GreasedVersionsAlike(a: ClientHello, b: ClientHello, j: nat, k: nat, v: Word)
    requires a.extensions.Some? && j < |a.extensions.value| && a.extensions.value[j].SupportedVersions?
    requires k <= |a.extensions.value[j].versions| && IsGrease(v)
    requires var es := a.extensions.value;
      b == a.(extensions := Some(es[j := SupportedVersions(Inserted(es[j].versions, k, v))]))
    ensures Alike(InfoOf(a), InfoOf(b))
  {
    hide OfferAll, SameSet, Strip, Inserted, Best;
    var es, t := a.extensions.value, b.extensions.value;
    var start := Info(a.legacyVersion, false, a.ciphers, [], [], []);
    InfoFields(a);
    InfoFields(b);
    BestInserted(0, es[j].versions, k, v);
    UpdatedVersion(start, es, j, t[j]);
    UpdatedSni(start, es, j, t[j]);
    UpdatedProtocols(es, j, t[j]);
    UpdatedNoSigAlgs(es, j, t[j]);
    assert Types(es) == Types(t);
    StripIgnoresOrder(Types(es), Types(t));
    StripIgnoresOrder(a.ciphers, a.ciphers);
  }

  // ---------- on the wire ----------

  /** The ways in which two messages may differ: by order, or by one GREASE value in one of the four lists. */
  datatype Change =
    | Permuted
    | GreasedExtension(at: nat, ext: Extension)
    | GreasedCipher(at: nat, value: Word)
    | GreasedSigAlg(which: nat, at: nat, value: Word)
    | GreasedVersion(which: nat, at: nat, value: Word)

  ghost predicate Changed(a: ClientHello, b: ClientHello, c: Change) {
    var es := ExtensionsOf(a);
    match c
    case Permuted =>
      && a.legacyVersion == b.legacyVersion && multiset(a.ciphers) == multiset(b.ciphers)
      && multiset(es) == multiset(ExtensionsOf(b)) && DistinctTypes(es)
    case GreasedExtension(k, g) =>
      && a.extensions.Some? && k <= |es| && g.Other? && IsGrease(g.typ)
      && b == a.(extensions := Some(es[..k] + [g] + es[k..]))
    case GreasedCipher(k, v) => k <= |a.ciphers| && IsGrease(v) && b == a.(ciphers := Inserted(a.ciphers, k, v))
    case GreasedSigAlg(j, k, v) =>
      && a.extensions.Some? && j < |es| && es[j].SignatureAlgorithms? && k <= |es[j].algs| && IsGrease(v)
      && b == a.(extensions := Some(es[j := SignatureAlgorithms(Inserted(es[j].algs, k, v))]))
    case GreasedVersion(j, k, v) =>
      && a.extensions.Some? && j < |es| && es[j].SupportedVersions? && k <= |es[j].versions| && IsGrease(v)
      && b == a.(extensions := Some(es[j := SupportedVersions(Inserted(es[j].versions, k, v))]))
  }

  lemma ChangedAlike(a: ClientHello, b: ClientHello, c: Change)
    requires Changed(a, b, c)
    ensures Alike(InfoOf(a), InfoOf(b))
  {
    hide InfoOf, Alike, DistinctTypes, IsGrease, Inserted;
    match c
    case Permuted => PermutedAlike(a, b);
    case GreasedExtension(k, g) => GreasedAlike(a, b, k, g);
    case GreasedCipher(k, v) => GreasedCiphersAlike(a, b, k, v);
    case GreasedSigAlg(j, k, v) => GreasedSigAlgsAlike(a, b, j, k, v);
    case GreasedVersion(j, k, v) => GreasedVersionsAlike(a, b, j, k, v);
  }

  /**
   * The bytes of two messages, each bare or in a record, that differ by the order of ciphers and of extensions with
   * distinct types, or by one GREASE value among ciphers, extensions, signature algorithms or offered versions, are
   * fingerprinted alike, whatever the hash.
   */
  lemma OneFingerprint(x: Buffer, y: Buffer, a: ClientHello, b: ClientHello, c: Change,
                       transport: char, sha12: string -> string)
    requires Carries(x, a) && Carries(y, b) && Changed(a, b, c)
    ensures Parse(x).Some? && Parse(y).Some?
    ensures ComputeJA4(Parse(x).value, transport, sha12) == ComputeJA4(Parse(y).value, transport, sha12)
  {
    hide Carries, Parse, InfoOf, ComputeJA4, Alike, Changed;
    CarriesParse(x, a);
    CarriesParse(y, b);
    ChangedAlike(a, b, c);
    Canonical(InfoOf(a), InfoOf(b), transport, sha12);
  }
}
