/** The JA4 fingerprint of tlsFingerprint.ts: what it depends on and what it does not. */
module Ja4 {
  import opened Filtering
  import opened Hex
  import opened Sorting
  import opened Tls

  // ---------- the code ----------

  /** `n.toString(16)`. */
  function ToHex(n: nat): string {
    if n < 16 then [Digit(n)] else ToHex(n / 16) + [Digit(n % 16)]
  }

  function PadStart(s: string, len: nat): string
    decreases len - |s|
  {
    if |s| >= len then s else PadStart("0" + s, len)
  }

  function Hex4(n: Word): string { PadStart(ToHex(n), 4) }

  function Join(parts: seq<string>): string
    decreases |parts|
  {
    if parts == [] then ""
    else if |parts| == 1 then parts[0]
    else parts[0] + "," + Join(parts[1..])
  }

  function NotGrease(v: Word): bool { !IsGrease(v) }

  /** Extensions other than server_name and ALPN. */
  function Hashable(v: Word): bool { v != 0x0000 && v != 0x0010 }

  function Code(v: Word): real { v as real }

  function VersionLabel(v: Word): (s: string)
    ensures |s| == 2
  {
    if v == 0x0304 then "13" else if v == 0x0303 then "12" else if v == 0x0302 then "11"
    else if v == 0x0301 then "10" else "00"
  }

  function AlpnCode(alpn: seq<string>): (s: string)
    ensures |s| == 2
  {
    if alpn == [] || alpn[0] == "" then "00"
    else if |alpn[0]| == 1 then alpn[0] + alpn[0]
    else [alpn[0][0], alpn[0][|alpn[0]| - 1]]
  }

  /** `String(Math.min(n, 99)).padStart(2, '0')`. */
  function Count2(n: nat): (s: string)
    ensures |s| == 2
  {
    var m := if n < 99 then n else 99;
    [Digit(m / 10), Digit(m % 10)]
  }

  function Strip(s: seq<Word>): seq<Word> { Filter(NotGrease, s) }

  function PartA(info: Info, transport: char): (s: string)
    ensures |s| == 10
  {
    [transport] + VersionLabel(info.tlsVersion) + (if info.sni then "d" else "i")
    + Count2(|Strip(info.ciphers)|) + Count2(|Strip(info.extensions)|) + AlpnCode(info.alpn)
  }

  function HexList(s: seq<Word>): string { Join(Map(Hex4, s)) }

  function CipherText(info: Info): string { HexList(Sort(Code, Strip(info.ciphers))) }

  function ExtensionText(info: Info): string { HexList(Sort(Code, Filter(Hashable, Strip(info.extensions)))) }

  /** The comment beside the code says sorted; the code keeps wire order. */
  function SigAlgText(info: Info): string { HexList(Strip(info.sigAlgs)) }

  function TextC(info: Info): string { ExtensionText(info) + "_" + SigAlgText(info) }

  function ComputeJA4(info: Info, transport: char, sha12: string -> string): string {
    PartA(info, transport) + "_" + sha12(CipherText(info)) + "_" + sha12(TextC(info))
  }

  // ---------- filtering ----------

  /** Inserting a GREASE value anywhere leaves the stripped list as it was. */
  lemma StripInsert(s: seq<Word>, k: nat, g: Word)
    requires k <= |s| && IsGrease(g)
    ensures Strip(s[..k] + [g] + s[k..]) == Strip(s)
  {
    assert s == s[..k] + s[k..];
    FilterConcat(NotGrease, s[..k], s[k..]);
    FilterConcat(NotGrease, s[..k] + [g], s[k..]);
    FilterConcat(NotGrease, s[..k], [g]);
  }

  // ---------- canonicity ----------

  /** The same non-GREASE values, in any order. */
  ghost predicate SameSet(s: seq<Word>, t: seq<Word>) { multiset(Strip(s)) == multiset(Strip(t)) }

  /** Everything the fingerprint reads: order of ciphers and extensions and all GREASE values abstracted away. */
  ghost predicate Alike(a: Info, b: Info) {
    && a.tlsVersion == b.tlsVersion && a.sni == b.sni && a.alpn == b.alpn
    && SameSet(a.ciphers, b.ciphers) && SameSet(a.extensions, b.extensions)
    && Strip(a.sigAlgs) == Strip(b.sigAlgs)
  }

  lemma SameSetLength(s: seq<Word>, t: seq<Word>)
    requires SameSet(s, t)
    ensures |Strip(s)| == |Strip(t)|
  {
    assert |multiset(Strip(s))| == |Strip(s)| && |multiset(Strip(t))| == |Strip(t)|;
  }

  lemma CodeInjective()
    ensures Injective(Code)
  {
  }

  /** Alike messages have the same fingerprint, whatever the hash. */
  lemma Canonical(a: Info, b: Info, transport: char, sha12: string -> string)
    requires Alike(a, b)
    ensures ComputeJA4(a, transport, sha12) == ComputeJA4(b, transport, sha12)
  {
    hide HexList, Sort, Filter;
    CodeInjective();
    SameSetLength(a.ciphers, b.ciphers);
    SameSetLength(a.extensions, b.extensions);
    SortIgnoresOrder(Code, Strip(a.ciphers), Strip(b.ciphers));
    FilterIgnoresOrder(Hashable, Strip(a.extensions), Strip(b.extensions));
    SortIgnoresOrder(Code, Filter(Hashable, Strip(a.extensions)), Filter(Hashable, Strip(b.extensions)));
  }

  /** Permuting ciphers or extensions and inserting GREASE into any of the three lists gives an alike message. */
  lemma Rearrangements(a: Info, ciphers: seq<Word>, extensions: seq<Word>, k: nat, g: Word)
    requires IsGrease(g)
    ensures multiset(ciphers) == multiset(a.ciphers) ==> Alike(a, a.(ciphers := ciphers))
    ensures multiset(extensions) == multiset(a.extensions) ==> Alike(a, a.(extensions := extensions))
    ensures k <= |a.ciphers| ==> Alike(a, a.(ciphers := a.ciphers[..k] + [g] + a.ciphers[k..]))
    ensures k <= |a.extensions| ==> Alike(a, a.(extensions := a.extensions[..k] + [g] + a.extensions[k..]))
    ensures k <= |a.sigAlgs| ==> Alike(a, a.(sigAlgs := a.sigAlgs[..k] + [g] + a.sigAlgs[k..]))
  {
    hide Filter, Strip;
    if multiset(ciphers) == multiset(a.ciphers) { StripIgnoresOrder(ciphers, a.ciphers); }
    if multiset(extensions) == multiset(a.extensions) { StripIgnoresOrder(extensions, a.extensions); }
    if k <= |a.ciphers| { StripInsert(a.ciphers, k, g); }
    if k <= |a.extensions| { StripInsert(a.extensions, k, g); }
    if k <= |a.sigAlgs| { StripInsert(a.sigAlgs, k, g); }
  }

  lemma StripIgnoresOrder(s: seq<Word>, t: seq<Word>)
    requires multiset(s) == multiset(t)
    ensures SameSet(s, t)
  {
    FilterIgnoresOrder(NotGrease, s, t);
  }

  // ---------- the converse: nothing else is lost before hashing ----------

  function FromHex(s: string): nat {
    if s == "" then 0 else FromHex(s[..|s| - 1]) * 16 + DigitValue(s[|s| - 1])
  }

  lemma {:induction false} ToHexRoundTrip(n: nat)
    ensures FromHex(ToHex(n)) == n
    ensures '_' !in ToHex(n)
  {
    if n < 16 {
      assert FromHex([Digit(n)]) == FromHex([Digit(n)][..0]) * 16 + DigitValue(Digit(n));
      DigitRoundTrip(n);
    } else {
      ToHexRoundTrip(n / 16);
      DigitRoundTrip(n % 16);
      var front := ToHex(n / 16);
      assert ToHex(n)[..|ToHex(n)| - 1] == front;
    }
  }

  lemma {:induction false} LeadingZero(s: string)
    ensures FromHex("0" + s) == FromHex(s)
  {
    if s == "" {
      assert ("0" + s)[..0] == "";
    } else {
      assert ("0" + s)[..|s|] == "0" + s[..|s| - 1];
      LeadingZero(s[..|s| - 1]);
    }
  }

  lemma {:induction false} PadKeepsValue(s: string, len: nat)
    ensures FromHex(PadStart(s, len)) == FromHex(s)
    ensures '_' !in s ==> '_' !in PadStart(s, len)
    ensures |PadStart(s, len)| == if |s| < len then len else |s|
    decreases len - |s|
  {
    if |s| < len {
      LeadingZero(s);
      PadKeepsValue("0" + s, len);
    }
  }

  lemma ToHexLength(n: Word)
    ensures 1 <= |ToHex(n)| <= 4
  {
    assert n / 16 / 16 / 16 < 16;
    assert |ToHex(n / 16 / 16 / 16)| == 1;
    assert |ToHex(n / 16 / 16)| <= 2;
    assert |ToHex(n / 16)| <= 3;
  }

  /** Four characters, none of them an underscore, from which the value can be read back. */
  lemma Hex4RoundTrip(n: Word)
    ensures |Hex4(n)| == 4 && '_' !in Hex4(n) && FromHex(Hex4(n)) == n
  {
    ToHexLength(n);
    ToHexRoundTrip(n);
    PadKeepsValue(ToHex(n), 4);
  }

  /** A comma-joined list of four-digit groups determines the list. */
  lemma {:induction false} HexListInjective(s: seq<Word>, t: seq<Word>)
    requires HexList(s) == HexList(t)
    ensures s == t
    decreases |s|
  {
    hide Hex4;
    HexListShape(s);
    HexListShape(t);
    if s != [] {
      var u := HexList(s);
      assert Hex4(s[0]) == u[..4] == Hex4(t[0]);
      Hex4RoundTrip(s[0]);
      Hex4RoundTrip(t[0]);
      if |s| > 1 {
        assert HexList(s[1..]) == u[5..] == HexList(t[1..]);
        HexListInjective(s[1..], t[1..]);
      }
      assert s == [s[0]] + s[1..] && t == [t[0]] + t[1..];
    }
  }

  lemma {:induction false} HexListShape(s: seq<Word>)
    ensures |HexList(s)| == if s == [] then 0 else 5 * |s| - 1
    ensures '_' !in HexList(s)
    ensures s != [] ==> HexList(s)[..4] == Hex4(s[0])
    ensures |s| > 1 ==> HexList(s)[5..] == HexList(s[1..])
    decreases |s|
  {
    hide Hex4;
    if s != [] {
      Hex4RoundTrip(s[0]);
      HexListShape(s[1..]);
      assert Map(Hex4, s)[1..] == Map(Hex4, s[1..]);
    }
  }

  lemma SplitUnderscore(u: string, v: string, u': string, v': string)
    requires '_' !in u && '_' !in u' && u + "_" + v == u' + "_" + v'
    ensures u == u' && v == v'
  {
    var w := u + "_" + v;
    assert w[|u|] == '_' && w[|u'|] == '_';
    assert forall i | 0 <= i < |u| :: w[i] == u[i] && u[i] in u;
    assert forall i | 0 <= i < |u'| :: w[i] == u'[i] && u'[i] in u';
    assert u == w[..|u|] && u' == w[..|u'|];
    assert v == w[|u| + 1..] && v' == w[|u'| + 1..];
  }

  /** The hash input for the ciphers determines the stripped ciphers up to order. */
  lemma CipherTextExact(a: Info, b: Info)
    ensures CipherText(a) == CipherText(b) <==> SameSet(a.ciphers, b.ciphers)
  {
    hide HexList, Sort, Filter;
    CodeInjective();
    SortIgnoresOrder(Code, Strip(a.ciphers), Strip(b.ciphers));
    if CipherText(a) == CipherText(b) {
      HexListInjective(Sort(Code, Strip(a.ciphers)), Sort(Code, Strip(b.ciphers)));
    }
  }

  /** The other hash input determines the hashable extensions up to order and the signature algorithms in order. */
  lemma TextCExact(a: Info, b: Info)
    ensures TextC(a) == TextC(b) <==>
      && multiset(Filter(Hashable, Strip(a.extensions))) == multiset(Filter(Hashable, Strip(b.extensions)))
      && Strip(a.sigAlgs) == Strip(b.sigAlgs)
  {
    hide HexList, Sort, Filter;
    CodeInjective();
    var s, t := Filter(Hashable, Strip(a.extensions)), Filter(Hashable, Strip(b.extensions));
    SortIgnoresOrder(Code, s, t);
    if TextC(a) == TextC(b) {
      HexListShape(Sort(Code, s));
      HexListShape(Sort(Code, t));
      SplitUnderscore(ExtensionText(a), SigAlgText(a), ExtensionText(b), SigAlgText(b));
      HexListInjective(Sort(Code, s), Sort(Code, t));
      HexListInjective(Strip(a.sigAlgs), Strip(b.sigAlgs));
    }
  }

  function Capped(n: nat): nat { if n < 99 then n else 99 }

  lemma Count2Exact(m: nat, n: nat)
    ensures Count2(m) == Count2(n) <==> Capped(m) == Capped(n)
  {
    DigitRoundTrip(Capped(m) / 10);
    DigitRoundTrip(Capped(m) % 10);
    DigitRoundTrip(Capped(n) / 10);
    DigitRoundTrip(Capped(n) % 10);
    if Count2(m) == Count2(n) {
      assert Count2(m)[0] == Count2(n)[0] && Count2(m)[1] == Count2(n)[1];
    }
  }

  /** The visible part shows the version label, SNI, both GREASE-free counts up to 99 and the ALPN code, and no more. */
  lemma PartAExact(a: Info, b: Info, transport: char)
    ensures PartA(a, transport) == PartA(b, transport) <==>
      && VersionLabel(a.tlsVersion) == VersionLabel(b.tlsVersion) && a.sni == b.sni
      && Capped(|Strip(a.ciphers)|) == Capped(|Strip(b.ciphers)|)
      && Capped(|Strip(a.extensions)|) == Capped(|Strip(b.extensions)|)
      && AlpnCode(a.alpn) == AlpnCode(b.alpn)
  {
    Count2Exact(|Strip(a.ciphers)|, |Strip(b.ciphers)|);
    Count2Exact(|Strip(a.extensions)|, |Strip(b.extensions)|);
    hide VersionLabel, AlpnCode, Strip, Count2, Capped;
    var u, v := PartA(a, transport), PartA(b, transport);
    PartASlices(a, transport);
    PartASlices(b, transport);
  }

  lemma PartASlices(a: Info, transport: char)
    ensures var u := PartA(a, transport);
      && u[1..3] == VersionLabel(a.tlsVersion) && (u[3] == 'd' <==> a.sni)
      && u[4..6] == Count2(|Strip(a.ciphers)|) && u[6..8] == Count2(|Strip(a.extensions)|) && u[8..] == AlpnCode(a.alpn)
  {
    hide VersionLabel, AlpnCode, Strip, Count2;
  }

  lemma LabelOf(v: Word)
    ensures VersionLabel(v) == "13" <==> v == 0x0304
    ensures VersionLabel(v) == "12" <==> v == 0x0303
    ensures VersionLabel(v) == "11" <==> v == 0x0302
    ensures VersionLabel(v) == "10" <==> v == 0x0301
    ensures VersionLabel(v) == "00" <==> v !in {0x0304, 0x0303, 0x0302, 0x0301}
  {
    assert "13"[1] == '3' && "12"[1] == '2' && "11"[1] == '1' && "10"[1] == '0' && "00"[0] == '0';
  }

  lemma Count2Value(n: nat)
    ensures DigitValue(Count2(n)[0]) * 10 + DigitValue(Count2(n)[1]) == if n < 99 then n else 99
  {
    DigitRoundTrip(Capped(n) / 10);
    DigitRoundTrip(Capped(n) % 10);
  }

  /** What the visible part says, place by place. */
  lemma PartAShows(info: Info, transport: char)
    ensures var u, v := PartA(info, transport), info.tlsVersion;
      var ciphers, extensions := |Strip(info.ciphers)|, |Strip(info.extensions)|;
      && u[0] == transport && u[3] == (if info.sni then 'd' else 'i')
      && (u[1..3] == "13" <==> v == 0x0304) && (u[1..3] == "12" <==> v == 0x0303)
      && (u[1..3] == "11" <==> v == 0x0302) && (u[1..3] == "10" <==> v == 0x0301)
      && (u[1..3] == "00" <==> v !in {0x0304, 0x0303, 0x0302, 0x0301})
      && DigitValue(u[4]) * 10 + DigitValue(u[5]) == (if ciphers < 99 then ciphers else 99)
      && DigitValue(u[6]) * 10 + DigitValue(u[7]) == (if extensions < 99 then extensions else 99)
      && if info.alpn == [] || info.alpn[0] == "" then u[8..] == "00"
         else u[8] == info.alpn[0][0] && u[9] == info.alpn[0][|info.alpn[0]| - 1]
  {
    LabelOf(info.tlsVersion);
    Count2Value(|Strip(info.ciphers)|);
    Count2Value(|Strip(info.extensions)|);
    AlpnShows(info.alpn);
    hide VersionLabel, AlpnCode, Strip, Count2, DigitValue;
    PartASlices(info, transport);
    var u := PartA(info, transport);
    assert u[4] == u[4..6][0] && u[5] == u[4..6][1] && u[6] == u[6..8][0] && u[7] == u[6..8][1];
    assert u[8] == u[8..][0] && u[9] == u[8..][1];
  }

  lemma AlpnShows(alpn: seq<string>)
    ensures alpn == [] || alpn[0] == "" ==> AlpnCode(alpn) == "00"
    ensures alpn != [] && alpn[0] != "" ==>
      AlpnCode(alpn)[0] == alpn[0][0] && AlpnCode(alpn)[1] == alpn[0][|alpn[0]| - 1]
  {
  }

  /** The sixteen GREASE values of RFC 8701. */
  lemma GreaseExactly(v: int)
    ensures IsGrease(v) <==> exists k | 0 <= k < 16 :: v == GreaseValue(k)
  {
    if IsGrease(v) {
      var k := (v - 0x0a0a) / 0x1010;
      assert v == GreaseValue(k);
    }
  }

  function GreaseValue(k: int): int { 0x0a0a + 0x1010 * k }

  /** What is counted, listed and hashed: everything but GREASE, and of the extensions neither SNI nor ALPN. */
  lemma CountedValues(info: Info, v: Word)
    ensures multiset(Strip(info.ciphers))[v] == if IsGrease(v) then 0 else multiset(info.ciphers)[v]
    ensures multiset(Strip(info.extensions))[v] == if IsGrease(v) then 0 else multiset(info.extensions)[v]
    ensures multiset(Filter<Word>(Hashable, Strip(info.extensions)))[v]
         == if IsGrease(v) || v == 0 || v == 16 then 0 else multiset(info.extensions)[v]
  {
    FilterContents(NotGrease, info.ciphers);
    FilterContents(NotGrease, info.extensions);
    FilterContents<Word>(Hashable, Strip(info.extensions));
    hide IsGrease, Filter;
  }

  ghost predicate Rising(s: seq<Word>) { forall i, j | 0 <= i < j < |s| :: s[i] <= s[j] }

  /** The hash inputs: four-digit groups in ascending order, then the signature algorithms as they came. */
  lemma HashedTexts(info: Info) returns (ciphers: seq<Word>, extensions: seq<Word>)
    ensures Rising(ciphers) && multiset(ciphers) == multiset(Strip(info.ciphers))
    ensures CipherText(info) == HexList(ciphers)
    ensures Rising(extensions) && multiset(extensions) == multiset(Filter<Word>(Hashable, Strip(info.extensions)))
    ensures TextC(info) == HexList(extensions) + "_" + HexList(Strip(info.sigAlgs))
  {
    hide HexList, Filter;
    ciphers := Sort(Code, Strip(info.ciphers));
    extensions := Sort(Code, Filter<Word>(Hashable, Strip(info.extensions)));
    SortContents(Code, Strip(info.ciphers));
    SortContents(Code, Filter<Word>(Hashable, Strip(info.extensions)));
    SortRising(Strip(info.ciphers));
    SortRising(Filter<Word>(Hashable, Strip(info.extensions)));
  }

  lemma SortRising(s: seq<Word>)
    ensures Rising(Sort(Code, s))
  {
    var t := Sort(Code, s);
    forall i, j | 0 <= i < j < |t| ensures t[i] <= t[j] {
      assert Code(t[i]) <= Code(t[j]);
    }
  }

  /** With a hash of fixed length that does not collide here, equal fingerprints mean equal visible and hashed parts. */
  lemma FingerprintExact(a: Info, b: Info, transport: char, sha12: string -> string)
    requires forall s :: |sha12(s)| == 12
    requires sha12(CipherText(a)) == sha12(CipherText(b)) ==> CipherText(a) == CipherText(b)
    requires sha12(TextC(a)) == sha12(TextC(b)) ==> TextC(a) == TextC(b)
    ensures ComputeJA4(a, transport, sha12) == ComputeJA4(b, transport, sha12) <==>
      && PartA(a, transport) == PartA(b, transport)
      && SameSet(a.ciphers, b.ciphers)
      && multiset(Filter(Hashable, Strip(a.extensions))) == multiset(Filter(Hashable, Strip(b.extensions)))
      && Strip(a.sigAlgs) == Strip(b.sigAlgs)
  {
    hide CipherText, TextC, PartA, Filter, SameSet, Strip;
    CipherTextExact(a, b);
    TextCExact(a, b);
    var u, v := ComputeJA4(a, transport, sha12), ComputeJA4(b, transport, sha12);
    if u == v {
      assert PartA(a, transport) == u[..10] == PartA(b, transport);
      assert sha12(CipherText(a)) == u[11..23] == sha12(CipherText(b));
      assert sha12(TextC(a)) == u[24..] == sha12(TextC(b));
    }
  }
}
