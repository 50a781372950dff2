/** The ClientHello parser of tlsFingerprint.ts over a byte buffer. */
module Tls {
  import opened Bounds
  import opened Hex
  import opened Optional

  type Buffer = seq<Byte>

  type Word = x: int | 0 <= x < 0x10000

  /** The reserved values of RFC 8701. */
  predicate IsGrease(v: int) {
    v in {0x0a0a, 0x1a1a, 0x2a2a, 0x3a3a, 0x4a4a, 0x5a5a, 0x6a6a, 0x7a7a,
          0x8a8a, 0x9a9a, 0xaaaa, 0xbaba, 0xcaca, 0xdada, 0xeaea, 0xfafa}
  }

  datatype Info = Info(tlsVersion: Word, sni: bool, ciphers: seq<Word>, extensions: seq<Word>,
                       alpn: seq<string>, sigAlgs: seq<Word>)

  function U16(buf: Buffer, p: nat): (v: Word)
    requires p + 1 < |buf|
  {
    var hi: int, lo: int := buf[p], buf[p + 1];
    hi * 256 + lo
  }

  /** `toString('ascii')`: seven bits of every byte. */
  function Ascii(bytes: seq<Byte>): (s: string)
    ensures |s| == |bytes|
  {
    seq(|bytes|, i requires 0 <= i < |bytes| => (bytes[i] % 128) as char)
  }

  // ---------- the loops of the parser, as functions of the cursor ----------

  /** Cipher suites from p on while the list and the buffer last; the cursor after them. */
  function CipherLoop(buf: Buffer, p: nat, i: nat, csLen: nat): (r: (seq<Word>, nat))
    ensures r.1 >= p
    decreases csLen - i
  {
    if i + 1 < csLen && p + 1 < |buf| then
      var (rest, end) := CipherLoop(buf, p + 2, i + 2, csLen);
      ([U16(buf, p)] + rest, end)
    else ([], p)
  }

  function Better(best: Word, v: Word): Word {
    if !IsGrease(v) && v > best && v <= 0x0304 then v else best
  }

  /** Highest version so far; None where the original reads past the buffer and throws. */
  function VersionLoop(buf: Buffer, body: nat, bodyEnd: nat, listLen: nat, i: nat, best: Word): Option<Word>
    decreases listLen - i
  {
    if i + 1 < listLen && body + 1 + i + 1 < bodyEnd + 1 then
      if body + 1 + i + 1 >= |buf| then None
      else VersionLoop(buf, body, bodyEnd, listLen, i + 2, Better(best, U16(buf, body + 1 + i)))
    else Some(best)
  }

  function AlpnLoop(buf: Buffer, q: nat, bodyEnd: nat): seq<string>
    requires bodyEnd <= |buf|
    decreases bodyEnd - q
  {
    if q < bodyEnd && q + 1 + buf[q] <= bodyEnd then
      [Ascii(buf[q + 1..q + 1 + buf[q]])] + AlpnLoop(buf, q + 1 + buf[q], bodyEnd)
    else []
  }

  function SigAlgLoop(buf: Buffer, q: nat, bodyEnd: nat): seq<Word>
    requires bodyEnd <= |buf|
    decreases bodyEnd - q
  {
    if q + 1 < bodyEnd then [U16(buf, q)] + SigAlgLoop(buf, q + 2, bodyEnd) else []
  }

  /** One extension whose body is buf[body..bodyEnd]; None where the original throws. */
  function ParseExtension(buf: Buffer, typ: Word, body: nat, bodyEnd: nat, info: Info): Option<Info>
    requires body <= bodyEnd <= |buf|
  {
    var seen := info.(extensions := info.extensions + [typ]);
    if typ == 0x0000 then Some(seen.(sni := true))
    else if typ == 0x002b then
      if body < bodyEnd then
        match VersionLoop(buf, body, bodyEnd, buf[body], 0, 0)
        case None => None
        case Some(best) => Some(if best != 0 then seen.(tlsVersion := best) else seen)
      else Some(seen)
    else if typ == 0x0010 then Some(seen.(alpn := seen.alpn + AlpnLoop(buf, body + 2, bodyEnd)))
    else if typ == 0x000d then Some(seen.(sigAlgs := seen.sigAlgs + SigAlgLoop(buf, body + 2, bodyEnd)))
    else Some(seen)
  }

  function ExtensionLoop(buf: Buffer, p: nat, extEnd: nat, info: Info): Option<Info>
    requires extEnd <= |buf|
    decreases extEnd - p
  {
    if p + 4 <= extEnd then
      var bodyEnd := MinNat(p + 4 + U16(buf, p + 2), extEnd);
      match ParseExtension(buf, U16(buf, p), p + 4, bodyEnd, info)
      case None => None
      case Some(next) => ExtensionLoop(buf, bodyEnd, extEnd, next)
    else Some(info)
  }

  /** Where the handshake starts: after a record header if there is one. */
  function HandshakeStart(buf: Buffer): Option<nat> {
    if |buf| > 0 && buf[0] == 0x16 then
      if |buf| < 5 then None else Some(5)
    else Some(0)
  }

  /** From the end of the compression methods on. */
  function ParseTail(buf: Buffer, p: nat, info: Info): Option<Info> {
    if p + 2 <= |buf| then
      ExtensionLoop(buf, p + 2, MinNat(p + 2 + U16(buf, p), |buf|), info)
    else Some(info)
  }

  /** From the length of the compression methods on. */
  function ParseCompression(buf: Buffer, p: nat, info: Info): Option<Info> {
    if p >= |buf| then None else ParseTail(buf, p + 1 + buf[p], info)
  }

  /** From the length of the cipher list on. */
  function ParseCiphers(buf: Buffer, p: nat, legacyVersion: Word): Option<Info> {
    if p + 2 > |buf| then None
    else
      var (ciphers, q) := CipherLoop(buf, p + 2, 0, U16(buf, p));
      ParseCompression(buf, q, Info(legacyVersion, false, ciphers, [], [], []))
  }

  /** From the session id length on. */
  function ParseBody(buf: Buffer, p: nat, legacyVersion: Word): Option<Info> {
    if p >= |buf| then None else ParseCiphers(buf, p + 1 + buf[p], legacyVersion)
  }

  function Parse(buf: Buffer): Option<Info> {
    match HandshakeStart(buf)
    case None => None
    case Some(p) =>
      if p >= |buf| || buf[p] != 0x01 then None
      else if p + 6 > |buf| then None
      else ParseBody(buf, p + 38, U16(buf, p + 4))
  }

  // ---------- the parser ----------

  method ReadCiphers(buf: Buffer, p0: nat, csLen: nat) returns (ciphers: seq<Word>, p: nat)
    ensures ciphers == CipherLoop(buf, p0, 0, csLen).0 && p == CipherLoop(buf, p0, 0, csLen).1
  {
    ciphers, p := [], p0;
    var i := 0;
    while i + 1 < csLen && p + 1 < |buf|
      invariant ciphers + CipherLoop(buf, p, i, csLen).0 == CipherLoop(buf, p0, 0, csLen).0
      invariant CipherLoop(buf, p, i, csLen).1 == CipherLoop(buf, p0, 0, csLen).1
      decreases csLen - i
    {
      ciphers := ciphers + [U16(buf, p)];
      p, i := p + 2, i + 2;
    }
  }

  method ReadVersions(buf: Buffer, body: nat, bodyEnd: nat) returns (best: Option<Word>)
    requires body < bodyEnd <= |buf|
    ensures best == VersionLoop(buf, body, bodyEnd, buf[body], 0, 0)
  {
    var listLen: nat := buf[body];
    var top: Word, i := 0, 0;
    while i + 1 < listLen && body + 1 + i + 1 < bodyEnd + 1
      invariant 0 <= i
      invariant VersionLoop(buf, body, bodyEnd, listLen, i, top) == VersionLoop(buf, body, bodyEnd, listLen, 0, 0)
      decreases listLen - i
    {
      if body + 1 + i + 1 >= |buf| { return None; }
      var v := U16(buf, body + 1 + i);
      if !IsGrease(v) && v > top && v <= 0x0304 { top := v; }
      i := i + 2;
    }
    return Some(top);
  }

  method ReadAlpn(buf: Buffer, body: nat, bodyEnd: nat, alpn0: seq<string>) returns (alpn: seq<string>)
    requires body <= bodyEnd <= |buf|
    ensures alpn == alpn0 + AlpnLoop(buf, body + 2, bodyEnd)
  {
    alpn := alpn0;
    var q := body + 2;
    while q < bodyEnd
      invariant alpn + AlpnLoop(buf, q, bodyEnd) == alpn0 + AlpnLoop(buf, body + 2, bodyEnd)
      decreases bodyEnd - q
    {
      var l := buf[q];
      if q + 1 + l > bodyEnd { break; }
      q := q + 1;
      alpn := alpn + [Ascii(buf[q..q + l])];
      q := q + l;
    }
  }

  method ReadSigAlgs(buf: Buffer, body: nat, bodyEnd: nat, sigAlgs0: seq<Word>) returns (sigAlgs: seq<Word>)
    requires body <= bodyEnd <= |buf|
    ensures sigAlgs == sigAlgs0 + SigAlgLoop(buf, body + 2, bodyEnd)
  {
    sigAlgs := sigAlgs0;
    var q := body + 2;
    while q + 1 < bodyEnd
      invariant sigAlgs + SigAlgLoop(buf, q, bodyEnd) == sigAlgs0 + SigAlgLoop(buf, body + 2, bodyEnd)
      decreases bodyEnd - q
    {
      sigAlgs := sigAlgs + [U16(buf, q)];
      q := q + 2;
    }
  }

  /** The extension loop, its locals being the fields of the result so far. */
  method ReadExtensions(buf: Buffer, p0: nat, extEnd: nat, info: Info) returns (r: Option<Info>)
    requires extEnd <= |buf|
    ensures r == ExtensionLoop(buf, p0, extEnd, info)
  {
    var p := p0;
    var acc := info;
    while p + 4 <= extEnd
      invariant ExtensionLoop(buf, p, extEnd, acc) == ExtensionLoop(buf, p0, extEnd, info)
      decreases extEnd - p
    {
      var typ := U16(buf, p);
      var len := U16(buf, p + 2);
      var body := p + 4;
      var bodyEnd := MinNat(body + len, extEnd);
      var seen := acc.(extensions := acc.extensions + [typ]);
      if typ == 0x0000 {
        acc := seen.(sni := true);
      } else if typ == 0x002b {
        if body < bodyEnd {
          var best := ReadVersions(buf, body, bodyEnd);
          if best == None { return None; }
          acc := if best.value != 0 then seen.(tlsVersion := best.value) else seen;
        } else {
          acc := seen;
        }
      } else if typ == 0x0010 {
        var alpn := ReadAlpn(buf, body, bodyEnd, seen.alpn);
        acc := seen.(alpn := alpn);
      } else if typ == 0x000d {
        var sigAlgs := ReadSigAlgs(buf, body, bodyEnd, seen.sigAlgs);
        acc := seen.(sigAlgs := sigAlgs);
      } else {
        acc := seen;
      }
      p := bodyEnd;
    }
    return Some(acc);
  }

  /** The part after the random: session id, ciphers, compression methods and extensions. */
  method ReadBody(buf: Buffer, p0: nat, legacyVersion: Word) returns (r: Option<Info>)
    ensures r == ParseBody(buf, p0, legacyVersion)
  {
    hide CipherLoop, ExtensionLoop, U16;
    var p := p0;
    if p >= |buf| { return None; }
    var sidLen := buf[p];
    p := p + 1 + sidLen;
    if p + 2 > |buf| { return None; }
    var csLen := U16(buf, p);
    var ciphers, q := ReadCiphers(buf, p + 2, csLen);
    p := q;
    if p >= |buf| { return None; }
    var compLen := buf[p];
    p := p + 1 + compLen;
    var info := Info(legacyVersion, false, ciphers, [], [], []);
    if p + 2 <= |buf| {
      var extTotal := U16(buf, p);
      p := p + 2;
      r := ReadExtensions(buf, p, MinNat(p + extTotal, |buf|), info);
    } else {
      r := Some(info);
    }
  }

  /** Any bytes give an Info or None; the cursor never leaves the buffer. */
  method ParseClientHello(buf: Buffer) returns (r: Option<Info>)
    ensures r == Parse(buf)
  {
    hide ParseBody, U16;
    var p := 0;
    if |buf| > 0 && buf[0] == 0x16 {
      if |buf| < 5 { return None; }
      p := 5;
    }
    if p >= |buf| || buf[p] != 0x01 { return None; }
    p := p + 4;
    if p + 2 > |buf| { return None; }
    var legacyVersion := U16(buf, p);
    p := p + 2 + 32;
    r := ReadBody(buf, p, legacyVersion);
  }
}
