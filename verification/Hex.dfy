/** Bytes and their hexadecimal text. */
module Hex {
  import opened Optional

  type Byte = x: int | 0 <= x < 256

  /** Lower-case digit. */
  function Digit(d: int): char
    requires 0 <= d < 16
  {
    "0123456789abcdef"[d]
  }

  predicate IsDigit(c: char) { '0' <= c <= '9' || 'a' <= c <= 'f' || 'A' <= c <= 'F' }

  /** Value of a digit in either case, 0 for other characters. */
  function DigitValue(c: char): (d: int)
    ensures 0 <= d < 16
  {
    if '0' <= c <= '9' then c as int - '0' as int
    else if 'a' <= c <= 'f' then c as int - 'a' as int + 10
    else if 'A' <= c <= 'F' then c as int - 'A' as int + 10
    else 0
  }

  lemma DigitRoundTrip(d: int)
    requires 0 <= d < 16
    ensures DigitValue(Digit(d)) == d && IsDigit(Digit(d)) && Digit(d) != '_'
  {
  }

  /** `bytesToHex`. */
  function Encode(b: seq<Byte>): (s: string)
    ensures |s| == 2 * |b|
  {
    if b == [] then "" else [Digit(b[0] / 16), Digit(b[0] % 16)] + Encode(b[1..])
  }

  /** The regular expression check of `hexToBytes`. */
  predicate IsHexText(s: string) { |s| % 2 == 0 && forall i | 0 <= i < |s| :: IsDigit(s[i]) }

  function Bytes(s: string): (b: seq<Byte>)
    requires |s| % 2 == 0
    ensures |b| == |s| / 2
  {
    if s == "" then [] else [DigitValue(s[0]) * 16 + DigitValue(s[1])] + Bytes(s[2..])
  }

  /** `hexToBytes`: None where it throws. */
  function Decode(s: string): Option<seq<Byte>> {
    if IsHexText(s) then Some(Bytes(s)) else None
  }

  function LowerChar(c: char): char {
    if 'A' <= c <= 'Z' then (c as int - 'A' as int + 'a' as int) as char else c
  }

  function Lower(s: string): (r: string)
    ensures |r| == |s| && forall i | 0 <= i < |s| :: r[i] == LowerChar(s[i])
  {
    seq(|s|, i requires 0 <= i < |s| => LowerChar(s[i]))
  }

  lemma {:induction false} EncodedBytes(b: seq<Byte>)
    ensures IsHexText(Encode(b)) && Bytes(Encode(b)) == b
  {
    hide Digit, DigitValue, IsDigit;
    if b != [] {
      EncodedBytes(b[1..]);
      DigitRoundTrip(b[0] / 16);
      DigitRoundTrip(b[0] % 16);
      assert Encode(b)[2..] == Encode(b[1..]);
      assert b == [b[0]] + b[1..];
    }
  }

  /** Decoding undoes encoding. */
  lemma DecodeEncode(b: seq<Byte>)
    ensures Decode(Encode(b)) == Some(b)
  {
    EncodedBytes(b);
  }

  lemma LowerDigit(c: char)
    requires IsDigit(c)
    ensures Digit(DigitValue(c)) == LowerChar(c)
  {
  }

  lemma LowerPair(c: char, d: char)
    requires IsDigit(c) && IsDigit(d)
    ensures var v := DigitValue(c) * 16 + DigitValue(d);
      v < 256 && Digit(v / 16) == LowerChar(c) && Digit(v % 16) == LowerChar(d)
  {
    hide Digit, LowerChar;
    LowerDigit(c);
    LowerDigit(d);
  }

  lemma EncodeFirst(x: Byte, rest: seq<Byte>)
    ensures Encode([x] + rest) == [Digit(x / 16), Digit(x % 16)] + Encode(rest)
  {
    hide Digit;
    assert ([x] + rest)[1..] == rest;
  }

  lemma BytesFirst(s: string)
    requires |s| % 2 == 0 && s != ""
    ensures Bytes(s) == [DigitValue(s[0]) * 16 + DigitValue(s[1])] + Bytes(s[2..])
  {
    hide DigitValue;
  }

  lemma LowerFirst(s: string)
    requires |s| >= 2
    ensures Lower(s) == [LowerChar(s[0]), LowerChar(s[1])] + Lower(s[2..])
  {
    hide LowerChar;
  }

  /** Encoding a decoded text gives it back in lower case. */
  lemma {:induction false} EncodeBytes(s: string)
    requires IsHexText(s)
    ensures Encode(Bytes(s)) == Lower(s)
  {
    hide Digit, DigitValue, LowerChar, IsDigit;
    if s != "" {
      hide Encode, Bytes, Lower;
      EncodeBytes(s[2..]);
      LowerPair(s[0], s[1]);
      BytesFirst(s);
      EncodeFirst(DigitValue(s[0]) * 16 + DigitValue(s[1]), Bytes(s[2..]));
      LowerFirst(s);
    }
  }

  /** Two hexadecimal texts agree up to letter case exactly when they spell the same bytes. */
  lemma LowerIsBytes(s: string, t: string)
    requires IsHexText(s) && IsHexText(t)
    ensures Lower(s) == Lower(t) <==> Bytes(s) == Bytes(t)
  {
    EncodeBytes(s);
    EncodeBytes(t);
    EncodedBytes(Bytes(s));
    EncodedBytes(Bytes(t));
    if Lower(s) == Lower(t) {
      assert Bytes(Encode(Bytes(s))) == Bytes(Encode(Bytes(t)));
    }
  }
}
