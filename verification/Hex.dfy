/** Bytes and hexadecimal text as Node's Buffer converts them. */
module Hex {

  type Byte = x: int | 0 <= x < 256

  function HexDigit(d: nat): char
    requires d < 16
  {
    if d < 10 then '0' + d as char else 'a' + (d - 10) as char
  }

  predicate IsHexDigit(c: char) {
    '0' <= c <= '9' || 'a' <= c <= 'f' || 'A' <= c <= 'F'
  }

  function DigitValue(c: char): (d: nat)
    requires IsHexDigit(c)
    ensures d < 16
  {
    if c <= '9' then c as nat - '0' as nat
    else if 'a' <= c then 10 + c as nat - 'a' as nat
    else 10 + c as nat - 'A' as nat
  }

  /** `buffer.toString('hex')`. */
  function ToHex(bytes: seq<Byte>): string {
    if bytes == [] then "" else [HexDigit(bytes[0] / 16), HexDigit(bytes[0] % 16)] + ToHex(bytes[1..])
  }

  /** `Buffer.from(text, 'hex')`: whole pairs of digits up to the first thing that is not one. */
  function FromHex(text: string): seq<Byte> {
    if |text| < 2 || !IsHexDigit(text[0]) || !IsHexDigit(text[1]) then []
    else [16 * DigitValue(text[0]) + DigitValue(text[1])] + FromHex(text[2..])
  }

  /** The pattern `^[0-9a-fA-F]*$`. */
  predicate IsHexText(text: string) {
    forall i | 0 <= i < |text| :: IsHexDigit(text[i])
  }

  function LowerChar(c: char): char {
    if 'A' <= c <= 'F' then (c as int + 32) as char else c
  }

  function ToLower(text: string): string {
    seq(|text|, (i: nat) requires i < |text| => LowerChar(text[i]))
  }

  /** The text without the last digit when that has no partner. */
  function WholePairs(text: string): string {
    text[..|text| - |text| % 2]
  }

  /** The digits, and what they stand for: their place among the sixteen, in either case. */
  lemma DigitsExactly(c: char)
    ensures IsHexDigit(c) <==> c in "0123456789abcdefABCDEF"
    ensures IsHexDigit(c) ==>
              c == "0123456789abcdef"[DigitValue(c)] || c == "0123456789ABCDEF"[DigitValue(c)]
  {
    var lower, upper := "0123456789abcdef", "0123456789ABCDEF";
    if IsHexDigit(c) {
      assert c == lower[DigitValue(c)] || c == upper[DigitValue(c)];
      assert c in lower || c in upper;
    }
  }

  lemma DigitRoundTrip(d: nat)
    requires d < 16
    ensures IsHexDigit(HexDigit(d)) && DigitValue(HexDigit(d)) == d && LowerChar(HexDigit(d)) == HexDigit(d)
  {
  }

  lemma DigitReadBack(c: char)
    requires IsHexDigit(c)
    ensures HexDigit(DigitValue(c)) == LowerChar(c)
  {
  }

  /** Encoding doubles the length, uses lower-case digits only, and can be decoded again. */
  lemma {:induction false} BytesSurviveHex(bytes: seq<Byte>)
    ensures FromHex(ToHex(bytes)) == bytes
    ensures |ToHex(bytes)| == 2 * |bytes| && IsHexText(ToHex(bytes)) && ToLower(ToHex(bytes)) == ToHex(bytes)
  {
    if bytes != [] {
      var hi, lo, rest := bytes[0] / 16, bytes[0] % 16, ToHex(bytes[1..]);
      BytesSurviveHex(bytes[1..]);
      DigitRoundTrip(hi);
      DigitRoundTrip(lo);
      var text := [HexDigit(hi), HexDigit(lo)] + rest;
      hide HexDigit, DigitValue, LowerChar;
      assert text[2..] == rest;
      LowerPair(HexDigit(hi), HexDigit(lo), rest);
    }
  }

  lemma LowerPair(c: char, d: char, rest: string)
    ensures ToLower([c, d] + rest) == [LowerChar(c), LowerChar(d)] + ToLower(rest)
  {
  }

  lemma PairSplits(hi: nat, lo: nat)
    requires hi < 16 && lo < 16
    ensures (16 * hi + lo) / 16 == hi && (16 * hi + lo) % 16 == lo
  {
  }

  lemma PairReadBack(c: char, d: char, rest: seq<Byte>)
    requires IsHexDigit(c) && IsHexDigit(d)
    ensures ToHex([16 * DigitValue(c) + DigitValue(d)] + rest) == [LowerChar(c), LowerChar(d)] + ToHex(rest)
  {
    PairSplits(DigitValue(c), DigitValue(d));
    DigitReadBack(c);
    DigitReadBack(d);
    hide DigitValue, HexDigit, LowerChar, IsHexDigit;
    var bytes := [16 * DigitValue(c) + DigitValue(d)] + rest;
    assert bytes[1..] == rest;
  }

  /** Decoding keeps the whole pairs; encoding again gives their lower-case spelling. */
  lemma {:induction false} HexSurvivesBytes(text: string)
    requires IsHexText(text)
    ensures |FromHex(text)| == |text| / 2
    ensures ToHex(FromHex(text)) == ToLower(WholePairs(text))
  {
    if |text| >= 2 {
      var rest := text[2..];
      HexSurvivesBytes(rest);
      assert WholePairs(text) == [text[0], text[1]] + WholePairs(rest);
      LowerPair(text[0], text[1], WholePairs(rest));
      hide HexDigit, DigitValue, LowerChar, ToLower, WholePairs, ToHex;
      PairReadBack(text[0], text[1], FromHex(rest));
    } else {
      assert WholePairs(text) == "";
    }
  }

  /** Hex text comes back from its bytes, up to letter case, exactly when its length is even. */
  lemma HexReadBackExactlyWhenEven(text: string)
    requires IsHexText(text)
    ensures ToHex(FromHex(text)) == ToLower(text) <==> |text| % 2 == 0
  {
    HexSurvivesBytes(text);
    if |text| % 2 == 0 {
      assert WholePairs(text) == text;
    }
  }

  lemma HexStarts(bytes: seq<Byte>)
    requires bytes != []
    ensures ToHex(bytes) == ToHex([bytes[0]]) + ToHex(bytes[1..])
  {
    assert ToHex([]) == "";
  }

  lemma {:induction false} HexOfConcat(a: seq<Byte>, b: seq<Byte>)
    ensures ToHex(a + b) == ToHex(a) + ToHex(b)
  {
    if a == [] {
      assert a + b == b && ToHex(a) == "";
    } else {
      HexOfConcat(a[1..], b);
      assert (a + b)[1..] == a[1..] + b;
      HexStarts(a);
      HexStarts(a + b);
      hide ToHex;
    }
  }
}
