/** Lower-case hexadecimal: bytes as digit pairs, numbers in a fixed count of digits. */
module Hexadecimal {
  import opened Words

  predicate IsHexDigit(c: char) {
    '0' <= c <= '9' || 'a' <= c <= 'f'
  }

  function HexChar(d: nat): (c: char)
    requires d < 16
    ensures IsHexDigit(c)
  {
    if d < 10 then '0' + d as char else 'a' + (d - 10) as char
  }

  function HexOfChar(c: char): Option<nat> {
    if '0' <= c <= '9' then Some((c - '0') as nat)
    else if 'a' <= c <= 'f' then Some((c - 'a') as nat + 10)
    else None
  }

  lemma HexCharExact(d: nat, c: char)
    requires d < 16
    ensures HexOfChar(c) == Some(d) <==> c == HexChar(d)
  {
  }

  function HexText(bytes: seq<u8>): string {
    if bytes == [] then "" else [HexChar(bytes[0] / 16), HexChar(bytes[0] % 16)] + HexText(bytes[1..])
  }

  function HexBytes(raw: string): Option<seq<u8>> {
    if raw == "" then Some([])
    else if |raw| == 1 || HexOfChar(raw[0]).None? || HexOfChar(raw[1]).None? then None
    else
      var rest := HexBytes(raw[2..]);
      if rest.None? then None else Some([16 * HexOfChar(raw[0]).value + HexOfChar(raw[1]).value] + rest.value)
  }

  lemma HexDigitBound(c: char)
    ensures HexOfChar(c).Some? ==> HexOfChar(c).value < 16
  {
  }

  lemma {:induction false} HexBytesOfText(bytes: seq<u8>)
    ensures HexBytes(HexText(bytes)) == Some(bytes)
  {
    hide HexChar, HexOfChar;
    if bytes != [] {
      HexBytesOfText(bytes[1..]);
      HexCharExact(bytes[0] / 16, HexChar(bytes[0] / 16));
      HexCharExact(bytes[0] % 16, HexChar(bytes[0] % 16));
      assert HexText(bytes)[2..] == HexText(bytes[1..]);
      assert bytes == [bytes[0]] + bytes[1..];
    }
  }

  lemma {:induction false} HexTextOfBytes(raw: string)
    requires HexBytes(raw).Some?
    ensures HexText(HexBytes(raw).value) == raw
  {
    if raw != "" {
      HexTextOfBytes(raw[2..]);
      HexDigitBound(raw[0]);
      HexDigitBound(raw[1]);
      var high, low := HexOfChar(raw[0]).value, HexOfChar(raw[1]).value;
      HexCharExact(high, raw[0]);
      HexCharExact(low, raw[1]);
      hide HexChar, HexOfChar;
      var bytes := HexBytes(raw).value;
      assert bytes == [16 * high + low] + HexBytes(raw[2..]).value;
      assert bytes[1..] == HexBytes(raw[2..]).value;
      assert raw == [raw[0], raw[1]] + raw[2..];
    }
  }

  /** A number in a fixed count of digits, most significant first. */
  function HexDigits(n: nat, width: nat): (s: string)
    ensures |s| == width && forall c <- s :: IsHexDigit(c)
  {
    if width == 0 then "" else HexDigits(n / 16, width - 1) + [HexChar(n % 16)]
  }

  function HexValue(raw: string): Option<nat> {
    if raw == "" then Some(0)
    else
      var front, last := HexValue(raw[..|raw| - 1]), HexOfChar(raw[|raw| - 1]);
      if front.None? || last.None? then None else Some(16 * front.value + last.value)
  }

  function Power16(n: nat): nat {
    if n == 0 then 1 else 16 * Power16(n - 1)
  }

  lemma {:induction false} HexValueOfDigits(n: nat, width: nat)
    requires n < Power16(width)
    ensures |HexDigits(n, width)| == width && HexValue(HexDigits(n, width)) == Some(n)
  {
    if width > 0 {
      var front := HexDigits(n / 16, width - 1);
      HexValueOfDigits(n / 16, width - 1);
      HexCharExact(n % 16, HexChar(n % 16));
      assert (front + [HexChar(n % 16)])[..width - 1] == front;
    }
  }

  lemma {:induction false} HexDigitsOfValue(raw: string)
    requires HexValue(raw).Some?
    ensures HexDigits(HexValue(raw).value, |raw|) == raw
  {
    if raw != "" {
      var front, last := raw[..|raw| - 1], raw[|raw| - 1];
      HexDigitsOfValue(front);
      HexDigitBound(last);
      HexCharExact(HexOfChar(last).value, last);
      assert raw == front + [last];
    }
  }

  lemma {:induction false} HexValueBound(raw: string)
    ensures HexValue(raw).Some? ==> HexValue(raw).value < Power16(|raw|)
  {
    if raw != "" {
      HexValueBound(raw[..|raw| - 1]);
      HexDigitBound(raw[|raw| - 1]);
    }
  }

  lemma SixteenDigits()
    ensures Power16(16) == 0x1_0000_0000_0000_0000
  {
    assert Power16(8) == 0x1_0000_0000 by { assert Power16(4) == 0x1_0000; }
    assert Power16(12) == 0x1_0000 * Power16(8);
  }

  lemma EightDigits()
    ensures Power16(8) == 0x1_0000_0000
  {
    assert Power16(4) == 0x1_0000;
  }

  // ------------------------------------------------------------- digits as bytes

  function CodeOf(digit: char): (code: u8)
    requires IsHexDigit(digit)
    ensures 48 <= code <= 102
  {
    digit as int
  }

  /** The bytes of the digits, as they stand in a file. */
  function HexCodes(n: nat, width: nat): (codes: seq<u8>)
    ensures |codes| == width && forall b <- codes :: 48 <= b <= 102
  {
    var digits := HexDigits(n, width);
    seq(width, i requires 0 <= i < width && IsHexDigit(digits[i]) => CodeOf(digits[i]))
  }

  lemma HexCodesAreInjective(m: nat, n: nat, width: nat)
    requires m < Power16(width) && n < Power16(width) && HexCodes(m, width) == HexCodes(n, width)
    ensures m == n
  {
    var a, b := HexDigits(m, width), HexDigits(n, width);
    forall i | 0 <= i < width ensures a[i] == b[i] {
      assert CodeOf(a[i]) == HexCodes(m, width)[i] && CodeOf(b[i]) == HexCodes(n, width)[i];
    }
    assert a == b;
    HexValueOfDigits(m, width);
    HexValueOfDigits(n, width);
  }
}
