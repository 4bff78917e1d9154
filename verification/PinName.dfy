/** The stack-only decimal writer behind numbered HAL pin names. */
module PinName {
  import opened Words
  import opened Text
  import opened Protocol

  const HAL_NAME_LEN := 47

  function Reversed(s: string): (r: string)
    ensures |r| == |s|
    ensures forall i | 0 <= i < |s| :: r[i] == s[|s| - 1 - i]
  {
    if s == "" then "" else Reversed(s[1..]) + [s[0]]
  }

  function Zeros(n: nat): string {
    seq(n, _ => '\0')
  }

  lemma DigitsUnfold(n: nat)
    ensures Digits(n) == if n / 10 > 0 then Digits(n / 10) + [DigitChar(n % 10)] else [DigitChar(n % 10)]
  {
    assert n / 10 > 0 <==> n >= 10;
  }

  lemma Regroup(front: string, last: string, rest: string)
    ensures (front + last) + rest == front + (last + rest)
  {
  }

  /** One more digit, as far as the numeral has been reversed. */
  lemma NextDigit(value: nat, remaining: nat, before: string)
    requires if before == "" then remaining == value else Digits(value) == Digits(remaining) + Reversed(before)
    ensures var after := Reversed(before + [DigitChar(remaining % 10)]);
            Digits(value) == if remaining / 10 > 0 then Digits(remaining / 10) + after else after
  {
    DigitsUnfold(remaining);
    ReversedSnoc(before, DigitChar(remaining % 10));
    assert before == "" ==> Reversed(before) == "" && Digits(value) == Digits(remaining) + "";
    hide Digits, DigitChar, Reversed;
    Regroup(Digits(remaining / 10), [DigitChar(remaining % 10)], Reversed(before));
  }

  lemma Shrinks(n: nat, k: nat)
    requires k > 0 && n < Pow10(k)
    ensures n / 10 < Pow10(k - 1) && (k == 1 ==> n / 10 == 0)
  {
  }

  /** The digit loop: least significant digit first, never past the buffer. */
  method ReversedNumeral(value: u32) returns (reversed: array<char>, digits: nat)
    ensures fresh(reversed) && digits <= reversed.Length == 10
    ensures reversed[..digits] == Reversed(Digits(value))
  {
    reversed := new char[10](_ => '\0');
    var remaining: nat := value;
    digits := 0;
    Powers();
    hide Digits, DigitChar, Reversed, Pow10;
    while true
      invariant digits <= 9 && remaining < Pow10(10 - digits)
      invariant if digits == 0 then remaining == value else remaining > 0
      invariant digits > 0 ==> Digits(value) == Digits(remaining) + Reversed(reversed[..digits])
      decreases remaining
    {
      ghost var before := reversed[..digits];
      NextDigit(value, remaining, before);
      Shrinks(remaining, 10 - digits);
      reversed[digits] := DigitChar(remaining % 10);
      digits := digits + 1;
      assert reversed[..digits] == before + [DigitChar(remaining % 10)];
      remaining := remaining / 10;
      if remaining == 0 {
        break;
      }
    }
    ReversedTwice(reversed[..digits]);
  }

  /** Builds the name a numbered pin is registered under. The ten-byte scratch
      buffer holds every u32, the name ends in at least one NUL, and the digits
      written are the numeral that reads back as `value`. */
  method NumberedPinName(prefix: string, value: u32) returns (ok: bool, name: array<char>)
    ensures ok <==> |prefix| + |Digits(value)| <= HAL_NAME_LEN
    ensures name.Length == HAL_NAME_LEN + 1
    ensures ok ==> NameHolds(name[..], prefix, value)
  {
    name := new char[HAL_NAME_LEN + 1](_ => '\0');
    var reversed, digits := ReversedNumeral(value);
    var end := |prefix| + digits;
    if end > HAL_NAME_LEN {
      return false, name;
    }
    ghost var numeral := Digits(value);
    for index := 0 to |prefix|
      invariant forall i | 0 <= i < index :: name[i] == prefix[i]
      invariant forall i | index <= i < name.Length :: name[i] == '\0'
      invariant reversed[..digits] == Reversed(numeral)
    {
      name[index] := prefix[index];
    }
    for index := 0 to digits
      invariant forall i | 0 <= i < |prefix| :: name[i] == prefix[i]
      invariant forall i | 0 <= i < index :: name[|prefix| + i] == numeral[i]
      invariant forall i | |prefix| + index <= i < name.Length :: name[i] == '\0'
      invariant reversed[..digits] == Reversed(numeral)
    {
      assert reversed[digits - index - 1] == reversed[..digits][digits - index - 1];
      name[|prefix| + index] := reversed[digits - index - 1];
    }
    NameReadsBack(name[..], prefix, value);
    return true, name;
  }

  predicate NameHolds(name: string, prefix: string, value: u32) {
    var end := |prefix| + |Digits(value)|;
    && end < |name|
    && name == prefix + Digits(value) + Zeros(|name| - end)
    && ParseU32(name[|prefix|..end]) == Ok(value)
  }

  lemma NameReadsBack(name: string, prefix: string, value: u32)
    requires |prefix| + |Digits(value)| < |name|
    requires forall i | 0 <= i < |prefix| :: name[i] == prefix[i]
    requires forall i | 0 <= i < |Digits(value)| :: name[|prefix| + i] == Digits(value)[i]
    requires forall i | |prefix| + |Digits(value)| <= i < |name| :: name[i] == '\0'
    ensures NameHolds(name, prefix, value)
  {
    assert name[|prefix|..|prefix| + |Digits(value)|] == Digits(value);
    ParseU32Exact(Digits(value), value);
  }

  lemma ReversedSnoc(s: string, c: char)
    ensures Reversed(s + [c]) == [c] + Reversed(s)
  {
  }

  lemma ReversedTwice(s: string)
    ensures Reversed(Reversed(s)) == s
  {
  }
}
