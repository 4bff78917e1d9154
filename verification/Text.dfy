/** Text as the programs see it: delimiter-separated fields and canonical
    decimal integers. A byte string is a sequence of characters whose codes are
    the byte values. */
module Text {
  import opened Words

  predicate IsAscii(s: string) {
    forall c | c in s :: c < 128 as char
  }

  // ---------------------------------------------------------------- splitting

  /** Rust's `split` and Python's `str.split` on one delimiter: a text with n
      delimiters has n + 1 fields, so even the empty text has one. */
  function Split(s: string, sep: char): (fields: seq<string>)
    ensures |fields| >= 1
  {
    if s == "" then [""]
    else if s[0] == sep then [""] + Split(s[1..], sep)
    else
      var rest := Split(s[1..], sep);
      [[s[0]] + rest[0]] + rest[1..]
  }

  function Join(fields: seq<string>, sep: char): string {
    if |fields| == 0 then ""
    else if |fields| == 1 then fields[0]
    else fields[0] + [sep] + Join(fields[1..], sep)
  }

  lemma {:induction false} JoinOfSplit(s: string, sep: char)
    ensures Join(Split(s, sep), sep) == s
  {
    if s != "" {
      var rest := Split(s[1..], sep);
      JoinOfSplit(s[1..], sep);
      if s[0] == sep {
        assert ([""] + rest)[1..] == rest;
      } else if |rest| > 1 {
        assert ([[s[0]] + rest[0]] + rest[1..])[1..] == rest[1..];
      }
    }
  }

  lemma {:induction false} SplitOfPrefixed(f: string, tail: string, sep: char)
    requires sep !in f
    ensures Split(f + [sep] + tail, sep) == [f] + Split(tail, sep)
  {
    if f == "" {
      assert (f + [sep] + tail)[1..] == tail;
    } else {
      assert (f + [sep] + tail)[1..] == f[1..] + [sep] + tail;
      SplitOfPrefixed(f[1..], tail, sep);
      assert [f[0]] + f[1..] == f;
    }
  }

  lemma {:induction false} SplitOfFree(f: string, sep: char)
    requires sep !in f
    ensures Split(f, sep) == [f]
  {
    if f != "" {
      SplitOfFree(f[1..], sep);
      assert [f[0]] + f[1..] == f;
    }
  }

  lemma {:induction false} SplitOfJoin(fields: seq<string>, sep: char)
    requires |fields| >= 1
    requires forall f | f in fields :: sep !in f
    ensures Split(Join(fields, sep), sep) == fields
  {
    if |fields| == 1 {
      SplitOfFree(fields[0], sep);
    } else {
      SplitOfJoin(fields[1..], sep);
      SplitOfPrefixed(fields[0], Join(fields[1..], sep), sep);
    }
  }

  lemma {:induction false} JoinOnlyUses(fields: seq<string>, sep: char, c: char)
    requires c in Join(fields, sep)
    ensures c == sep || exists f | f in fields :: c in f
  {
    if |fields| > 1 && c !in fields[0] && c != sep {
      JoinOnlyUses(fields[1..], sep, c);
    }
  }

  /** Rust's `split_once` and Python's `partition`: what stands before and after
      the first separator. */
  function Partition(s: string, sep: char): Option<(string, string)> {
    if s == "" then None
    else if s[0] == sep then Some(("", s[1..]))
    else
      var rest := Partition(s[1..], sep);
      if rest.None? then None else Some(([s[0]] + rest.value.0, rest.value.1))
  }

  lemma {:induction false} PartitionExactly(s: string, sep: char, field: string, value: string)
    requires sep !in field
    ensures Partition(s, sep) == Some((field, value)) <==> s == field + [sep] + value
    decreases |s|
  {
    if s == "" {
    } else if s[0] == sep {
      assert s == [sep] + s[1..];
      if field != "" {
        assert (field + [sep] + value)[0] == field[0];
      }
    } else {
      if field != "" {
        PartitionExactly(s[1..], sep, field[1..], value);
        assert s == [s[0]] + s[1..] && field == [field[0]] + field[1..];
        assert field + [sep] + value == [field[0]] + (field[1..] + [sep] + value);
      } else {
        assert ("" + [sep] + value)[0] == sep;
      }
    }
  }

  /** A text is cut at its first separator, and only there. */
  lemma {:induction false} PartitionCuts(s: string, sep: char)
    ensures match Partition(s, sep)
            case None => sep !in s
            case Some((field, value)) => sep !in field && s == field + [sep] + value
  {
    if s != "" {
      PartitionCuts(s[1..], sep);
      assert s == [s[0]] + s[1..];
    }
  }

  lemma {:induction false} NoSeparator(s: string, sep: char)
    requires sep !in s
    ensures Partition(s, sep).None?
  {
    if s != "" {
      NoSeparator(s[1..], sep);
    }
  }

  // ------------------------------------------------------------------ decimal

  predicate IsDigit(c: char) {
    '0' <= c <= '9'
  }

  predicate AllDigits(s: string) {
    forall c | c in s :: IsDigit(c)
  }

  function DigitChar(d: nat): char
    requires d < 10
  {
    '0' + d as char
  }

  function DigitValue(c: char): nat
    requires IsDigit(c)
  {
    (c - '0') as nat
  }

  /** The decimal numeral Rust's `{}` and Python's `str` print. */
  function Digits(n: nat): (s: string)
    ensures s != "" && AllDigits(s)
  {
    if n < 10 then [DigitChar(n)] else Digits(n / 10) + [DigitChar(n % 10)]
  }

  function Value(s: string): nat
    requires AllDigits(s)
  {
    if s == "" then 0
    else 10 * Value(s[..|s| - 1]) + DigitValue(s[|s| - 1])
  }

  /** `canonical_unsigned`: no sign, no leading zero, no empty numeral. */
  predicate CanonicalUnsigned(s: string) {
    s == "0" || (s != "" && '1' <= s[0] <= '9' && AllDigits(s[1..]))
  }

  lemma CanonicalIsDigits(s: string)
    requires CanonicalUnsigned(s)
    ensures s != "" && AllDigits(s)
  {
    forall c | c in s ensures IsDigit(c) {
      var i :| 0 <= i < |s| && s[i] == c;
      if i > 0 { assert s[1..][i - 1] == c; }
    }
  }

  lemma {:induction false} ValueOfDigits(n: nat)
    ensures Value(Digits(n)) == n
    ensures CanonicalUnsigned(Digits(n))
    ensures n > 0 ==> Digits(n)[0] != '0'
  {
    if n >= 10 {
      ValueOfDigits(n / 10);
      var s := Digits(n);
      assert s[..|s| - 1] == Digits(n / 10);
      assert n / 10 > 0;
      assert s[0] == Digits(n / 10)[0];
    } else if n > 0 {
      assert Digits(n)[1..] == "";
    }
  }

  lemma DigitsSnoc(front: nat, d: nat)
    requires front > 0 && d < 10
    ensures Digits(10 * front + d) == Digits(front) + [DigitChar(d)]
  {
    assert (10 * front + d) / 10 == front && (10 * front + d) % 10 == d;
  }

  lemma CanonicalFront(s: string)
    requires CanonicalUnsigned(s) && AllDigits(s) && |s| > 1
    ensures var front := s[..|s| - 1]; CanonicalUnsigned(front) && AllDigits(front) && front != "0"
  {
    var n := |s| - 1;
    assert s[..n][1..] == s[1..][..n - 1];
  }

  lemma {:induction false} DigitsOfValue(s: string)
    requires CanonicalUnsigned(s)
    requires AllDigits(s)
    ensures Digits(Value(s)) == s
    ensures s != "0" ==> Value(s) > 0
  {
    var n := |s| - 1;
    if n == 0 {
      assert s[..n] == "";
      assert Value(s) == DigitValue(s[0]);
    } else {
      var front := s[..n];
      CanonicalFront(s);
      hide CanonicalUnsigned, AllDigits;
      DigitsOfValue(front);
      DigitsSnoc(Value(front), DigitValue(s[n]));
      hide Digits;
      assert Value(s) == 10 * Value(front) + DigitValue(s[n]);
      assert s == front + [s[n]];
    }
  }

  function Pow10(k: nat): nat {
    if k == 0 then 1 else 10 * Pow10(k - 1)
  }

  lemma {:induction false} DigitsLength(n: nat, k: nat)
    requires 1 <= k && n < Pow10(k)
    ensures |Digits(n)| <= k
  {
    if n >= 10 { DigitsLength(n / 10, k - 1); }
  }
}
