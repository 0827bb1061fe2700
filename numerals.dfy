/**
  Decimal numerals as JavaScript writes and reads them for array indices:
  `String(index)` for a natural number, the canonical index keys an array
  accepts in `array[key]`, and `String(n)` for an integer.
 */
module Numerals {

  predicate IsDigit(c: char) {
    '0' <= c <= '9'
  }

  predicate AllDigits(s: string) {
    forall i :: 0 <= i < |s| ==> IsDigit(s[i])
  }

  function DigitChar(d: nat): (c: char)
    requires d < 10
    ensures IsDigit(c) && DigitValue(c) == d
  {
    (d + '0' as int) as char
  }

  function DigitValue(c: char): nat
    requires IsDigit(c)
  {
    c as int - '0' as int
  }

  /** `String(n)` for a natural number: decimal digits, no sign, no leading zero. */
  function NatToString(n: nat): (s: string)
    ensures |s| > 0 && AllDigits(s)
    decreases n
  {
    if n < 10 then [DigitChar(n)] else NatToString(n / 10) + [DigitChar(n % 10)]
  }

  /** The value of a string of decimal digits, read most significant digit first. */
  function ParseDigits(s: string): nat
    requires AllDigits(s)
    decreases |s|
  {
    if s == [] then 0 else ParseDigits(s[..|s| - 1]) * 10 + DigitValue(s[|s| - 1])
  }

  /**
    The keys under which a JavaScript array exposes its elements: the
    canonical decimal form of a natural number ("0", "7", "12"), never
    with a sign, a leading zero ("01") or any other character.
   */
  predicate IsIndexKey(s: string) {
    |s| > 0 && AllDigits(s) && (s[0] == '0' ==> |s| == 1)
  }

  /** Reading back what `String(n)` wrote gives `n`. */
  lemma {:induction false} ParseNatToString(n: nat)
    ensures ParseDigits(NatToString(n)) == n
    decreases n
  {
    if n >= 10 {
      var s := NatToString(n);
      assert s[..|s| - 1] == NatToString(n / 10);
      ParseNatToString(n / 10);
    }
  }

  lemma {:induction false} NatToStringLeadingDigit(n: nat)
    ensures NatToString(n)[0] == '0' <==> n == 0
    decreases n
  {
    if n >= 10 {
      NatToStringLeadingDigit(n / 10);
    }
  }

  /** `String(index)` is always a key that array lookup accepts, for that very index. */
  lemma NatToStringIsIndexKey(n: nat)
    ensures IsIndexKey(NatToString(n))
    ensures ParseDigits(NatToString(n)) == n
  {
    NatToStringLeadingDigit(n);
    ParseNatToString(n);
  }

  lemma {:induction false} ParseDigitsPositive(s: string)
    requires |s| > 0 && AllDigits(s) && s[0] != '0'
    ensures ParseDigits(s) >= 1
    decreases |s|
  {
    if |s| > 1 {
      ParseDigitsPositive(s[..|s| - 1]);
    }
  }

  /** Every index key is `String` of the index it denotes: the converse of NatToStringIsIndexKey. */
  lemma {:induction false} IndexKeyRoundTrip(s: string)
    requires IsIndexKey(s)
    ensures NatToString(ParseDigits(s)) == s
    decreases |s|
  {
    if |s| > 1 {
      var p := s[..|s| - 1];
      ParseDigitsPositive(p);
      IndexKeyRoundTrip(p);
      var n := ParseDigits(s);
      assert n / 10 == ParseDigits(p) && n % 10 == DigitValue(s[|s| - 1]);
      assert s == p + [s[|s| - 1]];
    }
  }

  lemma NatToStringInjective(m: nat, n: nat)
    ensures NatToString(m) == NatToString(n) <==> m == n
  {
    ParseNatToString(m);
    ParseNatToString(n);
  }

  /** `String(n)` for an integer: a minus sign before the digits of a negative number. */
  function IntToString(n: int): (s: string)
    ensures |s| > 0 && (s[0] == '-' || IsDigit(s[0]))
  {
    if n < 0 then "-" + NatToString(-n) else NatToString(n)
  }

  /**
    What `String(n)` shows: for `n >= 0` the canonical digits of `n`; for
    a negative `n` a minus sign followed by the canonical digits of `-n`.
   */
  lemma IntToStringValue(n: int)
    ensures n >= 0 ==> IsIndexKey(IntToString(n)) && ParseDigits(IntToString(n)) == n
    ensures n < 0 ==> IntToString(n)[0] == '-' && IsIndexKey(IntToString(n)[1..])
                      && ParseDigits(IntToString(n)[1..]) == -n
  {
    if n >= 0 {
      NatToStringIsIndexKey(n);
    } else {
      assert IntToString(n)[1..] == NatToString(-n);
      NatToStringIsIndexKey(-n);
    }
  }

  lemma IntToStringInjective(m: int, n: int)
    ensures IntToString(m) == IntToString(n) <==> m == n
  {
    if IntToString(m) == IntToString(n) {
      if m < 0 && n < 0 {
        assert IntToString(m)[1..] == NatToString(-m);
        assert IntToString(n)[1..] == NatToString(-n);
        NatToStringInjective(-m, -n);
      } else if m >= 0 && n >= 0 {
        NatToStringInjective(m, n);
      }
    }
  }
}
