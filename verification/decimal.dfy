/** Python's `str(n)` on an integer: the decimal digits of |n|, with a
    leading '-' when n is negative. A response code becomes a `responses`
    key through this rendering, so two codes share a key exactly when they
    are equal (`DecimalInjective`). */
module Decimal {

  predicate IsDigit(c: char) {
    '0' <= c <= '9'
  }

  function DigitChar(d: nat): (c: char)
    requires d < 10
    ensures IsDigit(c)
  {
    (d + '0' as int) as char
  }

  function DigitValue(c: char): (d: nat)
    requires IsDigit(c)
    ensures d < 10
  {
    c as int - '0' as int
  }

  /** No leading zero: the text starts with '0' only when it is "0". */
  predicate Canonical(s: string) {
    |s| > 0 && (s[0] == '0' ==> |s| == 1)
  }

  function NatToDecimal(n: nat): (r: string)
    ensures Canonical(r)
    ensures forall i :: 0 <= i < |r| ==> IsDigit(r[i])
    ensures r[0] == '0' ==> n == 0
    decreases n
  {
    if n < 10 then [DigitChar(n)] else NatToDecimal(n / 10) + [DigitChar(n % 10)]
  }

  /** A '-' comes first exactly for a negative number, and is followed by
      the canonical digits of a non-zero magnitude, so "-0" never occurs. */
  function IntToDecimal(n: int): (r: string)
    ensures |r| > 0
    ensures r[0] == '-' <==> n < 0
    ensures n >= 0 ==> Canonical(r) && forall i :: 0 <= i < |r| ==> IsDigit(r[i])
    ensures n < 0 ==> |r| > 1 && r[1] != '0' && Canonical(r[1..])
  {
    if n < 0 then "-" + NatToDecimal(-n) else NatToDecimal(n)
  }

  /** Reads a string of decimal digits back as a number. */
  function ParseNat(s: string): nat
    requires forall i :: 0 <= i < |s| ==> IsDigit(s[i])
    decreases |s|
  {
    if |s| == 0 then 0 else ParseNat(s[..|s| - 1]) * 10 + DigitValue(s[|s| - 1])
  }

  function ParseInt(s: string): int
    requires |s| > 0
    requires s[0] == '-' ==> forall i :: 1 <= i < |s| ==> IsDigit(s[i])
    requires s[0] != '-' ==> forall i :: 0 <= i < |s| ==> IsDigit(s[i])
  {
    if s[0] == '-' then -(ParseNat(s[1..]) as int) else ParseNat(s)
  }

  lemma {:induction false} NatToDecimalRoundTrip(n: nat)
    ensures ParseNat(NatToDecimal(n)) == n
    decreases n
  {
    if n >= 10 {
      NatToDecimalRoundTrip(n / 10);
      var s := NatToDecimal(n);
      assert s[..|s| - 1] == NatToDecimal(n / 10);
    }
  }

  /** Parsing the rendering of any integer gives the integer back. */
  lemma DecimalRoundTrip(n: int)
    ensures var s := IntToDecimal(n);
      (s[0] == '-' ==> forall i :: 1 <= i < |s| ==> IsDigit(s[i])) &&
      (s[0] != '-' ==> forall i :: 0 <= i < |s| ==> IsDigit(s[i])) &&
      ParseInt(s) == n
  {
    if n < 0 {
      var s := IntToDecimal(n);
      assert s[1..] == NatToDecimal(-n);
      NatToDecimalRoundTrip(-n);
    } else {
      NatToDecimalRoundTrip(n);
    }
  }

  /** A non-empty digit string with a non-zero first digit denotes a
      positive number. */
  lemma {:induction false} ParseNatPositive(s: string)
    requires |s| > 0 && forall i :: 0 <= i < |s| ==> IsDigit(s[i])
    requires s[0] != '0'
    ensures ParseNat(s) > 0
    decreases |s|
  {
    if |s| > 1 {
      ParseNatPositive(s[..|s| - 1]);
    }
  }

  /** `NatToDecimal` is the only canonical spelling of a number: any digit
      string without a leading zero that denotes `n` is `NatToDecimal(n)`. */
  lemma {:induction false} NatToDecimalUnique(s: string, n: nat)
    requires Canonical(s) && forall i :: 0 <= i < |s| ==> IsDigit(s[i])
    requires ParseNat(s) == n
    ensures s == NatToDecimal(n)
    decreases |s|
  {
    var init := s[..|s| - 1];
    var d := DigitValue(s[|s| - 1]);
    if |s| == 1 {
      assert ParseNat(init) == 0;
      assert DigitChar(d) == s[0];
    } else {
      assert init[0] == s[0];
      ParseNatPositive(init);
      assert n / 10 == ParseNat(init) && n % 10 == d;
      NatToDecimalUnique(init, n / 10);
      assert DigitChar(d) == s[|s| - 1];
      assert s == init + [s[|s| - 1]];
    }
  }

  /** Distinct integers are rendered as distinct strings. */
  lemma DecimalInjective(a: int, b: int)
    ensures IntToDecimal(a) == IntToDecimal(b) ==> a == b
  {
    DecimalRoundTrip(a);
    DecimalRoundTrip(b);
  }
}
