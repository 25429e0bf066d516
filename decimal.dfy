/**
 * Decimal text of non-negative integers, as Python's `str(int)` writes it and `int(str)` reads it,
 * and the shape of a reset code: `str(random.randint(100000, 999999))`.
 */
module Decimal {

  predicate IsDigit(c: char) { '0' <= c <= '9' }

  predicate AllDigits(s: string) { forall i | 0 <= i < |s| :: IsDigit(s[i]) }

  function DigitChar(d: nat): (c: char)
    requires d < 10
    ensures IsDigit(c)
  {
    ('0' as int + d) as char
  }

  function DigitValue(c: char): (d: nat)
    requires IsDigit(c)
    ensures d < 10 && DigitChar(d) == c
  {
    c as int - '0' as int
  }

  function Pow10(k: nat): (p: nat)
    ensures p >= 1
  {
    if k == 0 then 1 else 10 * Pow10(k - 1)
  }

  /** `str(n)`: the digits of n, most significant first, with no leading zero. */
  function DecimalString(n: nat): (s: string)
    ensures |s| >= 1 && AllDigits(s)
  {
    if n < 10 then [DigitChar(n)] else DecimalString(n / 10) + [DigitChar(n % 10)]
  }

  /** `int(s)` for a string of decimal digits. */
  function ParseDecimal(s: string): (n: nat)
    requires AllDigits(s)
  {
    if s == [] then 0 else ParseDecimal(s[..|s| - 1]) * 10 + DigitValue(s[|s| - 1])
  }

  /** The bounds of `random.randint(100000, 999999)`, both inclusive. */
  const OtpLow: nat := 100000
  const OtpHigh: nat := 999999

  /** Six decimal digits, the first not a zero. */
  predicate IsOtpCode(s: string)
  {
    |s| == 6 && AllDigits(s) && s[0] != '0'
  }

  /** Reading back what `str` wrote gives the number again. */
  lemma {:induction false} ParseDecimalString(n: nat)
    ensures ParseDecimal(DecimalString(n)) == n
  {
    if n >= 10 {
      var s := DecimalString(n);
      assert s[..|s| - 1] == DecimalString(n / 10);
      ParseDecimalString(n / 10);
    }
  }

  /** `str` never writes a leading zero for a positive number. */
  lemma {:induction false} LeadingDigitNonZero(n: nat)
    requires n >= 1
    ensures DecimalString(n)[0] != '0'
  {
    if n >= 10 {
      LeadingDigitNonZero(n / 10);
    }
  }

  /** A number with k digits is written with exactly k characters. */
  lemma {:induction false} DecimalStringLength(n: nat, k: nat)
    requires 1 <= k && Pow10(k - 1) <= n < Pow10(k)
    ensures |DecimalString(n)| == k
  {
    if n >= 10 {
      assert Pow10(k - 1) == 10 * Pow10(k - 2);
      DecimalStringLength(n / 10, k - 1);
    }
  }

  /** Every draw of the code generator is written as a six-digit code. */
  lemma DrawIsOtpCode(n: nat)
    requires OtpLow <= n <= OtpHigh
    ensures IsOtpCode(DecimalString(n))
  {
    assert Pow10(5) == 100000 && Pow10(6) == 1000000;
    DecimalStringLength(n, 6);
    LeadingDigitNonZero(n);
  }

  /** A digit string with a non-zero lead has as many digits as its value. */
  lemma {:induction false} ParseDecimalBounds(s: string)
    requires |s| >= 1 && AllDigits(s) && s[0] != '0'
    ensures Pow10(|s| - 1) <= ParseDecimal(s) < Pow10(|s|)
  {
    var k := |s|;
    if k == 1 {
      assert s[..0] == [];
    } else {
      var init := s[..k - 1];
      assert init[0] == s[0];
      ParseDecimalBounds(init);
    }
  }

  /** Writing back what was read from a digit string without a leading zero gives the string again. */
  lemma {:induction false} DecimalStringOfParse(s: string)
    requires |s| >= 1 && AllDigits(s) && s[0] != '0'
    ensures DecimalString(ParseDecimal(s)) == s
  {
    var k := |s|;
    if k == 1 {
      assert s[..0] == [];
      assert s == [DigitChar(DigitValue(s[0]))];
    } else {
      var init := s[..k - 1];
      assert init[0] == s[0];
      ParseDecimalBounds(init);
      DecimalStringOfParse(init);
      var n := ParseDecimal(s);
      assert n / 10 == ParseDecimal(init) && n % 10 == DigitValue(s[k - 1]);
      assert s == init + [s[k - 1]];
    }
  }

  /** The six-digit codes are exactly the texts of the generator's draws. */
  lemma OtpCodeIsDraw(s: string)
    ensures IsOtpCode(s) <==> exists n: nat :: OtpLow <= n <= OtpHigh && DecimalString(n) == s
  {
    if IsOtpCode(s) {
      ParseDecimalBounds(s);
      DecimalStringOfParse(s);
      assert Pow10(5) == 100000 && Pow10(6) == 1000000;
      var n := ParseDecimal(s);
      assert OtpLow <= n <= OtpHigh && DecimalString(n) == s;
    }
    if exists n: nat :: OtpLow <= n <= OtpHigh && DecimalString(n) == s {
      var n: nat :| OtpLow <= n <= OtpHigh && DecimalString(n) == s;
      DrawIsOtpCode(n);
    }
  }
}
