/**
 * The share-count check shared by the buy and sell forms: the submitted text
 * must consist of decimal digits only and denote a number greater than zero
 * (`shares.isdigit() and int(shares) > 0`).
 */
module Shares {
  import opened Wrappers

  predicate IsDigit(c: char) {
    '0' <= c <= '9'
  }

  /** `str.isdigit()` restricted to ASCII: non-empty and digits only. */
  predicate IsDigitString(s: string) {
    |s| > 0 && forall i :: 0 <= i < |s| ==> IsDigit(s[i])
  }

  predicate HasNonZeroDigit(s: string) {
    exists i :: 0 <= i < |s| && s[i] != '0'
  }

  /** The value `int(s)` gives a string of decimal digits (leading zeros allowed). */
  function DigitsValue(s: string): nat
    requires forall i :: 0 <= i < |s| ==> IsDigit(s[i])
  {
    if s == [] then 0
    else
      assert IsDigit(s[|s| - 1]);
      10 * DigitsValue(s[..|s| - 1]) + (s[|s| - 1] as int - '0' as int)
  }

  /** A string of digits denotes zero exactly when every digit is '0'. */
  lemma {:induction false} ZeroIffAllZeros(s: string)
    requires forall i :: 0 <= i < |s| ==> IsDigit(s[i])
    ensures DigitsValue(s) == 0 <==> !HasNonZeroDigit(s)
  {
    if s != [] {
      var init := s[..|s| - 1];
      ZeroIffAllZeros(init);
      if HasNonZeroDigit(init) {
        var i :| 0 <= i < |init| && init[i] != '0';
        assert s[i] != '0';
      }
      if HasNonZeroDigit(s) && s[|s| - 1] == '0' {
        var i :| 0 <= i < |s| && s[i] != '0';
        assert init[i] != '0';
      }
    }
  }

  /**
   * The parsed share count, or None when the form must be rejected with
   * "Must provide a positive number of shares."
   */
  function ParseShares(s: string): (r: Option<nat>)
    ensures r.Some? <==> IsDigitString(s) && HasNonZeroDigit(s)
    ensures r.Some? ==> 0 < r.value
  {
    if !IsDigitString(s) then None
    else
      ZeroIffAllZeros(s);
      if DigitsValue(s) == 0 then None else Some(DigitsValue(s))
  }

  /** The canonical decimal text of a count, as a user would type it. */
  function Decimal(n: nat): string {
    if n < 10 then [('0' as int + n) as char]
    else Decimal(n / 10) + [('0' as int + n % 10) as char]
  }

  lemma {:induction false} DecimalDigits(n: nat)
    ensures IsDigitString(Decimal(n))
    ensures DigitsValue(Decimal(n)) == n
  {
    if n >= 10 {
      DecimalDigits(n / 10);
      var d := Decimal(n);
      assert d[..|d| - 1] == Decimal(n / 10);
    }
  }

  /** Typing the decimal text of a positive count is accepted and yields that count. */
  lemma ParseDecimal(n: nat)
    requires 0 < n
    ensures ParseShares(Decimal(n)) == Some(n)
  {
    DecimalDigits(n);
  }

  lemma {:induction false} LeadingZeroValue(s: string)
    requires forall i :: 0 <= i < |s| ==> IsDigit(s[i])
    ensures DigitsValue("0" + s) == DigitsValue(s)
  {
    if s != [] {
      var t := "0" + s;
      assert t[..|t| - 1] == "0" + s[..|s| - 1];
      LeadingZeroValue(s[..|s| - 1]);
    }
  }

  /** Leading zeros change nothing: "007" is accepted as 7 and "00" is rejected like "0". */
  lemma LeadingZeroIgnored(s: string)
    requires IsDigitString(s)
    ensures ParseShares("0" + s) == ParseShares(s)
  {
    LeadingZeroValue(s);
  }
}
