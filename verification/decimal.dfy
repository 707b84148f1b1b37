/**
 * Decimal text of integers: PHP's `strval`, the zero-padded fields that
 * SQLite's `strftime` and PHP's `DateTime::format` write, and reading a
 * digit string back as a number.
 */
module Decimal {

  predicate IsDigit(c: char) {
    '0' <= c <= '9'
  }

  predicate AllDigits(s: string) {
    forall i :: 0 <= i < |s| ==> IsDigit(s[i])
  }

  function DigitChar(d: nat): (c: char)
    requires d < 10
    ensures IsDigit(c) && c as int - '0' as int == d
  {
    ('0' as int + d) as char
  }

  function Pow10(k: nat): (p: nat)
    ensures p >= 1
  {
    if k == 0 then 1 else 10 * Pow10(k - 1)
  }

  /** `strval(n)` for a non-negative integer: its shortest decimal numeral. */
  function Digits(n: nat): (s: string)
    ensures AllDigits(s) && |s| >= 1
    decreases n
  {
    if n < 10 then [DigitChar(n)] else Digits(n / 10) + [DigitChar(n % 10)]
  }

  /** `strval(i)` for any integer: a minus sign before the digits of a negative number. */
  function IntText(i: int): string {
    if i < 0 then "-" + Digits(-i) else Digits(i)
  }

  /** The number a string of decimal digits denotes; leading zeros are allowed. */
  function Parse(s: string): nat
    requires AllDigits(s)
  {
    if s == [] then 0 else 10 * Parse(s[..|s| - 1]) + (s[|s| - 1] as int - '0' as int)
  }

  function Zeros(k: nat): (z: string)
    ensures |z| == k && AllDigits(z)
  {
    seq(k, _ => '0')
  }

  /** The digits of `n` left-padded with '0' to at least `w` characters. */
  function Pad(n: nat, w: nat): string {
    var d := Digits(n);
    if |d| >= w then d else Zeros(w - |d|) + d
  }

  /** Reading the numeral of `n` gives back `n`. */
  lemma {:induction false} ValueOfDigits(n: nat)
    ensures Parse(Digits(n)) == n
    decreases n
  {
    if n >= 10 {
      var s := Digits(n);
      assert s[..|s| - 1] == Digits(n / 10);
      ValueOfDigits(n / 10);
    }
  }

  /** The numeral of `n` has at most `k` digits exactly when `n` is below 10^k. */
  lemma {:induction false} DigitsLength(n: nat, k: nat)
    requires k >= 1
    ensures |Digits(n)| <= k <==> n < Pow10(k)
    decreases n
  {
    if n >= 10 {
      if k == 1 {
        assert |Digits(n)| == |Digits(n / 10)| + 1;
      } else {
        DigitsLength(n / 10, k - 1);
        assert n / 10 < Pow10(k - 1) <==> n < 10 * Pow10(k - 1);
      }
    } else {
      assert Pow10(k) == 10 * Pow10(k - 1);
    }
  }

  lemma {:induction false} ValueOfZeros(k: nat)
    ensures Parse(Zeros(k)) == 0
  {
    if k > 0 {
      assert Zeros(k)[..k - 1] == Zeros(k - 1);
      ValueOfZeros(k - 1);
    }
  }

  /** Leading zeros do not change the value of a digit string. */
  lemma {:induction false} ValueIgnoresLeadingZeros(k: nat, s: string)
    requires AllDigits(s)
    ensures AllDigits(Zeros(k) + s) && Parse(Zeros(k) + s) == Parse(s)
    decreases |s|
  {
    var z := Zeros(k) + s;
    assert AllDigits(z) by {
      forall i | 0 <= i < |z| ensures IsDigit(z[i]) {
        if i >= k { assert z[i] == s[i - k]; }
      }
    }
    if s == [] {
      assert z == Zeros(k);
      ValueOfZeros(k);
    } else {
      assert z[..|z| - 1] == Zeros(k) + s[..|s| - 1];
      ValueIgnoresLeadingZeros(k, s[..|s| - 1]);
    }
  }

  /** A padded numeral is all digits, reads back as `n`, and is exactly `w` long when `n` fits. */
  lemma PadFacts(n: nat, w: nat)
    ensures AllDigits(Pad(n, w)) && Parse(Pad(n, w)) == n
    ensures |Pad(n, w)| >= w
    ensures w >= 1 && n < Pow10(w) ==> |Pad(n, w)| == w
  {
    var d := Digits(n);
    ValueOfDigits(n);
    if |d| < w {
      ValueIgnoresLeadingZeros(w - |d|, d);
    }
    if w >= 1 {
      DigitsLength(n, w);
    }
  }

  /**
   * `strval(i)` equals the four-digit field of a year in 0..9999 exactly when
   * `i` is that year and has four digits: years below 1000 never match.
   */
  lemma YearTextMatches(i: int, year: nat)
    requires year <= 9999
    ensures IntText(i) == Pad(year, 4) <==> i == year && i >= 1000
  {
    PadFacts(year, 4);
    assert Pow10(4) == 10000 && Pow10(3) == 1000;
    if i >= 0 {
      ValueOfDigits(i);
      DigitsLength(i, 3);
      DigitsLength(i, 4);
    } else {
      assert IntText(i)[0] == '-';
      assert IsDigit(Pad(year, 4)[0]);
    }
  }
}
