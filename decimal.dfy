/**
 * Decimal numerals as Python writes them: `str(n)` for a natural number and
 * `str.zfill(width)`, plus the value of a digit string, which is the inverse
 * used to prove that these numerals identify their numbers.
 */
module Decimal {

  /** The character of a digit value 0..9. */
  function DigitChar(d: nat): (c: char)
    requires d < 10
    ensures '0' <= c <= '9'
  {
    ('0' as int + d) as char
  }

  function DigitValue(c: char): (d: nat)
    requires '0' <= c <= '9'
    ensures d < 10
  {
    c as int - '0' as int
  }

  predicate IsDigits(s: string) {
    forall i :: 0 <= i < |s| ==> '0' <= s[i] <= '9'
  }

  /** `str(n)`: at least one digit, and no leading zero unless n is 0. */
  function Digits(n: nat): (s: string)
    ensures |s| >= 1 && IsDigits(s)
    ensures |s| > 1 ==> s[0] != '0'
  {
    if n < 10 then [DigitChar(n)] else Digits(n / 10) + [DigitChar(n % 10)]
  }

  /** The number a digit string denotes (leading zeros allowed). */
  function Value(s: string): nat
    requires IsDigits(s)
  {
    if s == [] then 0 else 10 * Value(s[..|s| - 1]) + DigitValue(s[|s| - 1])
  }

  /** A string of k zeros. */
  function Zeros(k: nat): (z: string)
    ensures |z| == k
  {
    if k == 0 then [] else Zeros(k - 1) + ['0']
  }

  /**
   * `s.zfill(width)` for a string without a sign: zeros on the left up to
   * `width` characters; a string already that long is unchanged.
   */
  function ZFill(s: string, width: nat): (r: string)
    ensures |r| == if |s| >= width then |s| else width
    ensures r[|r| - |s|..] == s
  {
    if |s| >= width then s else Zeros(width - |s|) + s
  }

  /** Reading back `str(n)` gives n. */
  lemma {:induction false} ValueOfDigits(n: nat)
    ensures Value(Digits(n)) == n
  {
    if n >= 10 {
      ValueOfDigits(n / 10);
      var s := Digits(n);
      assert s[..|s| - 1] == Digits(n / 10);
    }
  }

  /** Leading zeros do not change the value of a digit string. */
  lemma {:induction false} ValueIgnoresLeadingZeros(k: nat, s: string)
    requires IsDigits(s)
    ensures IsDigits(Zeros(k) + s)
    ensures Value(Zeros(k) + s) == Value(s)
  {
    var t := Zeros(k) + s;
    if s == [] {
      assert t == Zeros(k);
      ZerosHaveNoValue(k);
    } else {
      assert t[..|t| - 1] == Zeros(k) + s[..|s| - 1];
      ValueIgnoresLeadingZeros(k, s[..|s| - 1]);
    }
  }

  lemma {:induction false} ZerosHaveNoValue(k: nat)
    ensures IsDigits(Zeros(k)) && Value(Zeros(k)) == 0
  {
    if k > 0 {
      ZerosHaveNoValue(k - 1);
      var z := Zeros(k);
      assert z == Zeros(k - 1) + ['0'];
      assert z[..k - 1] == Zeros(k - 1);
      assert IsDigits(z);
    }
  }

  /** `str(n).zfill(w)` is a digit string that reads back as n. */
  lemma ValueOfZFill(n: nat, width: nat)
    ensures IsDigits(ZFill(Digits(n), width))
    ensures Value(ZFill(Digits(n), width)) == n
  {
    ValueOfDigits(n);
    var s := Digits(n);
    if |s| < width {
      ValueIgnoresLeadingZeros(width - |s|, s);
    }
  }

  /** Numbers below 1000 have at most three digits. */
  lemma {:induction false} DigitsBelowThousand(n: nat)
    requires n < 1000
    ensures |Digits(n)| <= 3
  {
    if n >= 10 {
      DigitsBelowThousand(n / 10);
      if n < 100 {
        assert n / 10 < 10;
      }
    }
  }

  /** Appending a digit to a positive number appends its character. */
  lemma DigitsAppend(n: nat, d: nat)
    requires 0 < n && d < 10
    ensures Digits(10 * n + d) == Digits(n) + [DigitChar(d)]
  {
    assert (10 * n + d) / 10 == n && (10 * n + d) % 10 == d;
  }

  /** `str(1234567890)`, the submission id of the repository's URL test. */
  lemma DigitsExample()
    ensures Digits(1234567890) == "1234567890"
  {
    DigitsAppend(1, 2);
    DigitsAppend(12, 3);
    DigitsAppend(123, 4);
    DigitsAppend(1234, 5);
    DigitsAppend(12345, 6);
    DigitsAppend(123456, 7);
    DigitsAppend(1234567, 8);
    DigitsAppend(12345678, 9);
    DigitsAppend(123456789, 0);
  }
}
