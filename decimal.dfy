/** Decimal spelling of non-negative integers, as `String.format("%06d", n)`
    produces it for the account numbers and transaction identifiers under a
    default locale whose zero digit is '0'. */
module Decimal {

  predicate IsDigit(c: char) { '0' <= c <= '9' }

  predicate AllDigits(s: string) { forall i :: 0 <= i < |s| ==> IsDigit(s[i]) }

  function DigitValue(c: char): (d: nat)
    requires IsDigit(c)
    ensures d < 10
  {
    c as int - '0' as int
  }

  function DigitChar(d: nat): (c: char)
    requires d < 10
    ensures IsDigit(c) && DigitValue(c) == d
  {
    ('0' as int + d) as char
  }

  function Pow10(k: nat): (p: nat)
    ensures p >= 1
  {
    if k == 0 then 1 else 10 * Pow10(k - 1)
  }

  /** The shortest decimal spelling of n, most significant digit first. */
  function Digits(n: nat): (s: string)
    ensures 1 <= |s| && AllDigits(s)
    decreases n
  {
    if n < 10 then [DigitChar(n)] else Digits(n / 10) + [DigitChar(n % 10)]
  }

  function Zeros(k: nat): (s: string)
    ensures |s| == k && forall i :: 0 <= i < k ==> s[i] == '0'
  {
    seq(k, _ => '0')
  }

  /** `%06d`: the digits of n, padded on the left with '0' to a width of six.
      A number of seven or more digits is printed in full. */
  function Pad6(n: nat): (s: string)
    ensures 6 <= |s| && AllDigits(s)
  {
    var d := Digits(n);
    if |d| < 6 then Zeros(6 - |d|) + d else d
  }

  /** The number a string of digits denotes. */
  function Value(s: string): nat
    requires AllDigits(s)
  {
    if s == [] then 0 else Value(s[..|s| - 1]) * 10 + DigitValue(s[|s| - 1])
  }

  lemma {:induction false} ValueOfDigits(n: nat)
    ensures Value(Digits(n)) == n
    decreases n
  {
    if n >= 10 {
      var d := Digits(n / 10);
      var s := d + [DigitChar(n % 10)];
      assert Digits(n) == s;
      assert s[..|s| - 1] == d;
      ValueOfDigits(n / 10);
    }
  }

  lemma {:induction false} ValueOfZeros(k: nat)
    ensures Value(Zeros(k)) == 0
  {
    if k > 0 {
      assert Zeros(k)[..k - 1] == Zeros(k - 1);
      ValueOfZeros(k - 1);
    }
  }

  /** Leading zeros do not change the value of a digit string. */
  lemma {:induction false} ValueIgnoresLeadingZeros(k: nat, s: string)
    requires AllDigits(s)
    ensures AllDigits(Zeros(k) + s) && Value(Zeros(k) + s) == Value(s)
    decreases |s|
  {
    var z := Zeros(k) + s;
    assert AllDigits(z) by {
      forall i | 0 <= i < |z| ensures IsDigit(z[i]) {
        if i >= k { assert z[i] == s[i - k]; }
      }
    }
    if s == [] {
      assert z == Zeros(k);
      ValueOfZeros(k);
    } else {
      var t := s[..|s| - 1];
      assert z[..|z| - 1] == Zeros(k) + t;
      assert z[|z| - 1] == s[|s| - 1];
      ValueIgnoresLeadingZeros(k, t);
    }
  }

  /** Reading back a `%06d` spelling gives the number that was printed. */
  lemma Pad6RoundTrip(n: nat)
    ensures Value(Pad6(n)) == n
  {
    ValueOfDigits(n);
    var d := Digits(n);
    if |d| < 6 {
      ValueIgnoresLeadingZeros(6 - |d|, d);
    }
  }

  lemma Pad6Injective(m: nat, n: nat)
    ensures Pad6(m) == Pad6(n) <==> m == n
  {
    Pad6RoundTrip(m);
    Pad6RoundTrip(n);
  }

  /** n has at most k digits exactly when n < 10^k. */
  lemma {:induction false} DigitsLength(n: nat, k: nat)
    requires 1 <= k
    ensures |Digits(n)| <= k <==> n < Pow10(k)
    decreases n
  {
    if n >= 10 {
      assert Digits(n) == Digits(n / 10) + [DigitChar(n % 10)];
      if k == 1 {
        assert Pow10(1) == 10;
      } else {
        DigitsLength(n / 10, k - 1);
        assert Pow10(k) == 10 * Pow10(k - 1);
      }
    } else {
      assert Pow10(k) == 10 * Pow10(k - 1);
    }
  }

  /** `%06d` is exactly six characters wide for the numbers below one million. */
  lemma Pad6Width(n: nat)
    ensures |Pad6(n)| == 6 <==> n < 1000000
  {
    DigitsLength(n, 6);
    assert Pow10(6) == 1000000 by {
      assert Pow10(2) == 100;
      assert Pow10(4) == 10000;
    }
  }

  /** A shortest spelling has no leading zero, except for zero itself. */
  lemma {:induction false} DigitsLeading(n: nat)
    ensures Digits(n)[0] == '0' <==> n == 0
    decreases n
  {
    if n >= 10 {
      assert Digits(n) == Digits(n / 10) + [DigitChar(n % 10)];
      DigitsLeading(n / 10);
    }
  }

  /** `%06d` pads exactly the numbers below 100000; from six digits on it
      prints the shortest spelling in full, without a leading zero. */
  lemma Pad6Long(n: nat)
    ensures n >= 100000 <==> Pad6(n) == Digits(n)
    ensures n >= 100000 ==> Pad6(n)[0] != '0'
  {
    DigitsLength(n, 5);
    assert Pow10(5) == 100000 by {
      assert Pow10(2) == 100;
      assert Pow10(4) == 10000;
    }
    DigitsLeading(n);
  }
}
