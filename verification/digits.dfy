/** Decimal digit strings: the ASCII subset of what Python's `int()` and
    `str()` read and write for non-negative integers. */
module Digits {

  predicate IsDigit(c: char) {
    '0' <= c <= '9'
  }

  predicate AllDigits(s: string) {
    forall i | 0 <= i < |s| :: IsDigit(s[i])
  }

  function DigitValue(c: char): (d: nat)
    requires IsDigit(c)
    ensures d < 10
  {
    (c as int) - ('0' as int)
  }

  function DigitChar(d: nat): (c: char)
    requires d < 10
    ensures IsDigit(c) && DigitValue(c) == d
  {
    (('0' as int) + d) as char
  }

  function Pow10(n: nat): (p: nat)
    ensures p >= 1
  {
    if n == 0 then 1 else 10 * Pow10(n - 1)
  }

  /** The number a string of digits denotes, read most significant first */
  function ValueOf(s: string): (v: nat)
    requires AllDigits(s)
    ensures v < Pow10(|s|)
  {
    if s == [] then 0
    else ValueOf(s[..|s| - 1]) * 10 + DigitValue(s[|s| - 1])
  }

  /** Python's `str(n)` for a natural number: no sign, no leading zeros */
  function DecimalString(n: nat): (s: string)
    ensures AllDigits(s) && |s| >= 1
    ensures n > 0 ==> s[0] != '0'
    ensures n < 10 ==> |s| == 1
    ensures n >= 10 ==> |s| >= 2
  {
    if n < 10 then [DigitChar(n)] else DecimalString(n / 10) + [DigitChar(n % 10)]
  }

  /** `n` written with at least `width` digits, padded on the left with
      zeros (the `{n:0width}` format) */
  function ZeroPadded(n: nat, width: nat): (s: string)
    ensures AllDigits(s) && |s| >= width
    ensures width >= 1 && n < Pow10(width) ==> |s| == width
  {
    var d := DecimalString(n);
    LengthBound(n, width);
    if |d| >= width then d else Zeros(width - |d|) + d
  }

  function Zeros(k: nat): (s: string)
    ensures |s| == k && AllDigits(s)
    ensures forall i | 0 <= i < k :: s[i] == '0'
  {
    seq(k, i => '0')
  }

  /** A number below 10^width has at most `width` digits */
  lemma LengthBound(n: nat, width: nat)
    ensures width >= 1 && n < Pow10(width) ==> |DecimalString(n)| <= width
  {
    if n >= 10 && width >= 1 && n < Pow10(width) {
      assert width >= 2;
      assert n / 10 < Pow10(width - 1);
      LengthBound(n / 10, width - 1);
    }
  }

  /** A number of at least 10^k has more than k digits */
  lemma {:induction false} LengthAtLeast(n: nat, k: nat)
    requires n >= Pow10(k)
    ensures |DecimalString(n)| > k
  {
    if k > 0 {
      assert Pow10(k) == 10 * Pow10(k - 1);
      assert n / 10 >= Pow10(k - 1);
      LengthAtLeast(n / 10, k - 1);
    }
  }

  /** A number in [10^(k-1), 10^k) is written with exactly k digits */
  lemma DigitCount(n: nat, k: nat)
    requires k >= 1 && Pow10(k - 1) <= n < Pow10(k)
    ensures |DecimalString(n)| == k
  {
    LengthBound(n, k);
    LengthAtLeast(n, k - 1);
  }

  lemma {:induction false} ValueOfConcat(a: string, b: string)
    requires AllDigits(a) && AllDigits(b)
    ensures AllDigits(a + b)
    ensures ValueOf(a + b) == ValueOf(a) * Pow10(|b|) + ValueOf(b)
  {
    if b == [] {
      assert a + b == a;
    } else {
      var b' := b[..|b| - 1];
      assert (a + b)[..|a + b| - 1] == a + b';
      ValueOfConcat(a, b');
      assert (a + b)[|a + b| - 1] == b[|b| - 1];
      assert b[..|b| - 1] == b';
      Regroup(ValueOf(a), Pow10(|b'|), ValueOf(b'), DigitValue(b[|b| - 1]));
    }
  }

  /** Leading zeros do not change the value */
  lemma ZeroPrefix(z: string, d: string)
    requires AllDigits(z) && AllDigits(d) && ValueOf(z) == 0
    ensures ValueOf(z + d) == ValueOf(d)
  {
    ValueOfConcat(z, d);
    MulZero(ValueOf(z), Pow10(|d|));
  }

  lemma MulZero(x: int, p: int)
    requires x == 0
    ensures x * p == 0
  {
  }

  lemma Regroup(x: int, p: int, y: int, d: int)
    ensures (x * p + y) * 10 + d == x * (10 * p) + (y * 10 + d)
  {
  }

  lemma {:induction false} ValueOfZeros(k: nat)
    ensures ValueOf(Zeros(k)) == 0
  {
    if k > 0 {
      assert Zeros(k)[..k - 1] == Zeros(k - 1);
      ValueOfZeros(k - 1);
    }
  }

  /** Reading back what `str(n)` writes gives `n` */
  lemma {:induction false} ValueOfDecimalString(n: nat)
    ensures ValueOf(DecimalString(n)) == n
  {
    if n >= 10 {
      var s := DecimalString(n);
      assert s[..|s| - 1] == DecimalString(n / 10);
      ValueOfDecimalString(n / 10);
    }
  }

  lemma {:induction false} ValueOfZeroPadded(n: nat, width: nat)
    ensures ValueOf(ZeroPadded(n, width)) == n
  {
    var d := DecimalString(n);
    ValueOfDecimalString(n);
    if |d| < width {
      var z := Zeros(width - |d|);
      assert ZeroPadded(n, width) == z + d;
      ValueOfZeros(width - |d|);
      ZeroPrefix(z, d);
    } else {
      assert ZeroPadded(n, width) == d;
    }
  }
}
