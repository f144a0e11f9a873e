/**
  Decimal numerals over ASCII digits: the rendering Python's `str(int)` and
  `format(n, '0w')` produce, and the value a digit string denotes (what
  `int(...)` and `float(...)` read from one).
 */
module Decimal {

  predicate IsDigit(c: char) {
    '0' <= c <= '9'
  }

  predicate AllDigits(s: string) {
    forall i :: 0 <= i < |s| ==> IsDigit(s[i])
  }

  function Pow10(k: nat): (p: nat)
    ensures p >= 1
  {
    if k == 0 then 1 else 10 * Pow10(k - 1)
  }

  function DigitChar(d: nat): (c: char)
    requires d < 10
    ensures IsDigit(c) && c as int - '0' as int == d
  {
    ('0' as int + d) as char
  }

  function DigitValue(c: char): nat {
    if IsDigit(c) then c as int - '0' as int else 0
  }

  /** The number a string of digits denotes, most significant digit first. */
  function Parse(s: string): nat
    decreases |s|
  {
    if s == [] then 0 else Parse(s[..|s| - 1]) * 10 + DigitValue(s[|s| - 1])
  }

  /** The decimal numeral of `n`: no sign, no leading zeros, "0" for zero. */
  function Digits(n: nat): string
    decreases n
  {
    if n < 10 then [DigitChar(n)] else Digits(n / 10) + [DigitChar(n % 10)]
  }

  function Zeros(k: nat): string
    decreases k
  {
    if k == 0 then "" else Zeros(k - 1) + "0"
  }

  /** `n` zero-padded on the left to at least `width` characters, as `format(n, '0w')` writes a non-negative int. */
  function Pad(n: nat, width: nat): string {
    var d := Digits(n);
    if |d| < width then Zeros(width - |d|) + d else d
  }

  /**
    `format(n, '0w')` for any int: the sign, if any, comes first and counts
    towards the width; zeros fill the space between the sign and the digits.
   */
  function ZeroPadded(n: int, width: nat): string {
    if n < 0 then "-" + Pad(-n, if width == 0 then 0 else width - 1) else Pad(n, width)
  }

  lemma {:induction false} ParseAppend(a: string, b: string)
    ensures Parse(a + b) == Parse(a) * Pow10(|b|) + Parse(b)
    decreases |b|
  {
    if b == [] {
      assert a + b == a;
    } else {
      var b' := b[..|b| - 1];
      assert (a + b)[..|a + b| - 1] == a + b';
      ParseAppend(a, b');
      assert Parse(a + b) == Parse(a + b') * 10 + DigitValue(b[|b| - 1]);
      assert Parse(b) == Parse(b') * 10 + DigitValue(b[|b| - 1]);
      ShiftDigit(Parse(a), Pow10(|b'|), Parse(b'), DigitValue(b[|b| - 1]));
    }
  }

  lemma ShiftDigit(x: int, p: int, y: int, d: int)
    ensures (x * p + y) * 10 + d == x * (10 * p) + (y * 10 + d)
  {
  }

  /** A numeral of `k` digits denotes less than 10^k. */
  lemma {:induction false} ParseBound(s: string)
    ensures Parse(s) < Pow10(|s|)
    decreases |s|
  {
    if s != [] {
      ParseBound(s[..|s| - 1]);
    }
  }

  /** Rendering then reading a number gives it back; the numeral has no leading zero and is as short as possible. */
  lemma {:induction false} DigitsRoundTrip(n: nat)
    ensures AllDigits(Digits(n)) && |Digits(n)| >= 1
    ensures Parse(Digits(n)) == n
    ensures n > 0 ==> Digits(n)[0] != '0'
    ensures n >= Pow10(|Digits(n)| - 1) || n == 0
    decreases n
  {
    if n >= 10 {
      DigitsRoundTrip(n / 10);
      var d := Digits(n / 10);
      assert Digits(n)[..|Digits(n)| - 1] == d;
      assert Pow10(|Digits(n)| - 1) == 10 * Pow10(|d| - 1);
    }
  }

  /** A number below 10^k has at most `k` digits, and one of at least 10^k has more. */
  lemma DigitsLength(n: nat, k: nat)
    requires k >= 1
    ensures |Digits(n)| <= k <==> n < Pow10(k)
  {
    DigitsRoundTrip(n);
    ParseBound(Digits(n));
    if |Digits(n)| > k {
      Pow10Monotone(k, |Digits(n)| - 1);
    } else {
      Pow10Monotone(|Digits(n)|, k);
    }
  }

  lemma {:induction false} Pow10Monotone(i: nat, j: nat)
    requires i <= j
    ensures Pow10(i) <= Pow10(j)
    decreases j
  {
    if i < j {
      Pow10Monotone(i, j - 1);
    }
  }

  lemma {:induction false} ZerosSound(k: nat)
    ensures |Zeros(k)| == k && AllDigits(Zeros(k)) && Parse(Zeros(k)) == 0
    decreases k
  {
    if k > 0 {
      ZerosSound(k - 1);
      assert Zeros(k)[..k - 1] == Zeros(k - 1);
    }
  }

  /**
    Zero padding keeps the number: the padded numeral is all digits, reads
    back as `n`, and is `width` long unless `n` needs more digits.
   */
  lemma PadSound(n: nat, width: nat)
    ensures AllDigits(Pad(n, width)) && Parse(Pad(n, width)) == n
    ensures |Pad(n, width)| == if |Digits(n)| < width then width else |Digits(n)|
    ensures width >= 1 && n < Pow10(width) ==> |Pad(n, width)| == width
  {
    var d := Digits(n);
    assert AllDigits(d) && Parse(d) == n by { DigitsRoundTrip(n); }
    if |d| < width {
      PadZeros(n, width);
    }
    if width >= 1 {
      assert |d| <= width <==> n < Pow10(width) by { DigitsLength(n, width); }
    }
  }

  /** The case where zeros are added: they change neither the digits' kind nor their value. */
  lemma PadZeros(n: nat, width: nat)
    requires |Digits(n)| < width
    ensures AllDigits(Pad(n, width)) && Parse(Pad(n, width)) == n && |Pad(n, width)| == width
  {
    var d := Digits(n);
    var z := Zeros(width - |d|);
    assert Pad(n, width) == z + d;
    assert AllDigits(d) && Parse(d) == n by { DigitsRoundTrip(n); }
    assert |z| == width - |d| && AllDigits(z) && Parse(z) == 0 by { ZerosSound(width - |d|); }
    assert Parse(z + d) == Parse(z) * Pow10(|d|) + Parse(d) by { ParseAppend(z, d); }
    assert AllDigits(z + d) by { AllDigitsAppend(z, d); }
  }

  lemma AllDigitsAppend(a: string, b: string)
    requires AllDigits(a) && AllDigits(b)
    ensures AllDigits(a + b)
  {
    forall i | 0 <= i < |a + b| ensures IsDigit((a + b)[i]) {
      if i < |a| { assert (a + b)[i] == a[i]; } else { assert (a + b)[i] == b[i - |a|]; }
    }
  }

  /** The value of the digits after a decimal point: `f1 f2 ... fk` is `0.f1f2...fk`. */
  function FractionValue(f: string): real
    decreases |f|
  {
    if f == [] then 0.0 else (DigitValue(f[0]) as real + FractionValue(f[1..])) / 10.0
  }

  /** The digits after the point are worth their numeral over 10^(their number). */
  lemma {:induction false} FractionExact(f: string)
    ensures FractionValue(f) == Parse(f) as real / Pow10(|f|) as real
    decreases |f|
  {
    if f != [] {
      var r := f[1..];
      FractionExact(r);
      assert f == [f[0]] + r;
      assert Parse([f[0]]) == DigitValue(f[0]) by {
        assert [f[0]][..0] == [];
      }
      ParseAppend([f[0]], r);
      ShiftFraction(DigitValue(f[0]), Parse(r), Pow10(|r|));
    }
  }

  lemma ShiftFraction(d: nat, x: nat, p: nat)
    requires p >= 1
    ensures (d as real + x as real / p as real) / 10.0 == (d * p + x) as real / (10 * p) as real
  {
    var dr, xr, pr := d as real, x as real, p as real;
    assert (d * p + x) as real == dr * pr + xr;
    assert (10 * p) as real == 10.0 * pr;
    assert (dr * pr + xr) / pr == dr + xr / pr;
    assert (dr * pr + xr) / (10.0 * pr) == ((dr * pr + xr) / pr) / 10.0;
  }
}
