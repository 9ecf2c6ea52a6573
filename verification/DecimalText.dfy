/** Decimal digits and what they mean; used by the rate parser and by the number printer. */
module DecimalText {
  predicate IsDigit(c: char) {
    '0' <= c <= '9'
  }

  function Digit(d: nat): (c: char)
    requires d < 10
    ensures IsDigit(c) && DigitValue(c) == d
  {
    '0' + (d as char)
  }

  function DigitValue(c: char): (d: nat)
    requires IsDigit(c)
    ensures d < 10
  {
    (c as int) - ('0' as int)
  }

  ghost predicate AllDigits(s: string) {
    forall i :: 0 <= i < |s| ==> IsDigit(s[i])
  }

  function Pow10(k: nat): (p: nat)
    ensures p > 0
  {
    if k == 0 then 1 else 10 * Pow10(k - 1)
  }

  lemma {:induction false} Pow10Add(i: nat, j: nat)
    ensures Pow10(i + j) == Pow10(i) * Pow10(j)
  {
    if i > 0 {
      Pow10Add(i - 1, j);
    }
  }

  /** The number that a digit string denotes. */
  function Value(s: string): nat
    requires AllDigits(s)
  {
    if s == [] then 0 else 10 * Value(s[..|s| - 1]) + DigitValue(s[|s| - 1])
  }

  /** The digits of a number, without leading zeros. */
  function Digits(n: nat): (s: string)
    ensures AllDigits(s) && s != []
  {
    if n < 10 then [Digit(n)] else Digits(n / 10) + [Digit(n % 10)]
  }

  lemma {:induction false} DigitsReadBack(n: nat)
    ensures Value(Digits(n)) == n
    ensures |Digits(n)| > 1 ==> Digits(n)[0] != '0'
    ensures n > 0 ==> Digits(n)[0] != '0'
  {
    if n >= 10 {
      DigitsReadBack(n / 10);
      var s := Digits(n);
      assert s[..|s| - 1] == Digits(n / 10);
    }
  }

  lemma {:induction false} ValueConcat(a: string, b: string)
    requires AllDigits(a) && AllDigits(b)
    ensures AllDigits(a + b) && Value(a + b) == Value(a) * Pow10(|b|) + Value(b)
  {
    if b == [] {
      assert a + b == a;
    } else {
      var c := b[..|b| - 1];
      ValueConcat(a, c);
      assert (a + b)[..|a + b| - 1] == a + c;
      Distribute(Value(a), Pow10(|c|));
    }
  }

  lemma Distribute(x: nat, y: nat)
    ensures 10 * (x * y) == x * (10 * y)
  {
  }

  function Zeros(k: nat): (s: string)
    ensures |s| == k && AllDigits(s)
  {
    if k == 0 then [] else Zeros(k - 1) + ['0']
  }

  lemma {:induction false} ZerosAreNothing(k: nat, s: string)
    requires AllDigits(s)
    ensures Value(Zeros(k) + s) == Value(s)
  {
    ValueConcat(Zeros(k), s);
    ZerosValue(k);
  }

  lemma {:induction false} ZerosValue(k: nat)
    ensures Value(Zeros(k)) == 0
  {
    if k > 0 {
      ZerosValue(k - 1);
      assert Zeros(k)[..k - 1] == Zeros(k - 1);
    }
  }

  /** At least `w` digits. */
  function Padded(n: nat, w: nat): (s: string)
    ensures AllDigits(s) && |s| >= w && s != []
  {
    var d := Digits(n);
    if |d| < w then Zeros(w - |d|) + d else d
  }

  lemma PaddedReadsBack(n: nat, w: nat)
    ensures Value(Padded(n, w)) == n
  {
    var d := Digits(n);
    DigitsReadBack(n);
    if |d| < w {
      ZerosAreNothing(w - |d|, d);
    }
  }

  /** `n / 10^k`, with `k` digits after the point and none superfluous before it. */
  function Fixed(n: nat, k: nat): string {
    var d := Padded(n, k + 1);
    if k == 0 then d else d[..|d| - k] + "." + d[|d| - k..]
  }

  function Decimal(n: nat, k: nat): real {
    n as real / Pow10(k) as real
  }

  // ---------- powers of ten over the reals

  function Power(e: int): (p: real)
    ensures p > 0.0
  {
    if e >= 0 then Pow10(e) as real else 1.0 / Pow10(-e) as real
  }

  lemma PowerNext(e: int)
    ensures Power(e + 1) == 10.0 * Power(e)
  {
    if e >= 0 {
    } else {
      var p := Pow10(-e - 1) as real;
      assert Pow10(-e) == 10 * Pow10(-e - 1);
      assert Power(e) == 1.0 / (10.0 * p);
      assert 10.0 * (1.0 / (10.0 * p)) == 1.0 / p;
      assert Power(e + 1) == 1.0 / p;
    }
  }

  lemma {:induction false} PowerStep(e: int, k: nat)
    ensures Power(e + k) == Pow10(k) as real * Power(e)
  {
    hide Power;
    if k == 0 {
      assert Pow10(0) as real == 1.0;
    } else {
      PowerStep(e, k - 1);
      PowerNext(e + k - 1);
      assert Pow10(k) as real == 10.0 * Pow10(k - 1) as real;
      TimesTen(Pow10(k - 1) as real, Power(e));
    }
  }

  lemma TimesTen(x: real, y: real)
    ensures 10.0 * (x * y) == (10.0 * x) * y
  {
  }

  lemma {:induction false} PowerLess(d: int, e: int)
    requires d < e
    ensures Power(d) < Power(e)
    decreases e - d
  {
    PowerNext(e - 1);
    if d < e - 1 {
      PowerLess(d, e - 1);
    }
  }

  /** Shifting the point and the exponent against each other keeps the value. */
  lemma DecimalShift(n: nat, k: nat, e: int)
    ensures Decimal(n, k) * Power(e + k) == n as real * Power(e)
  {
    hide Power, Pow10;
    PowerStep(e, k);
    CancelShift(n as real, Pow10(k) as real, Power(e));
  }

  lemma CancelShift(x: real, y: real, z: real)
    requires y > 0.0
    ensures x / y * (y * z) == x * z
  {
    assert x / y * (y * z) == (x / y * y) * z;
  }

  /** A trailing zero after the point means nothing. */
  lemma DecimalTrim(n: nat, k: nat)
    requires k > 0 && n % 10 == 0
    ensures Decimal(n / 10, k - 1) == Decimal(n, k)
  {
    var m, p := (n / 10) as real, Pow10(k - 1) as real;
    assert n == 10 * (n / 10);
    CancelTen(m, p);
  }

  lemma CancelTen(x: real, y: real)
    requires y > 0.0
    ensures x / y == (10.0 * x) / (10.0 * y)
  {
  }
}
