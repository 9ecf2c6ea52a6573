/** The floating-point printer of the Unity test framework (unity.c), over exact reals. */
module UnityFloat {
  import opened DecimalText

  datatype Number = Finite(x: real) | NaN | PosInf | NegInf

  datatype Precision = Single | Double {
    function SigDigits(): nat { if Single? then 7 else 9 }

    function MinScaled(): int { if Single? then 1_000_000 else 100_000_000 }

    function MaxScaled(): int { if Single? then 10_000_000 else 1_000_000_000 }

    function Epsilon(): real { if Single? then 0.00001 else 0.000000000001 }
  }

  // UNITY_INT32
  const INT32_RANGE := 0x8000_0000

  // the largest finite double is below 10^309
  const MAX_EXPONENT := 309

  const TEN_TO_10 := 10_000_000_000.0

  function Abs(x: real): real {
    if x < 0.0 then -x else x
  }

  // ---------- moving the decimal point

  ghost predicate Is(x: real, s: real, e: int) {
    x == s * Power(e)
  }

  lemma Times10(x: real, s: real, e: int)
    requires Is(x, s, e)
    ensures Is(x, s * 10.0, e - 1)
  {
    hide Power;
    PowerNext(e - 1);
  }

  lemma TimesTenTo10(x: real, s: real, e: int)
    requires Is(x, s, e)
    ensures Is(x, s * TEN_TO_10, e - 10)
  {
    hide Power;
    PowerStep(e - 10, 10);
    TenTo10();
  }

  lemma OverTenTo10(x: real, s: real, e: int)
    requires Is(x, s, e)
    ensures Is(x, s / TEN_TO_10, e + 10)
  {
    hide Power;
    PowerStep(e, 10);
    TenTo10();
    CancelShift(s, TEN_TO_10, Power(e));
  }

  lemma TenTo10()
    ensures Pow10(10) as real == TEN_TO_10
  {
    assert Pow10(5) == 100_000;
    Pow10Add(5, 5);
  }

  lemma OverTen(x: real, s: real, d: real, e: int)
    requires d >= 1.0 && Is(x, s / d, e)
    ensures s / (d * 10.0) == s / d / 10.0
    ensures Is(x, s / (d * 10.0), e + 1)
  {
    hide Power;
    PowerNext(e);
    assert s / (d * 10.0) == s / d / 10.0;
    OutAndIn(s / d, Power(e));
  }

  lemma DivisorIn(x: real, s: real, d: real, e: int)
    requires Is(x, s, e) && d == 1.0
    ensures Is(x, s / d, e) && s / d == s
  {
  }

  lemma OutAndIn(q: real, r: real)
    ensures q / 10.0 * (10.0 * r) == q * r
  {
  }

  lemma PowerZero(x: real)
    ensures Power(0) == 1.0 && Is(x, x, 0)
  {
  }

  ghost predicate IsTimes(x: real, s: real, f: real, e: int) {
    Is(x, s * f, e)
  }

  lemma FactorGrows(x: real, s: real, f: real, e: int)
    requires s >= 0.001 && f >= 1.0 && IsTimes(x, s, f, e)
    ensures s * (f * 10.0) == s * f * 10.0 && s * f >= 0.001
    ensures IsTimes(x, s, f * 10.0, e - 1)
  {
    Times10(x, s * f, e);
    assert s * (f * 10.0) == s * f * 10.0;
  }

  lemma FactorIn(x: real, s: real, e: int)
    requires Is(x, s, e)
    ensures IsTimes(x, s, 1.0, e)
  {
  }

  lemma FactorOut(x: real, s: real, f: real, e: int)
    requires IsTimes(x, s, f, e)
    ensures Is(x, s * f, e)
  {
  }

  /** Scales a number below 1 up to all its significant digits. */
  method ScaleSmall(x: real, p: Precision) returns (number: real, exponent: int)
    requires p.Epsilon() <= x < 1.0
    ensures Is(x, number, exponent)
    ensures p.MinScaled() as real <= number < p.MaxScaled() as real
  {
    hide Is, IsTimes;
    number, exponent := x, 0;
    PowerZero(x);
    while number < p.MaxScaled() as real / TEN_TO_10
      invariant Is(x, number, exponent)
      invariant x <= number < 1.0 || p.MaxScaled() as real / TEN_TO_10 <= number < p.MaxScaled() as real
      decreases 1000.0 * (1.0 - number)
    {
      TimesTenTo10(x, number, exponent);
      number := number * TEN_TO_10;
      exponent := exponent - 10;
    }
    var factor := 1.0;
    FactorIn(x, number, exponent);
    while number * factor < p.MinScaled() as real
      invariant factor >= 1.0
      invariant IsTimes(x, number, factor, exponent)
      invariant number * factor < p.MaxScaled() as real
      decreases 1000.0 * (p.MinScaled() as real - number * factor)
    {
      FactorGrows(x, number, factor, exponent);
      factor := factor * 10.0;
      exponent := exponent - 1;
    }
    FactorOut(x, number, factor, exponent);
    number := number * factor;
  }

  /** Scales a number above all its significant digits down to them. */
  method ScaleLarge(x: real, p: Precision) returns (number: real, exponent: int)
    requires x > p.MaxScaled() as real
    ensures Is(x, number, exponent)
    ensures p.MinScaled() as real < number <= p.MaxScaled() as real
  {
    hide Is;
    number, exponent := x, 0;
    PowerZero(x);
    while number > p.MinScaled() as real * TEN_TO_10
      invariant Is(x, number, exponent)
      invariant number > p.MinScaled() as real
      decreases number
    {
      OverTenTo10(x, number, exponent);
      number := number / TEN_TO_10;
      exponent := exponent + 10;
    }
    var divisor := 1.0;
    DivisorIn(x, number, divisor, exponent);
    while number / divisor > p.MaxScaled() as real
      invariant divisor >= 1.0
      invariant Is(x, number / divisor, exponent)
      invariant number / divisor > p.MinScaled() as real
      decreases number / divisor
    {
      OverTen(x, number, divisor, exponent);
      divisor := divisor * 10.0;
      exponent := exponent + 1;
    }
    number := number / divisor;
  }

  /** `k` places shifted: the fraction still has room below the largest scaled number. */
  ghost predicate Shifted(start: nat, k: nat, whole: int, fraction: real, p: Precision) {
    && k < p.SigDigits() && start >= 1 && whole == start * Pow10(k)
    && (fraction == 0.0 || start + 1 <= Pow10(p.SigDigits() - k))
    && whole <= p.MaxScaled()
  }

  lemma ShiftOn(start: nat, k: nat, whole: int, fraction: real, p: Precision)
    requires Shifted(start, k, whole, fraction, p) && whole < p.MinScaled()
    ensures Shifted(start, k + 1, whole * 10, fraction, p)
  {
    Bounds(p);
    RoomLeft(start, k, p.SigDigits() - 1);
    Tenfold(start, k);
    assert p.SigDigits() - (k + 1) == p.SigDigits() - 1 - k;
  }

  lemma ShiftFits(start: nat, k: nat, whole: int, fraction: real, p: Precision)
    requires Shifted(start, k, whole, fraction, p) && 0.0 <= fraction < 1.0
    ensures 0.0 <= fraction * Pow10(k) as real && whole as real + fraction * Pow10(k) as real <= p.MaxScaled() as real
  {
    hide Pow10;
    Bounds(p);
    if fraction != 0.0 {
      RoomUsed(start, k, p.SigDigits());
    }
    FractionFits(whole, fraction, Pow10(k), p.MaxScaled());
  }

  lemma FractionFits(whole: int, s: real, f: int, max: int)
    requires 0.0 <= s < 1.0 && f >= 1 && whole <= max && (s == 0.0 || whole + f <= max)
    ensures 0.0 <= s * f as real && whole as real + s * f as real <= max as real
  {
    var t := s * f as real;
    FractionBelow(s, f as real);
    if s == 0.0 {
      assert t == 0.0;
    } else {
      assert (whole + f) as real <= max as real;
    }
  }

  /** In between, the integer part is split off first and only the fraction is scaled. */
  method ScaleMiddle(x: real, p: Precision) returns (whole: int, number: real, exponent: int)
    requires 1.0 <= x <= p.MaxScaled() as real
    ensures Is(x, whole as real + number, exponent)
    ensures p.MinScaled() <= whole && 0.0 <= number && whole as real + number <= p.MaxScaled() as real
    ensures exponent <= 0 && (exponent < 0 ==> whole % 2 == 0 && x < p.MinScaled() as real)
    ensures exponent == 0 ==> number < 1.0
  {
    hide Is, Power, Pow10, Shifted, Splits;
    whole := x.Floor;
    assert whole < INT32_RANGE;
    number, exponent := x - whole as real, 0;
    PowerZero(x);
    Bounds(p);
    var factor := 1.0;
    ghost var k: nat, start: nat := 0, whole;
    Unshifted(whole, number, p);
    SplitsAt(x, whole, number);
    while whole < p.MinScaled()
      invariant 1 <= whole < INT32_RANGE && 0.0 <= number < 1.0
      invariant Shifted(start, k, whole, number, p) && factor == Pow10(k) as real
      invariant Splits(x, whole, number, factor, exponent)
      invariant exponent <= 0 && (exponent == 0 ==> factor == 1.0 && x == whole as real + number)
      invariant exponent < 0 ==> whole % 2 == 0 && x < p.MinScaled() as real
      decreases p.MinScaled() - whole
    {
      ShiftOn(start, k, whole, number, p);
      Tenfold(start, k);
      SplitsOn(x, whole, number, factor, exponent);
      whole := whole * 10;
      factor := factor * 10.0;
      exponent := exponent - 1;
      k := k + 1;
    }
    ShiftFits(start, k, whole, number, p);
    SplitsInto(x, whole, number, factor, exponent);
    number := number * factor;
  }

  ghost predicate Splits(x: real, whole: int, s: real, f: real, e: int) {
    Is(x, whole as real + s * f, e)
  }

  lemma SplitsAt(x: real, whole: int, s: real)
    requires x == whole as real + s
    ensures Splits(x, whole, s, 1.0, 0)
  {
  }

  lemma SplitsInto(x: real, whole: int, s: real, f: real, e: int)
    requires Splits(x, whole, s, f, e)
    ensures Is(x, whole as real + s * f, e)
  {
    hide Power;
  }

  lemma SplitsOn(x: real, whole: int, s: real, f: real, e: int)
    requires Splits(x, whole, s, f, e)
    ensures Splits(x, whole * 10, s, f * 10.0, e - 1)
    ensures whole * 10 % 2 == 0
  {
    hide Is;
    var w := whole as real;
    Times10(x, w + s * f, e);
    Widened(w, s, f);
    TenTimes(whole);
    Moved(x, (w + s * f) * 10.0, (whole * 10) as real + s * (f * 10.0), e - 1);
  }

  lemma TenTimes(whole: int)
    ensures (whole * 10) as real == whole as real * 10.0
    ensures whole * 10 % 2 == 0
  {
    assert whole * 10 == 2 * (whole * 5);
  }

  lemma Moved(x: real, s: real, t: real, e: int)
    requires Is(x, s, e) && s == t
    ensures Is(x, t, e)
  {
  }

  lemma Unshifted(whole: nat, fraction: real, p: Precision)
    requires whole >= 1 && 0.0 <= fraction && whole as real + fraction <= p.MaxScaled() as real
    ensures Shifted(whole, 0, whole, fraction, p)
  {
    Bounds(p);
  }

  lemma Bounds(p: Precision)
    ensures p.MinScaled() == Pow10(p.SigDigits() - 1) && p.MaxScaled() == Pow10(p.SigDigits())
    ensures Pow10(0) == 1
  {
    assert Pow10(6) == 1_000_000;
    assert Pow10(8) == 100 * Pow10(6);
  }

  lemma RoomLeft(w: nat, k: nat, m: nat)
    requires w >= 1 && k <= m && w * Pow10(k) < Pow10(m)
    ensures k < m && w + 1 <= Pow10(m - k)
  {
    Pow10Add(m - k, k);
    if w >= Pow10(m - k) {
      assert w * Pow10(k) >= Pow10(m - k) * Pow10(k);
    }
  }

  lemma RoomUsed(w: nat, k: nat, m: nat)
    requires k <= m && w + 1 <= Pow10(m - k)
    ensures w * Pow10(k) + Pow10(k) <= Pow10(m)
  {
    hide Pow10;
    Pow10Add(m - k, k);
    Times(w + 1, Pow10(m - k), Pow10(k));
  }

  lemma Times(a: nat, b: nat, c: nat)
    requires a <= b
    ensures a * c <= b * c
  {
  }

  lemma Tenfold(w: nat, k: nat)
    ensures Pow10(k + 1) == 10 * Pow10(k) && w * Pow10(k) * 10 == w * Pow10(k + 1)
  {
  }

  lemma Widened(w: real, s: real, f: real)
    ensures (w + s * f) * 10.0 == w * 10.0 + s * (f * 10.0)
  {
  }

  lemma FractionBelow(s: real, f: real)
    requires 0.0 <= s < 1.0 && f >= 1.0
    ensures 0.0 <= s * f < f
  {
  }

  // ---------- rounding

  /** `n` is an integer nearest to `s`; between two of them, the even one or, if `down`, the lower one. */
  ghost predicate RoundedTo(s: real, n: int, down: bool) {
    var off := 2.0 * (n as real - s);
    && -1.0 <= off <= 1.0
    && (off == 1.0 ==> !down && n % 2 == 0)
    && (off == -1.0 ==> down || n % 2 == 0)
  }

  /** Of `k` and a fraction: `k` below a half, `k + 1` above, and at a half the even one, or `k` if `down`. */
  lemma RoundedExactly(k: int, r: real, n: int, down: bool)
    requires 0.0 <= r < 1.0
    ensures RoundedTo(k as real + r, n, down)
            <==> n == if r < 0.5 || (r == 0.5 && (down || k % 2 == 0)) then k else k + 1
  {
    var off := 2.0 * (n as real - (k as real + r));
    if RoundedTo(k as real + r, n, down) {
      assert -1.0 < (n - k) as real < 2.0;
    }
    if n == k {
      assert off == -2.0 * r;
    } else if n == k + 1 {
      assert off == 2.0 - 2.0 * r;
    }
  }

  /** Nothing else satisfies `RoundedTo`. */
  lemma RoundedOnce(s: real, m: int, n: int, down: bool)
    requires RoundedTo(s, m, down) && RoundedTo(s, n, down)
    ensures m == n
  {
    assert -2.0 <= 2.0 * (m as real - n as real) <= 2.0;
  }

  /** Doubling, truncating and halving rounds to the nearest integer, ties to even, without overflow. */
  method Round(number: real, p: Precision) returns (n: int)
    requires 0.0 <= number <= p.MaxScaled() as real
    ensures RoundedTo(number, n, false)
    ensures 0 <= n <= p.MaxScaled()
  {
    var twoNumber := number + number;
    var twoNTrunc := twoNumber.Floor;
    assert twoNTrunc + 1 < INT32_RANGE;
    n := (twoNTrunc + 1) / 2;
    if n % 2 == 1 && twoNTrunc % 2 == 1 && !(twoNTrunc as real < twoNumber) {
      n := n - 1;
    }
  }

  // ---------- choosing the significant digits

  /**
   * `n` units of 10^`e` are what a positive `x` is shown as: all significant digits are before the point, and
   * rounding is to the nearest, ties to even, except that a number whose integer part has all the digits loses
   * an exact half.
   */
  ghost predicate Chosen(x: real, n: int, e: int, p: Precision) {
    var s := x / Power(e);
    && p.MinScaled() as real <= s <= p.MaxScaled() as real
    && RoundedTo(s, n, p.MinScaled() as real <= x <= p.MaxScaled() as real)
    && p.MinScaled() <= n <= p.MaxScaled()
  }

  lemma Rescaled(x: real, s: real, e: int)
    requires Is(x, s, e)
    ensures s == x / Power(e)
  {
    hide Power;
  }

  lemma RoundedWhole(whole: int, s: real, m: int, e: int, x: real, p: Precision)
    requires RoundedTo(s, m, false) && 0.0 <= s && p.MinScaled() <= whole
    requires e <= 0 && (e < 0 ==> whole % 2 == 0 && x < p.MinScaled() as real)
    requires e == 0 ==> s < 1.0 && x == whole as real + s && x <= p.MaxScaled() as real
    ensures RoundedTo(whole as real + s, whole + m, p.MinScaled() as real <= x <= p.MaxScaled() as real)
  {
  }

  lemma RoundedSum(whole: int, s: real, m: int, e: int, x: real, p: Precision)
    requires RoundedTo(s, m, false) && 0.0 <= s && Is(x, whole as real + s, e)
    requires if 1.0 <= x <= p.MaxScaled() as real
             then p.MinScaled() <= whole && e <= 0
               && (e < 0 ==> whole % 2 == 0 && x < p.MinScaled() as real) && (e == 0 ==> s < 1.0)
             else whole == 0
    requires p.MinScaled() as real <= whole as real + s <= p.MaxScaled() as real
    ensures RoundedTo(whole as real + s, m + whole, p.MinScaled() as real <= x <= p.MaxScaled() as real)
    ensures p.MinScaled() <= m + whole <= p.MaxScaled()
  {
    if 1.0 <= x <= p.MaxScaled() as real {
      PowerZero(x);
      RoundedWhole(whole, s, m, e, x, p);
    }
  }

  method Significant(x: real, p: Precision) returns (n: int, exponent: int)
    requires p.Epsilon() <= x
    ensures Chosen(x, n, exponent, p)
  {
    hide Is, Power, RoundedTo;
    var whole, number := 0, x;
    if number < 1.0 {
      number, exponent := ScaleSmall(x, p);
    } else if number > p.MaxScaled() as real {
      number, exponent := ScaleLarge(x, p);
    } else {
      whole, number, exponent := ScaleMiddle(x, p);
    }
    Rescaled(x, whole as real + number, exponent);
    n := Round(number, p);
    RoundedSum(whole, number, n, exponent, x, p);
    n := n + whole;
  }
}
