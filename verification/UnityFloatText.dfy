/** How the Unity test framework's floating-point printer lays out the digits it has chosen (unity.c). */
module UnityFloatText {
  import opened Common
  import opened DecimalText
  import opened DecimalReader
  import opened UnityPrint
  import opened UnityFloat

  // ---------- the text of a number

  /** Where the point goes: plain notation for moderate exponents, one digit before the point otherwise. */
  function Decimals(e: int, p: Precision): nat {
    if e <= 0 && e >= -(p.SigDigits() + 3) then -e else p.SigDigits() - 1
  }

  /** A number without its trailing zeros after the point, and how many places remain. */
  function Trimmed(n: nat, k: nat): (nat, nat)
    decreases k
  {
    if k > 0 && n % 10 == 0 then Trimmed(n / 10, k - 1) else (n, k)
  }

  lemma {:induction false} TrimmedKeeps(n: nat, k: nat)
    ensures var t := Trimmed(n, k);
            && t.1 <= k && t.0 <= n && Decimal(t.0, t.1) == Decimal(n, k)
            && (t.1 > 0 ==> t.0 % 10 != 0)
    decreases k
  {
    if k > 0 && n % 10 == 0 {
      TrimmedKeeps(n / 10, k - 1);
      DecimalTrim(n, k);
    }
  }

  function Layout(n: nat, e: int, p: Precision): string {
    var t := Trimmed(n, Decimals(e, p));
    Fixed(t.0, t.1) + ExponentText(e + Decimals(e, p))
  }

  function Sign(negative: bool): string {
    if negative then "-" else ""
  }

  /** Rounding up to one digit too many moves the point instead. */
  function Carried(n: nat, p: Precision): nat {
    if n >= p.MaxScaled() then p.MinScaled() else n
  }

  function CarriedExponent(n: nat, e: int, p: Precision): int {
    if n >= p.MaxScaled() then e + 1 else e
  }

  function Shown(negative: bool, n: nat, e: int, p: Precision): string {
    Sign(negative) + Layout(Carried(n, p), CarriedExponent(n, e, p), p)
  }

  lemma LayoutReads(negative: bool, n: nat, e: int, p: Precision)
    ensures var v := n as real * Power(e);
            Stod(Sign(negative) + Layout(n, e, p)) == Ok(if negative then -v else v)
  {
    hide Power, Fixed, Stod, ExponentText, Exponent, Trimmed, Decimal;
    var k := Decimals(e, p);
    var t := Trimmed(n, k);
    TrimmedKeeps(n, k);
    ExponentReads(e + k);
    StodReads(t.0, t.1, negative, ExponentText(e + k));
    DecimalShift(n, k, e);
  }

  lemma CarriedValue(n: nat, e: int, p: Precision)
    requires n <= p.MaxScaled()
    ensures Carried(n, p) as real * Power(CarriedExponent(n, e, p)) == n as real * Power(e)
  {
    hide Power;
    PowerNext(e);
    if n == p.MaxScaled() {
      assert n as real == 10.0 * p.MinScaled() as real;
      TimesTen(p.MinScaled() as real, Power(e));
    }
  }

  /** The number of significant digits is 7 or 9: numbers below this have them, or fewer, before the point. */
  ghost function Limit(p: Precision): int {
    match p
    case Single => 10_000_000
    case Double => 1_000_000_000
  }

  /** Numbers below this are shown as 0. */
  ghost function Smallest(p: Precision): real {
    match p
    case Single => 0.00001
    case Double => 0.000000000001
  }

  /** Within half a unit in the last of the significant digits. */
  ghost predicate Approximates(v: real, x: real, p: Precision) {
    Limit(p) as real * Abs(v - x) <= 5.0 * Abs(x)
  }

  /** The text denotes a number that approximates `x`. */
  ghost predicate ReadsAs(text: string, x: real, p: Precision) {
    Stod(text).Ok? && Approximates(Stod(text).value, x, p)
  }

  lemma ChosenIsClose(x: real, n: int, e: int, p: Precision)
    requires x > 0.0 && Chosen(x, n, e, p)
    ensures Approximates(n as real * Power(e), x, p)
  {
    hide Power;
    OverTimes(x, Power(e));
    CloseEnough(p.MaxScaled() as real, n as real, x / Power(e), Power(e), x);
  }

  lemma OverTimes(x: real, u: real)
    requires u > 0.0
    ensures x == x / u * u
  {
  }

  lemma CloseEnough(max: real, n: real, s: real, u: real, x: real)
    requires x == s * u && u > 0.0 && -1.0 <= 2.0 * (n - s) <= 1.0 && 10.0 * s >= max > 0.0
    ensures max * Abs(n * u - x) <= 5.0 * Abs(x)
  {
    var v := n * u - x;
    OffBy(n, s, u);
    AbsTimes(n - s, u, v);
    AbsTimes(s, u, x);
    ScaledBound(max, Abs(n - s), s, u, Abs(v), x);
  }

  lemma OffBy(n: real, s: real, u: real)
    ensures n * u - s * u == (n - s) * u
  {
  }

  lemma AbsTimes(a: real, u: real, v: real)
    requires u > 0.0 && v == a * u
    ensures Abs(v) == Abs(a) * u
  {
  }

  lemma ScaledBound(max: real, off: real, s: real, u: real, v: real, x: real)
    requires 0.0 <= off <= 0.5 && 10.0 * s >= max > 0.0 && u > 0.0 && v == off * u && x == s * u
    ensures max * v <= 5.0 * x
  {
    assert max * off <= max * 0.5 <= 5.0 * s;
    Times(max * off, 5.0 * s, u);
    assert max * v == max * off * u;
    assert 5.0 * x == 5.0 * s * u;
  }

  lemma Times(a: real, b: real, u: real)
    requires a <= b && u > 0.0
    ensures a * u <= b * u
  {
  }

  /** The printed text is read back as a number that agrees with `x` in all significant digits. */
  lemma ShownReads(x: real, n: nat, e: int, p: Precision)
    requires x != 0.0 && Chosen(Abs(x), n, e, p)
    ensures ReadsAs(Shown(x < 0.0, n, e, p), x, p)
  {
    hide Power, Chosen, Layout, Carried, CarriedExponent, Stod;
    LayoutReads(x < 0.0, Carried(n, p), CarriedExponent(n, e, p), p);
    ChosenWithin(Abs(x), n, e, p);
    CarriedValue(n, e, p);
    ChosenIsClose(Abs(x), n, e, p);
  }

  lemma ChosenWithin(x: real, n: int, e: int, p: Precision)
    requires Chosen(x, n, e, p)
    ensures p.MinScaled() <= n <= p.MaxScaled()
    ensures p.MinScaled() as real * Power(e) <= x <= p.MaxScaled() as real * Power(e)
  {
    hide Power;
    Between(p.MinScaled() as real, x, p.MaxScaled() as real, Power(e));
  }

  lemma Between(low: real, x: real, high: real, u: real)
    requires u > 0.0 && low <= x / u <= high
    ensures low * u <= x <= high * u
  {
    OverTimes(x, u);
    Times(low, x / u, u);
    Times(x / u, high, u);
  }

  // ---------- what the text looks like

  /** Numbers that are shown without an exponent. */
  ghost predicate Plain(v: real, p: Precision) {
    0.0001 <= v < Limit(p) as real
  }

  /** Digits before the point, digits after it if there is a point, and the exponent if there is one. */
  ghost predicate Spelled(text: string, whole: string, fraction: string, exponent: string) {
    text == whole + ((if fraction == "" then "" else "." + fraction) + exponent)
  }

  /** No zeros in front of other digits, none at the end of the fraction, and no more digits than are significant. */
  ghost predicate TidyDigits(whole: string, fraction: string, p: Precision) {
    && AllDigits(whole) && whole != [] && (|whole| > 1 ==> whole[0] != '0')
    && AllDigits(fraction) && (fraction != [] ==> fraction[|fraction| - 1] != '0')
    && AllDigits(whole + fraction) && Value(whole + fraction) < Limit(p)
  }

  /** A sign and at least two digits, more only without a zero in front; not the exponent 0. */
  ghost predicate TidyExponent(exponent: string) {
    && |exponent| >= 4 && exponent[0] == 'e' && exponent[1] in "+-" && AllDigits(exponent[2..])
    && (|exponent| > 4 ==> exponent[2] != '0') && Value(exponent[2..]) > 0
  }

  /**
   * The text of a positive number `v`: without an exponent exactly for the plain ones, and else with one digit before
   * the point, which is not 0.
   */
  ghost predicate Tidy(text: string, v: real, p: Precision) {
    exists whole, fraction, exponent :: TidyAs(text, whole, fraction, exponent, v, p)
  }

  ghost predicate TidyAs(text: string, whole: string, fraction: string, exponent: string, v: real, p: Precision) {
    && Spelled(text, whole, fraction, exponent) && TidyDigits(whole, fraction, p)
    && if Plain(v, p) then exponent == "" else TidyExponent(exponent) && |whole| == 1 && whole[0] != '0'
  }

  /** A sign for a negative number, and the tidy text of what it reads as without the sign. */
  ghost predicate LooksTidy(text: string, negative: bool, p: Precision) {
    exists u :: text == (if negative then "-" else "") + u
                && Stod(u).Ok? && Stod(u).value > 0.0 && Tidy(u, Stod(u).value, p)
  }

  /** So the letter e is in the text exactly if the number is not plain. */
  lemma ExponentShows(text: string, v: real, p: Precision)
    requires Tidy(text, v, p)
    ensures 'e' in text <==> !Plain(v, p)
  {
    hide Value, TidyDigits, TidyExponent, Plain;
    var whole, fraction, exponent :| TidyAs(text, whole, fraction, exponent, v, p);
    NoLetter(whole, fraction, p);
    if !Plain(v, p) {
      LetterFirst(exponent);
      assert exponent[0] in exponent;
    }
  }

  lemma NoLetter(whole: string, fraction: string, p: Precision)
    requires TidyDigits(whole, fraction, p)
    ensures 'e' !in whole && 'e' !in fraction && 'e' !in "." + fraction
  {
  }

  lemma LetterFirst(exponent: string)
    requires TidyExponent(exponent)
    ensures exponent != [] && exponent[0] == 'e'
  {
  }

  lemma {:induction false} DigitCount(n: nat, k: nat)
    requires Pow10(k) <= n < Pow10(k + 1)
    ensures |Digits(n)| == k + 1
  {
    if k > 0 {
      assert Pow10(k) == 10 * Pow10(k - 1) && Pow10(k + 1) == 10 * Pow10(k);
      DigitCount(n / 10, k - 1);
    }
  }

  lemma {:induction false} TrimmedSize(n: nat, k: nat)
    requires Pow10(k) <= n < Pow10(k + 1)
    ensures var t := Trimmed(n, k); Pow10(t.1) <= t.0 < Pow10(t.1 + 1)
    decreases k
  {
    if k > 0 && n % 10 == 0 {
      assert Pow10(k) == 10 * Pow10(k - 1) && Pow10(k + 1) == 10 * Pow10(k);
      TrimmedSize(n / 10, k - 1);
    }
  }

  lemma PaddedEnds(n: nat, w: nat)
    ensures var d := Padded(n, w);
            && d[|d| - 1] == Digit(n % 10)
            && (n > 0 && (|d| > w || |Digits(n)| >= w) ==> d == Digits(n) && d[0] != '0')
  {
    DigitsReadBack(n);
    var d := Digits(n);
    assert d[|d| - 1] == Digit(n % 10);
  }

  lemma DigitZero(d: nat)
    requires 0 < d < 10
    ensures Digit(d) != '0'
  {
  }

  /** `n / 10^k` without a zero at its end is tidy. */
  lemma FixedTidy(n: nat, k: nat, p: Precision) returns (whole: string, fraction: string)
    requires 0 < n < Limit(p) && (k > 0 ==> n % 10 != 0)
    ensures TidyDigits(whole, fraction, p) && |fraction| == k
    ensures Fixed(n, k) == whole + if fraction == "" then "" else "." + fraction
    ensures |Digits(n)| == k + 1 ==> |whole| == 1 && whole[0] != '0'
  {
    hide Padded, Digits, Value, Digit, Fixed, AllDigits;
    var d := Padded(n, k + 1);
    PaddedEnds(n, k + 1);
    PaddedReadsBack(n, k + 1);
    FixedSplit(n, k);
    whole, fraction := d[..|d| - k], d[|d| - k..];
    if k > 0 {
      DigitZero(n % 10);
    }
  }

  lemma FixedSplit(n: nat, k: nat)
    ensures var d := Padded(n, k + 1);
            var whole, fraction := d[..|d| - k], d[|d| - k..];
            && AllDigits(whole) && AllDigits(fraction) && whole + fraction == d
            && whole != [] && whole[0] == d[0] && |fraction| == k && (k > 0 ==> fraction[k - 1] == d[|d| - 1])
            && Fixed(n, k) == whole + if fraction == "" then "" else "." + fraction
  {
    hide Padded;
    var d := Padded(n, k + 1);
    var whole, fraction := d[..|d| - k], d[|d| - k..];
    if k > 0 {
      assert Fixed(n, k) == whole + ("." + fraction);
    } else {
      assert whole == d && whole + "" == whole;
    }
  }

  lemma ExponentTidy(e: int)
    requires e != 0
    ensures TidyExponent(ExponentText(e))
  {
    hide Padded, Value, Digits, Digit, ExponentText, AllDigits;
    var m := if e < 0 then -e else e;
    PaddedEnds(m, 2);
    PaddedReadsBack(m, 2);
    ExponentParts(e);
  }

  lemma ExponentParts(e: int)
    requires e != 0
    ensures var x, d := ExponentText(e), Padded(if e < 0 then -e else e, 2);
            && |x| == 2 + |d| >= 4 && x[0] == 'e' && x[1] in "+-" && x[2..] == d && x[2] == d[0] && AllDigits(d)
  {
    hide Padded;
    var x := ExponentText(e);
    assert x[1] == if e < 0 then '-' else '+';
  }

  /** The exponents without an exponent in the text are those of the plain numbers. */
  lemma PlainExponents(n: nat, e: int, p: Precision)
    requires p.MinScaled() <= n < p.MaxScaled()
    ensures Plain(n as real * Power(e), p) <==> -(p.SigDigits() + 3) <= e <= 0
  {
    hide Power, Pow10;
    var low, high := p.MinScaled() as real, p.MaxScaled() as real;
    LowestPlain(p);
    PowerZero(high);
    PowerNext(0);
    if e > 0 {
      UnitAtLeast(1, e);
      AtLeast(low, n as real, Power(1), Power(e), high);
    } else {
      UnitAtLeast(e, 0);
      Below(n as real, high, Power(e), Power(0), high);
      var d := -(p.SigDigits() + 3);
      if e >= d {
        UnitAtLeast(d, e);
        AtLeast(low, n as real, Power(d), Power(e), 0.0001);
      } else {
        UnitAtLeast(e, d - 1);
        Below(n as real, high, Power(e), Power(d - 1), 0.0001);
      }
    }
  }

  lemma AtLeast(low: real, n: real, u: real, v: real, bound: real)
    requires 0.0 < low <= n && 0.0 < u <= v && low * u == bound
    ensures n * v >= bound
  {
    Times(low, n, v);
    MoreUnits(low, u, v);
  }

  lemma Below(n: real, high: real, u: real, v: real, bound: real)
    requires 0.0 < n < high && 0.0 < u <= v && high * v == bound
    ensures n * u < bound
  {
    Less(n, high, u);
    MoreUnits(high, u, v);
  }

  lemma MoreUnits(a: real, u: real, v: real)
    requires a > 0.0 && u <= v
    ensures a * u <= a * v
  {
  }

  lemma Less(a: real, b: real, u: real)
    requires a < b && u > 0.0
    ensures a * u < b * u
  {
  }

  lemma LowestPlain(p: Precision)
    ensures p.MinScaled() as real * Power(-(p.SigDigits() + 3)) == 0.0001
    ensures p.MaxScaled() as real * Power(-(p.SigDigits() + 4)) == 0.0001
  {
    hide Power;
    Bounds(p);
    PowerStep(-(p.SigDigits() + 3), p.SigDigits() - 1);
    PowerStep(-(p.SigDigits() + 4), p.SigDigits());
    TenThousandth();
  }

  lemma TenThousandth()
    ensures Power(-4) == 0.0001
  {
    assert Pow10(4) == 10_000;
  }

  /** How a number with all its significant digits is laid out. */
  lemma LayoutTidy(n: nat, e: int, p: Precision)
    requires p.MinScaled() <= n < p.MaxScaled()
    ensures Tidy(Layout(n, e, p), n as real * Power(e), p)
  {
    hide Power, Pow10, Fixed, ExponentText, Trimmed, TidyDigits, TidyExponent, Plain, Digits;
    var k := Decimals(e, p);
    var t := Trimmed(n, k);
    TrimmedKeeps(n, k);
    TrimmedPositive(n, k);
    Bounds(p);
    PlainExponents(n, e, p);
    var whole, fraction := FixedTidy(t.0, t.1, p);
    var exponent := ExponentText(e + k);
    if e + k == 0 {
      NoExponent();
    } else {
      ExponentTidy(e + k);
      TrimmedSize(n, k);
      DigitCount(t.0, t.1);
    }
    Regroup(whole, if fraction == "" then "" else "." + fraction, exponent);
    assert TidyAs(Layout(n, e, p), whole, fraction, exponent, n as real * Power(e), p);
  }

  lemma NoExponent()
    ensures ExponentText(0) == ""
  {
  }

  lemma {:induction false} TrimmedPositive(n: nat, k: nat)
    requires n > 0
    ensures Trimmed(n, k).0 > 0
    decreases k
  {
    if k > 0 && n % 10 == 0 {
      TrimmedPositive(n / 10, k - 1);
    }
  }

  lemma ShownTidy(negative: bool, n: nat, e: int, p: Precision)
    requires p.MinScaled() <= n <= p.MaxScaled()
    ensures LooksTidy(Shown(negative, n, e, p), negative, p)
  {
    hide Power, Layout, Stod, Tidy;
    var m, d := Carried(n, p), CarriedExponent(n, e, p);
    LayoutTidy(m, d, p);
    LayoutReads(false, m, d, p);
    var u := Layout(m, d, p);
    assert Sign(false) + u == u;
    assert m as real * Power(d) > 0.0;
  }

  // ---------- one number, one text

  lemma ExponentOnce(x: real, m: nat, d: int, n: nat, e: int, p: Precision)
    requires x > 0.0 && Chosen(x, m, d, p) && Chosen(x, n, e, p)
    ensures d <= e + 1
    ensures d == e + 1 ==> m == p.MinScaled() && n == p.MaxScaled()
  {
    hide Power, Chosen;
    ChosenWithin(x, m, d, p);
    ChosenWithin(x, n, e, p);
    PowerNext(e);
    assert p.MinScaled() as real * Power(d) <= p.MinScaled() as real * Power(e + 1);
    assert Power(d) <= Power(e + 1);
    if d > e + 1 {
      PowerLess(e + 1, d);
    } else if d == e + 1 {
      assert x == p.MinScaled() as real * Power(d) == p.MaxScaled() as real * Power(e);
      AtEdge(x, m, d, p.MinScaled(), p);
      AtEdge(x, n, e, p.MaxScaled(), p);
    }
  }

  lemma AtEdge(x: real, n: int, e: int, edge: int, p: Precision)
    requires Chosen(x, n, e, p) && x == edge as real * Power(e)
    ensures n == edge
  {
    hide Power;
    assert x / Power(e) == edge as real;
  }

  /** What is printed is a function of the number. */
  lemma ShownOnce(x: real, m: nat, d: int, n: nat, e: int, negative: bool, p: Precision)
    requires x > 0.0 && Chosen(x, m, d, p) && Chosen(x, n, e, p)
    ensures Shown(negative, m, d, p) == Shown(negative, n, e, p)
  {
    hide Layout, Power;
    ExponentOnce(x, m, d, n, e, p);
    ExponentOnce(x, n, e, m, d, p);
    if d == e {
      RoundedOnce(x / Power(e), m, n, p.MinScaled() as real <= x <= p.MaxScaled() as real);
    }
  }

  /** The numbers that have all their significant digits before the point and an exact half after an odd digit. */
  ghost predicate OddHalf(x: real, p: Precision) {
    p.MinScaled() as real <= x <= p.MaxScaled() as real && x - x.Floor as real == 0.5 && x.Floor % 2 == 1
  }

  /**
   * Rounding is to the nearest with ties to even for every number except these: there the tie is decided on the
   * fraction alone, and the half is dropped.
   */
  lemma TiesToEvenExactly(x: real, n: int, e: int, p: Precision)
    requires x > 0.0 && Chosen(x, n, e, p)
    ensures RoundedTo(x / Power(e), n, false) <==> !OddHalf(x, p)
  {
    hide Power;
    if p.MinScaled() as real <= x <= p.MaxScaled() as real {
      InRangeUnit(x, n, e, p);
      if e == 0 {
        PowerZero(x);
        assert x / Power(e) == x;
        HalfOf(x, n);
      } else {
        Edge(x, n, e, p);
      }
    }
  }

  /** A tie goes down to an odd digit exactly at an odd half. */
  lemma HalfOf(x: real, n: int)
    requires RoundedTo(x, n, true)
    ensures RoundedTo(x, n, false) <==> !(x - x.Floor as real == 0.5 && x.Floor % 2 == 1)
  {
    var k := x.Floor;
    NearFloor(x, k, n);
    if n == k {
      assert 2.0 * (n as real - x) == -2.0 * (x - k as real);
    } else {
      assert 2.0 * (n as real - x) == 2.0 - 2.0 * (x - k as real);
    }
  }

  lemma NearFloor(x: real, k: int, n: int)
    requires k as real <= x < k as real + 1.0 && -1.0 <= 2.0 * (n as real - x) < 1.0
    ensures n == k || n == k + 1
  {
    assert -1.0 < (n - k) as real < 2.0;
  }

  /** A number within the scaled range keeps the unit 1, unless it is one of the two ends. */
  lemma InRangeUnit(x: real, n: int, e: int, p: Precision)
    requires Chosen(x, n, e, p) && p.MinScaled() as real <= x <= p.MaxScaled() as real
    ensures e == 0 || (e == 1 && x == p.MaxScaled() as real) || (e == -1 && x == p.MinScaled() as real)
  {
    hide Power, Chosen;
    ChosenWithin(x, n, e, p);
    PowerZero(x);
    PowerNext(0);
    PowerNext(-1);
    if e >= 1 {
      UnitAtLeast(1, e);
      assert p.MinScaled() as real * Power(1) <= p.MinScaled() as real * Power(e);
      if e > 1 {
        PowerLess(1, e);
      }
    } else if e <= -1 {
      UnitAtLeast(e, -1);
      assert p.MaxScaled() as real * Power(e) <= p.MaxScaled() as real * Power(-1);
      if e < -1 {
        PowerLess(e, -1);
      }
    }
  }

  lemma UnitAtLeast(d: int, e: int)
    requires d <= e
    ensures Power(d) <= Power(e)
  {
    if d < e {
      PowerLess(d, e);
    }
  }

  /** At the ends of the range there is nothing to round. */
  lemma Edge(x: real, n: int, e: int, p: Precision)
    requires Chosen(x, n, e, p)
    requires (e == 1 && x == p.MaxScaled() as real) || (e == -1 && x == p.MinScaled() as real)
    ensures RoundedTo(x / Power(e), n, false) && !OddHalf(x, p)
  {
    hide Power;
    PowerZero(x);
    PowerNext(0);
    PowerNext(-1);
    if e == 1 {
      assert x == p.MinScaled() as real * Power(1);
      AtEdge(x, n, e, p.MinScaled(), p);
    } else {
      assert x == p.MaxScaled() as real * Power(-1);
      AtEdge(x, n, e, p.MaxScaled(), p);
    }
    assert x.Floor as real == x;
    assert x / Power(e) == n as real;
  }

  /** Such a number, and what it is shown as: the odd integer below it. */
  lemma HalfIsDropped(w: int, p: Precision)
    requires p.MinScaled() <= w < p.MaxScaled() && w % 2 == 1
    ensures Chosen(w as real + 0.5, w, 0, p) && !RoundedTo(w as real + 0.5, w, false)
    ensures RoundedTo(w as real + 0.5, w + 1, false)
  {
    hide Power;
    PowerZero(w as real + 0.5);
  }

  // ---------- digits in a buffer, last one first

  // the size of the printer's buffer
  const BUFFER := 16

  /** The digits of `n`, at least `w` of them; none for 0 if none are asked for. */
  function Filled(n: nat, w: nat): string
    decreases n + w
  {
    if n == 0 && w == 0 then []
    else Filled(n / 10, if w > 0 then w - 1 else 0) + [Digit(n % 10)]
  }

  lemma {:induction false} FilledZeros(w: nat)
    ensures Filled(0, w) == Zeros(w)
  {
    if w > 0 {
      FilledZeros(w - 1);
      assert Digit(0) == '0';
    }
  }

  lemma {:induction false} FilledIsDigits(n: nat)
    requires n > 0
    ensures Filled(n, 0) == Digits(n)
  {
    if n >= 10 {
      FilledIsDigits(n / 10);
    } else {
      assert Filled(0, 0) == [];
    }
  }

  lemma {:induction false} FilledIsPadded(n: nat, w: nat)
    requires w > 0
    ensures Filled(n, w) == Padded(n, w)
    decreases w
  {
    if n < 10 {
      FilledZeros(w - 1);
    } else if w == 1 {
      FilledIsDigits(n / 10);
    } else {
      FilledIsPadded(n / 10, w - 1);
      PaddedNext(n, w);
    }
  }

  lemma PaddedNext(n: nat, w: nat)
    requires n >= 10 && w > 1
    ensures Padded(n, w) == Padded(n / 10, w - 1) + [Digit(n % 10)]
  {
    var d, c := Digits(n / 10), [Digit(n % 10)];
    assert Digits(n) == d + c;
    if |d| + 1 < w {
      assert Zeros(w - 1 - |d|) + (d + c) == Zeros(w - 1 - |d|) + d + c;
    }
  }

  lemma {:induction false} FilledFits(n: nat, w: nat, size: nat)
    requires n < Pow10(size) && w <= size
    ensures w <= |Filled(n, w)| <= size
    decreases size
  {
    if size > 0 && (n > 0 || w > 0) {
      FilledFits(n / 10, if w > 0 then w - 1 else 0, size - 1);
    }
  }

  /** The digit at distance `i` from the end. */
  ghost predicate Holds(buf: seq<char>, digits: nat, s: string) {
    digits <= |buf| && digits <= |s| && forall i :: 0 <= i < digits ==> buf[i] == s[|s| - 1 - i]
  }

  lemma NoneFilled()
    ensures Filled(0, 0) == []
  {
  }

  lemma FilledLast(n: nat, w: nat, s: string, k: nat)
    requires (n > 0 || w > 0) && k <= |s| && Filled(n, w) == s[..k]
    ensures k > 0 && s[k - 1] == Digit(n % 10) && Filled(n / 10, if w > 0 then w - 1 else 0) == s[..k - 1]
  {
    var front := Filled(n / 10, if w > 0 then w - 1 else 0);
    assert s[..k] == front + [Digit(n % 10)];
    assert |front| == k - 1 && s[..k][..k - 1] == s[..k - 1] && s[..k][k - 1] == s[k - 1];
    assert (front + [Digit(n % 10)])[..k - 1] == front;
  }

  method FillBuffer(buf: array<char>, number: nat, width: nat) returns (digits: nat)
    requires number < Pow10(buf.Length) && width <= buf.Length
    modifies buf
    ensures digits == |Filled(number, width)| && Holds(buf[..], digits, Filled(number, width))
  {
    hide Pow10, Filled, Digit;
    ghost var s := Filled(number, width);
    FilledFits(number, width, buf.Length);
    digits := 0;
    var n: nat := number;
    assert s[..|s|] == s;
    while n != 0 || digits < width
      invariant digits <= |s| && Holds(buf[..], digits, s)
      invariant Filled(n, if digits < width then width - digits else 0) == s[..|s| - digits]
      decreases n + if digits < width then width - digits else 0
    {
      FilledLast(n, if digits < width then width - digits else 0, s, |s| - digits);
      buf[digits] := Digit(n % 10);
      digits := digits + 1;
      n := n / 10;
    }
    NoneFilled();
  }

  /** The text with a point before the last `decimals` digits, if any. */
  function Pointed(s: string, decimals: nat): string
    requires decimals < |s|
  {
    if decimals == 0 then s else s[..|s| - decimals] + "." + s[|s| - decimals..]
  }

  method PrintBackwards(out: Printer, buf: array<char>, count: nat, decimals: nat, ghost s: string)
    requires count == |s| && Holds(buf[..], count, s) && decimals < |s|
    modifies out
    ensures out.out == old(out.out) + Pointed(s, decimals)
  {
    var digits := count;
    assert s[..0] == [];
    while digits > 0
      invariant 0 <= digits <= |s|
      invariant out.out == old(out.out) + if digits >= decimals then s[..|s| - digits]
                                          else s[..|s| - decimals] + "." + s[|s| - decimals..|s| - digits]
    {
      if digits == decimals {
        out.Put('.');
      }
      digits := digits - 1;
      assert s[..|s| - digits] == s[..|s| - digits - 1] + [s[|s| - digits - 1]];
      out.Put(buf[digits]);
    }
  }

  // ---------- the printer

  lemma ExponentRange(x: real, n: int, e: int, p: Precision)
    requires Chosen(x, n, e, p) && p.Epsilon() <= x < Power(MAX_EXPONENT)
    ensures -22 < e < MAX_EXPONENT
  {
    hide Power, Chosen;
    ChosenWithin(x, n, e, p);
    assert Power(e) <= p.MinScaled() as real * Power(e);
    if e == MAX_EXPONENT {
    } else if e > MAX_EXPONENT {
      PowerLess(MAX_EXPONENT, e);
    }
    SmallestUnit(p);
    assert p.MaxScaled() as real * Power(e) <= 1_000_000_000.0 * Power(e);
    NineUp(e);
    if e + 9 < -12 {
      PowerLess(e + 9, -12);
    }
  }

  lemma NineUp(e: int)
    ensures 1_000_000_000.0 * Power(e) == Power(e + 9)
  {
    PowerStep(e, 9);
    Bounds(Double);
  }

  lemma SmallestUnit(p: Precision)
    ensures Power(-12) <= p.Epsilon()
  {
    Bounds(Double);
    Pow10Add(9, 3);
    assert Pow10(3) == 1000;
    assert Power(-12) == 1.0 / Pow10(12) as real;
  }

  lemma ExponentDigits(e: int)
    requires -1000 < e < 1000
    ensures (if e < 0 then -e else e) < Pow10(BUFFER)
  {
    assert Pow10(3) == 1000;
    Pow10Add(3, BUFFER - 3);
    assert Pow10(3) * Pow10(BUFFER - 3) >= Pow10(3);
  }

  lemma NumberFits(n: nat, p: Precision)
    requires n <= p.MaxScaled()
    ensures n < Pow10(BUFFER)
  {
    Bounds(p);
    Pow10Add(p.SigDigits(), BUFFER - p.SigDigits());
    assert Pow10(BUFFER - p.SigDigits()) >= 10;
    assert Pow10(p.SigDigits()) * Pow10(BUFFER - p.SigDigits()) >= Pow10(p.SigDigits()) * 10;
  }

  method Trim(number: nat, places: nat) returns (n: nat, decimals: nat)
    ensures (n, decimals) == Trimmed(number, places)
  {
    n, decimals := number, places;
    while decimals > 0 && n % 10 == 0
      invariant 0 <= n && 0 <= decimals
      invariant Trimmed(n, decimals) == Trimmed(number, places)
      decreases decimals
    {
      n := n / 10;
      decimals := decimals - 1;
    }
  }

  method PrintExponent(out: Printer, buf: array<char>, exponent: int)
    requires buf.Length == BUFFER && -1000 < exponent < 1000
    modifies out, buf
    ensures out.out == old(out.out) + ExponentText(exponent)
  {
    hide Pow10, Padded, Filled, Holds;
    if exponent != 0 {
      out.Put('e');
      var magnitude := exponent;
      ghost var sign := if exponent < 0 then "-" else "+";
      if exponent < 0 {
        out.Put('-');
        magnitude := -exponent;
      } else {
        out.Put('+');
      }
      Marked(old(out.out), sign);
      ExponentDigits(exponent);
      FilledFits(magnitude, 2, BUFFER);
      FilledIsPadded(magnitude, 2);
      var digits := FillBuffer(buf, magnitude, 2);
      PrintBackwards(out, buf, digits, 0, Filled(magnitude, 2));
      Regroup(old(out.out), "e", sign + Padded(magnitude, 2));
      Regroup(old(out.out) + "e", sign, Padded(magnitude, 2));
    }
  }

  lemma Marked(a: string, sign: string)
    ensures |sign| == 1 ==> a + ['e'] + [sign[0]] == a + "e" + sign
  {
  }

  method PrintDigits(out: Printer, buf: array<char>, n: nat, decimals: nat)
    requires buf.Length == BUFFER && n < Pow10(BUFFER) && decimals < BUFFER
    modifies out, buf
    ensures out.out == old(out.out) + Fixed(n, decimals)
  {
    hide Pow10, Padded, Filled;
    FilledFits(n, decimals + 1, BUFFER);
    FilledIsPadded(n, decimals + 1);
    var digits := FillBuffer(buf, n, decimals + 1);
    PrintBackwards(out, buf, digits, decimals, Filled(n, decimals + 1));
  }

  /** Places the point, drops the zeros after it and prints number and exponent. */
  method PrintScaled(out: Printer, buf: array<char>, n: nat, exponent: int, p: Precision)
    requires buf.Length == BUFFER && n <= p.MaxScaled() && -22 < exponent <= MAX_EXPONENT
    modifies out, buf
    ensures out.out == old(out.out) + Layout(n, exponent, p)
  {
    hide Fixed, ExponentText, Trimmed;
    var places := if exponent <= 0 && exponent >= -(p.SigDigits() + 3) then -exponent else p.SigDigits() - 1;
    TrimmedKeeps(n, places);
    var trimmed, decimals := Trim(n, places);
    NumberFits(trimmed, p);
    PrintDigits(out, buf, trimmed, decimals);
    PrintExponent(out, buf, exponent + places);
    Regroup(old(out.out), Fixed(trimmed, decimals), ExponentText(exponent + places));
  }

  /** Every write to the 16-character buffer is within it. */
  method PrintFinite(out: Printer, x: real, p: Precision) returns (ghost chosen: nat, ghost unit: int)
    requires p.Epsilon() <= Abs(x) < Power(MAX_EXPONENT)
    modifies out
    ensures Chosen(Abs(x), chosen, unit, p)
    ensures out.out == old(out.out) + Shown(x < 0.0, chosen, unit, p)
    ensures ReadsAs(Shown(x < 0.0, chosen, unit, p), x, p)
    ensures LooksTidy(Shown(x < 0.0, chosen, unit, p), x < 0.0, p)
  {
    hide Power, Chosen, Layout, ReadsAs, LooksTidy;
    var buf := new char[BUFFER](_ => '\0');
    var number := x;
    if number < 0.0 {
      out.Put('-');
      number := -number;
    }
    assert out.out == old(out.out) + Sign(x < 0.0);
    var n, exponent := Significant(number, p);
    ChosenWithin(number, n, exponent, p);
    ExponentRange(number, n, exponent, p);
    chosen, unit := n, exponent;
    SmallestUnit(p);
    ShownReads(x, chosen, unit, p);
    ShownTidy(x < 0.0, chosen, unit, p);
    if n >= p.MaxScaled() {
      n := p.MinScaled();
      exponent := exponent + 1;
    }
    PrintScaled(out, buf, n, exponent, p);
    Regroup(old(out.out), Sign(x < 0.0), Layout(n, exponent, p));
  }

  /** Prints any number; `Power(MAX_EXPONENT)` is above every finite double. */
  method PrintFloat(out: Printer, input: Number, p: Precision)
    requires input.Finite? ==> Abs(input.x) < Power(MAX_EXPONENT)
    modifies out
    ensures input.NaN? ==> out.out == old(out.out) + "NaN"
    ensures input.PosInf? ==> out.out == old(out.out) + "Infinity"
    ensures input.NegInf? ==> out.out == old(out.out) + "Negative Infinity"
    ensures input.Finite? && Abs(input.x) < Smallest(p) ==> out.out == old(out.out) + "0"
    ensures input.Finite? && Abs(input.x) >= Smallest(p) ==>
              exists n: nat, e: int :: Chosen(Abs(input.x), n, e, p)
                                       && out.out == old(out.out) + Shown(input.x < 0.0, n, e, p)
                                       && ReadsAs(Shown(input.x < 0.0, n, e, p), input.x, p)
                                       && LooksTidy(Shown(input.x < 0.0, n, e, p), input.x < 0.0, p)
  {
    hide Power, Chosen, Shown, ReadsAs, LooksTidy;
    match input
    case NaN => out.Print("NaN");
    case PosInf => out.Print("Infinity");
    case NegInf => out.Print("Negative Infinity");
    case Finite(x) =>
      if Abs(x) < p.Epsilon() {
        out.Print("0");
      } else {
        ghost var n, e := PrintFinite(out, x, p);
      }
  }
}
