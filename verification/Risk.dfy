/** Volatility, Sharpe ratio and drawdown of a price series (risk.c), over exact reals. */
module Risk {
  datatype Double = Finite(x: real) | NotFinite

  datatype Ratio = NaN | Some(x: real)

  datatype Code = Ok | Null | TooShort | BadRate | BadPeriods | InvalidValue

  const MIN_NUMBER_OF_ELEMENTS := 3

  class RiskResult {
    var volatility: real
    var sharpeRatio: Ratio
    var maxDrawdown: real

    constructor ()
    {
      volatility, sharpeRatio, maxDrawdown := 0.0, NaN, 0.0;
    }
  }

  // ---------- what the figures are

  ghost predicate Priced(values: seq<Double>) {
    forall i :: 0 <= i < |values| ==> values[i].Finite? && values[i].x > 0.0
  }

  ghost predicate Positive(v: seq<real>) {
    forall i :: 0 <= i < |v| ==> v[i] > 0.0
  }

  ghost function Prices(values: seq<Double>): (v: seq<real>)
    requires Priced(values)
    ensures |v| == |values| && Positive(v) && forall i :: 0 <= i < |v| ==> v[i] == values[i].x
  {
    seq(|values|, i requires 0 <= i < |values| => values[i].x)
  }

  /** The returns from each price to the next. */
  ghost function Returns(v: seq<real>): (r: seq<real>)
    requires |v| > 0 && Positive(v)
    ensures |r| == |v| - 1
  {
    seq(|v| - 1, i requires 0 <= i < |v| - 1 => (v[i + 1] - v[i]) / v[i])
  }

  ghost function Sum(s: seq<real>): real {
    if s == [] then 0.0 else Sum(s[..|s| - 1]) + s[|s| - 1]
  }

  ghost function Squared(d: real): real {
    d * d
  }

  ghost function SumOfSquares(s: seq<real>): real {
    if s == [] then 0.0 else SumOfSquares(s[..|s| - 1]) + Squared(s[|s| - 1])
  }

  lemma Square(d: real)
    ensures Squared(d) >= 0.0
    ensures d == 0.0 ==> Squared(d) == 0.0
    ensures d != 0.0 ==> Squared(d) > 0.0
  {
    ProductSign(d, d, Squared(d));
  }

  lemma ProductSign(a: real, b: real, y: real)
    requires y == a * b
    ensures (a > 0.0 && b > 0.0) || (a < 0.0 && b < 0.0) ==> y > 0.0
    ensures a == 0.0 ==> y == 0.0
  {
  }

  /** The sum of the squared distances from `m`. */
  ghost function Spread(s: seq<real>, m: real): (d: real)
    ensures d >= 0.0
  {
    if s == [] then 0.0
    else
      Square(s[|s| - 1] - m);
      Spread(s[..|s| - 1], m) + Squared(s[|s| - 1] - m)
  }

  ghost function Mean(s: seq<real>): real
    requires |s| > 0
  {
    Sum(s) / |s| as real
  }

  ghost function Variance(s: seq<real>): (d: real)
    requires |s| > 1
    ensures d >= 0.0
  {
    Spread(s, Mean(s)) / (|s| - 1) as real
  }

  ghost predicate AllEqual(s: seq<real>) {
    forall i, j :: 0 <= i < |s| && 0 <= j < |s| ==> s[i] == s[j]
  }

  /** How far the price falls from `i` to `j`, as a share of the price at `i`. */
  ghost function Drop(v: seq<real>, i: nat, j: nat): real
    requires Positive(v) && i < |v| && j < |v|
  {
    (v[i] - v[j]) / v[i]
  }

  ghost predicate NoDropAbove(v: seq<real>, d: real)
    requires Positive(v)
  {
    forall i, j :: 0 <= i <= j < |v| ==> Drop(v, i, j) <= d
  }

  ghost predicate SomeDrop(v: seq<real>, d: real)
    requires Positive(v)
  {
    exists i, j :: 0 <= i <= j < |v| && Drop(v, i, j) == d
  }

  /** `d` is the largest fall from any price to itself or a later one. */
  ghost predicate IsWorstDrop(v: seq<real>, d: real)
    requires Positive(v)
  {
    NoDropAbove(v, d) && SomeDrop(v, d)
  }

  // ---------- facts about the figures

  /** The second pass over the returns adds up to what one pass over their squares would give. */
  lemma TwoPasses(s: seq<real>)
    requires |s| > 0
    ensures Spread(s, Mean(s)) == SumOfSquares(s) - |s| as real * Mean(s) * Mean(s)
  {
    hide SumOfSquares, Spread, Sum;
    SpreadExpanded(s, Mean(s));
    MeanTimes(s);
    Collect(SumOfSquares(s), |s| as real, Mean(s), Sum(s));
  }

  lemma MeanTimes(s: seq<real>)
    requires |s| > 0
    ensures Sum(s) == |s| as real * Mean(s)
  {
  }

  lemma Collect(q: real, n: real, m: real, sum: real)
    requires sum == n * m
    ensures q - 2.0 * m * sum + n * m * m == q - n * m * m
  {
    assert m * sum == n * m * m;
  }

  ghost predicate Expanded(spread: real, squares: real, sum: real, n: real, m: real) {
    spread == squares - 2.0 * m * sum + n * m * m
  }

  lemma {:induction false} SpreadExpanded(s: seq<real>, m: real)
    ensures Expanded(Spread(s, m), SumOfSquares(s), Sum(s), |s| as real, m)
  {
    hide Expanded, Squared;
    if s == [] {
      Unexpanded(m);
    } else {
      var t, x := s[..|s| - 1], s[|s| - 1];
      SpreadExpanded(t, m);
      Expand(Spread(t, m), SumOfSquares(t), Sum(t), |t| as real, x, m);
      assert |s| as real == |t| as real + 1.0;
    }
  }

  lemma Unexpanded(m: real)
    ensures Expanded(0.0, 0.0, 0.0, 0.0, m)
  {
  }

  lemma Expand(a: real, q: real, sum: real, n: real, x: real, m: real)
    requires Expanded(a, q, sum, n, m)
    ensures Expanded(a + Squared(x - m), q + Squared(x), sum + x, n + 1.0, m)
  {
    assert Squared(x - m) == x * x - 2.0 * m * x + m * m;
    assert 2.0 * m * (sum + x) == 2.0 * m * sum + 2.0 * m * x;
    assert (n + 1.0) * m * m == n * m * m + m * m;
  }

  lemma {:induction false} NoSpread(s: seq<real>, m: real)
    ensures Spread(s, m) == 0.0 <==> forall i :: 0 <= i < |s| ==> s[i] == m
  {
    if s != [] {
      hide Squared;
      NoSpread(s[..|s| - 1], m);
      Square(s[|s| - 1] - m);
    }
  }

  lemma {:induction false} SumOfEqual(s: seq<real>, c: real)
    requires forall i :: 0 <= i < |s| ==> s[i] == c
    ensures Sum(s) == |s| as real * c
  {
    if s != [] {
      SumOfEqual(s[..|s| - 1], c);
    }
  }

  /** The variance vanishes exactly when all returns are the same. */
  lemma NoVariance(s: seq<real>)
    requires |s| > 1
    ensures Variance(s) == 0.0 <==> AllEqual(s)
  {
    NoSpread(s, Mean(s));
    if AllEqual(s) {
      SumOfEqual(s, s[0]);
    }
  }

  /** Each return, times the earlier price, is the change of the price. */
  lemma ReturnsAre(v: seq<real>, i: nat)
    requires |v| > 0 && Positive(v) && i < |v| - 1
    ensures Returns(v)[i] * v[i] == v[i + 1] - v[i]
  {
    Undo(v[i + 1] - v[i], v[i]);
  }

  lemma Undo(x: real, y: real)
    requires y > 0.0
    ensures x / y * y == x
  {
  }

  /** One fewer than their number times the variance is the sum of the squares less as many squared means. */
  lemma VarianceIs(s: seq<real>)
    requires |s| > 1
    ensures (|s| - 1) as real * Variance(s) == SumOfSquares(s) - |s| as real * Mean(s) * Mean(s)
    ensures |s| as real * Mean(s) == Sum(s)
  {
    hide Mean, SumOfSquares, Sum, Spread;
    TwoPasses(s);
    MeanTimes(s);
    Undo(Spread(s, Mean(s)), (|s| - 1) as real);
  }

  /** Rescaling all prices changes none of the returns, so neither mean nor variance. */
  lemma ScaledReturns(v: seq<real>, w: seq<real>, k: real)
    requires |v| == |w| > 0 && Positive(v) && k > 0.0
    requires forall i :: 0 <= i < |v| ==> w[i] == k * v[i]
    ensures Positive(w) && Returns(w) == Returns(v)
  {
    forall i | 0 <= i < |v|
      ensures w[i] > 0.0
    {
    }
    forall i | 0 <= i < |v| - 1
      ensures Returns(w)[i] == Returns(v)[i]
    {
      Cancel(k, v[i + 1] - v[i], v[i]);
      assert w[i + 1] - w[i] == k * (v[i + 1] - v[i]);
    }
  }

  lemma Cancel(k: real, x: real, y: real)
    requires k > 0.0 && y > 0.0
    ensures (k * x) / (k * y) == x / y
  {
  }

  lemma ScaledDrop(v: seq<real>, w: seq<real>, k: real, d: real)
    requires |v| == |w| && Positive(v) && Positive(w) && k > 0.0
    requires forall i :: 0 <= i < |v| ==> w[i] == k * v[i]
    ensures IsWorstDrop(w, d) <==> IsWorstDrop(v, d)
  {
    forall i: nat, j: nat | i < |v| && j < |v|
      ensures Drop(w, i, j) == Drop(v, i, j)
    {
      Cancel(k, v[i] - v[j], v[i]);
      assert w[i] - w[j] == k * (v[i] - v[j]);
    }
  }

  /** No price falls by more than that share of an earlier one, and some price falls by just that much. */
  lemma WorstDropIs(v: seq<real>, d: real)
    requires Positive(v) && IsWorstDrop(v, d)
    ensures forall i, j :: 0 <= i <= j < |v| ==> v[i] - v[j] <= d * v[i]
    ensures exists i, j :: 0 <= i <= j < |v| && v[i] - v[j] == d * v[i]
  {
    hide Drop;
    forall i, j | 0 <= i <= j < |v|
      ensures v[i] - v[j] <= d * v[i] && (Drop(v, i, j) == d ==> v[i] - v[j] == d * v[i])
    {
      DropWithin(v, i, j, d);
    }
  }

  lemma DropWithin(v: seq<real>, i: nat, j: nat, d: real)
    requires Positive(v) && i < |v| && j < |v| && Drop(v, i, j) <= d
    ensures v[i] - v[j] <= d * v[i] && (Drop(v, i, j) == d ==> v[i] - v[j] == d * v[i])
  {
    var x, y, q := v[i] - v[j], v[i], Drop(v, i, j);
    hide *;
    Undo(x, y);
    TimesMore(q, d, y);
  }

  lemma TimesMore(x: real, y: real, z: real)
    requires x <= y && z > 0.0
    ensures x * z <= y * z
  {
  }

  lemma WorstDropOnce(v: seq<real>, d: real, e: real)
    requires Positive(v) && IsWorstDrop(v, d) && IsWorstDrop(v, e)
    ensures d == e
  {
  }

  /** A drawdown is in [0, 1), and zero exactly for a series that never falls. */
  lemma DrawdownRange(v: seq<real>, d: real)
    requires Positive(v) && IsWorstDrop(v, d)
    ensures 0.0 <= d < 1.0
    ensures d == 0.0 <==> forall i, j :: 0 <= i <= j < |v| ==> v[i] <= v[j]
  {
    assert Drop(v, 0, 0) == 0.0;
    var i, j :| 0 <= i <= j < |v| && Drop(v, i, j) == d;
    DropSign(v[i], v[j]);
    if d == 0.0 {
      forall i, j | 0 <= i <= j < |v|
        ensures v[i] <= v[j]
      {
        assert Drop(v, i, j) <= 0.0;
        DropSign(v[i], v[j]);
      }
    }
  }

  lemma DropSign(a: real, b: real)
    requires a > 0.0 && b > 0.0
    ensures (a - b) / a < 1.0 && ((a - b) / a <= 0.0 <==> a <= b)
  {
    var q := (a - b) / a;
    assert q * a == a - b;
    assert q >= 1.0 ==> q * a >= a;
    if q > 0.0 {
      assert q * a > 0.0;
    } else {
      assert q * a <= 0.0;
    }
  }

  /** Later prices can only make the drawdown worse. */
  lemma DrawdownGrows(v: seq<real>, more: seq<real>, d: real, e: real)
    requires Positive(v) && Positive(v + more) && IsWorstDrop(v, d) && IsWorstDrop(v + more, e)
    ensures d <= e
  {
    var i, j :| 0 <= i <= j < |v| && Drop(v, i, j) == d;
    assert Drop(v + more, i, j) == d;
  }

  /**
   * The ratio is missing for more than the flat series of the documentation: doubling in every period has no spread
   * either.
   */
  lemma NotOnlyFlat()
    ensures var v := [1.0, 2.0, 4.0]; Positive(v) && Variance(Returns(v)) == 0.0 && v[0] != v[1]
  {
    var v := [1.0, 2.0, 4.0];
    var r := Returns(v);
    assert r[0] == 1.0 && r[1] == 1.0;
    assert AllEqual(r);
    NoVariance(r);
  }

  // ---------- the computation

  predicate IsFinite(d: Double) {
    d.Finite?
  }

  ghost function Validity(values: array?<Double>, length: int, rate: Double, periods: int, out: RiskResult?): Code
    requires values != null ==> length <= values.Length
    reads values
  {
    if values == null || out == null then Null
    else if length < MIN_NUMBER_OF_ELEMENTS then TooShort
    else if !(1 <= periods < 366) then BadPeriods
    else if !rate.Finite? || rate.x <= -1.0 then BadRate
    else if !Priced(values[..length]) then InvalidValue
    else Ok
  }

  method Validate(values: array?<Double>, length: int, rate: Double, periods: int, out: RiskResult?)
    returns (code: Code)
    requires values != null ==> length <= values.Length
    ensures code == Validity(values, length, rate, periods, out)
    ensures code == Null <==> values == null || out == null
    ensures code == Ok <==>
              && values != null && out != null && length >= 3 && 1 <= periods <= 365
              && rate.Finite? && rate.x > -1.0
              && forall i :: 0 <= i < length ==> values[i].Finite? && values[i].x > 0.0
    ensures code == TooShort ==> length < 3
    ensures code == BadPeriods ==> length >= 3 && !(1 <= periods <= 365)
    ensures code == BadRate ==> length >= 3 && 1 <= periods <= 365 && !(rate.Finite? && rate.x > -1.0)
    ensures code == InvalidValue ==>
              && length >= 3 && 1 <= periods <= 365 && rate.Finite? && rate.x > -1.0
              && exists i :: 0 <= i < length && !(values[i].Finite? && values[i].x > 0.0)
  {
    if values == null || out == null {
      return Null;
    }
    if length < MIN_NUMBER_OF_ELEMENTS {
      return TooShort;
    }
    if periods < 1 || periods >= 366 {
      return BadPeriods;
    }
    if !IsFinite(rate) || rate.x <= -1.0 {
      return BadRate;
    }
    for i := 0 to length
      invariant Priced(values[..i])
    {
      if !IsFinite(values[i]) || values[i].x <= 0.0 {
        assert values[i] == values[..length][i];
        return InvalidValue;
      }
    }
    return Ok;
  }

  ghost predicate IsSqrt(sqrt: real -> real) {
    forall x :: x >= 0.0 ==> sqrt(x) >= 0.0 && sqrt(x) * sqrt(x) == x
  }

  lemma SumNext(s: seq<real>, i: nat, m: real)
    requires i < |s|
    ensures Sum(s[..i + 1]) == Sum(s[..i]) + s[i]
    ensures Spread(s[..i + 1], m) == Spread(s[..i], m) + (s[i] - m) * (s[i] - m)
  {
    var t := s[..i + 1];
    assert t[..|t| - 1] == s[..i] && t[|t| - 1] == s[i];
  }

  /** The average return. */
  method MeanReturn(values: array<Double>, length: int) returns (mean: real)
    requires 1 < length <= values.Length && Priced(values[..length])
    ensures mean == Mean(Returns(Prices(values[..length])))
  {
    hide Mean, Sum;
    ghost var r := Returns(Prices(values[..length]));
    var count := length - 1;
    var sum := 0.0;
    NoSum(r);
    for i := 0 to count
      invariant sum == Sum(r[..i])
    {
      assert values[i] == values[..length][i] && values[i + 1] == values[..length][i + 1];
      SumNext(r, i, 0.0);
      var ret := (values[i + 1].x - values[i].x) / values[i].x;
      assert ret == r[i];
      sum := sum + ret;
    }
    assert r[..count] == r;
    mean := sum / count as real;
    MeanIs(r);
  }

  lemma NoSum(r: seq<real>)
    ensures Sum(r[..0]) == 0.0 && forall m :: Spread(r[..0], m) == 0.0
  {
  }

  lemma MeanIs(r: seq<real>)
    requires |r| > 0
    ensures Mean(r) == Sum(r) / |r| as real
  {
  }

  method VarianceOfReturns(values: array<Double>, length: int, mean: real) returns (variance: real)
    requires MIN_NUMBER_OF_ELEMENTS <= length <= values.Length && Priced(values[..length])
    requires mean == Mean(Returns(Prices(values[..length])))
    ensures variance == Variance(Returns(Prices(values[..length])))
  {
    hide Mean, Sum, Spread;
    ghost var r := Returns(Prices(values[..length]));
    var count := length - 1;
    var sq := 0.0;
    NoSum(r);
    for i := 0 to count
      invariant sq == Spread(r[..i], mean)
    {
      assert values[i] == values[..length][i] && values[i + 1] == values[..length][i + 1];
      SumNext(r, i, mean);
      var ret := (values[i + 1].x - values[i].x) / values[i].x;
      assert ret == r[i];
      var diff := ret - mean;
      sq := sq + diff * diff;
    }
    assert r[..count] == r;
    variance := sq / (count - 1) as real;
  }

  /** Keeps the highest price so far and the worst drop from it. */
  method Drawdown(values: array<Double>, length: int) returns (worst: real)
    requires 0 < length <= values.Length && Priced(values[..length])
    ensures IsWorstDrop(Prices(values[..length]), worst)
  {
    hide NoDropAbove, SomeDrop;
    ghost var v := Prices(values[..length]);
    assert values[0] == values[..length][0];
    var peak := values[0].x;
    worst := 0.0;
    ghost var top := 0;
    FirstDrop(v);
    for i := 1 to length
      invariant 0 <= top < i && v[top] == peak
      invariant forall j :: 0 <= j < i ==> v[j] <= peak
      invariant worst >= 0.0
      invariant IsWorstDrop(v[..i], worst)
    {
      assert values[i] == values[..length][i];
      if values[i].x > peak {
        NextDrop(v, i, top, worst);
        peak := values[i].x;
        top := i;
      } else {
        var drop := (peak - values[i].x) / peak;
        NextDrop(v, i, top, worst);
        if drop > worst {
          worst := drop;
        }
      }
    }
    assert v[..length] == v;
  }

  lemma FirstDrop(v: seq<real>)
    requires |v| > 0 && Positive(v)
    ensures IsWorstDrop(v[..1], 0.0)
  {
    assert Drop(v[..1], 0, 0) == 0.0;
  }

  /** With one more price, the worst drop is the old one or the one from the highest price before. */
  lemma NextDrop(v: seq<real>, i: nat, top: nat, worst: real)
    requires Positive(v) && top < i < |v| && worst >= 0.0 && IsWorstDrop(v[..i], worst)
    requires forall j :: 0 <= j < i ==> v[j] <= v[top]
    ensures var drop := (v[top] - v[i]) / v[top];
            IsWorstDrop(v[..i + 1], if v[i] <= v[top] && drop > worst then drop else worst)
  {
    hide Drop;
    var w, u := v[..i], v[..i + 1];
    var drop := Drop(u, top, i);
    var d := if v[i] <= v[top] && drop > worst then drop else worst;
    DropIs(v, i, top, i);
    forall a, b | 0 <= a <= b < i + 1
      ensures Drop(u, a, b) <= d
    {
      if b < i {
        SameDrop(v, i, a, b);
      } else if a < i {
        DropIs(v, i, a, i);
        DropFromPeak(v[a], v[top], v[i]);
      } else {
        DropIs(v, i, i, i);
      }
    }
    var a, b :| 0 <= a <= b < i && Drop(w, a, b) == worst;
    SameDrop(v, i, a, b);
    assert d == drop ==> SomeDrop(u, d);
  }

  lemma DropIs(v: seq<real>, i: nat, a: nat, b: nat)
    requires Positive(v) && a <= b <= i < |v|
    ensures Drop(v[..i + 1], a, b) == (v[a] - v[b]) / v[a]
  {
  }

  lemma SameDrop(v: seq<real>, i: nat, a: nat, b: nat)
    requires Positive(v) && a <= b < i < |v|
    ensures Drop(v[..i], a, b) == Drop(v[..i + 1], a, b)
  {
  }

  lemma DropFromPeak(a: real, peak: real, x: real)
    requires 0.0 < a <= peak && x > 0.0
    ensures (a - x) / a <= (peak - x) / peak
    ensures x > peak ==> (a - x) / a <= 0.0
  {
    LessQuotient(a, x);
    LessQuotient(peak, x);
    Smaller(a, peak, x);
    DropSign(a, x);
  }

  lemma LessQuotient(a: real, x: real)
    requires a > 0.0
    ensures (a - x) / a == 1.0 - x / a
  {
    assert (a - x) / a == a / a - x / a;
  }

  lemma Smaller(a: real, b: real, x: real)
    requires 0.0 < a <= b && x > 0.0
    ensures x / b <= x / a
  {
    var p, q := x / a, x / b;
    assert p * a == x == q * b;
    if q > p {
      assert q * b >= q * a;
      assert q * a > p * a;
    }
  }

  /** Everything the caller gets; `sqrt` and `pow` are the C library's. */
  method RiskCompute(values: array?<Double>, length: int, rate: Double, periods: int, out: RiskResult?,
                     sqrt: real -> real, pow: (real, real) -> real) returns (code: Code)
    requires (values != null ==> length <= values.Length) && IsSqrt(sqrt)
    modifies if out == null then {} else {out}
    ensures code == old(Validity(values, length, rate, periods, out))
    ensures code != Ok && out != null ==> unchanged(out)
    ensures code == Ok ==>
              var v := Prices(old(values[..length]));
              var r := Returns(v);
              && out.volatility >= 0.0
              && out.volatility * out.volatility == Variance(r) * periods as real
              && (out.sharpeRatio == NaN <==> AllEqual(r))
              && (!AllEqual(r) ==>
                    out.sharpeRatio.x * out.volatility
                    == (Mean(r) - (pow(1.0 + rate.x, 1.0 / periods as real) - 1.0)) * periods as real)
              && IsWorstDrop(v, out.maxDrawdown)
  {
    hide Mean, Variance, Returns, IsWorstDrop, AllEqual;
    code := Validate(values, length, rate, periods, out);
    if code != Ok {
      return;
    }
    var ppy := periods as real;
    ghost var r := Returns(Prices(values[..length]));
    var mean := MeanReturn(values, length);
    var variance := VarianceOfReturns(values, length, mean);
    var sdDaily := sqrt(variance);
    out.volatility := sdDaily * sqrt(ppy);
    Volatility(sdDaily, sqrt(ppy), variance, ppy);
    ProductSign(sdDaily, sdDaily, variance);
    NoVariance(r);
    if sdDaily == 0.0 {
      out.sharpeRatio := NaN;
    } else {
      var rfDaily := pow(1.0 + rate.x, 1.0 / ppy) - 1.0;
      out.sharpeRatio := Some((mean - rfDaily) / sdDaily * sqrt(ppy));
      Sharpe(mean - rfDaily, sdDaily, sqrt(ppy), ppy);
    }
    out.maxDrawdown := Drawdown(values, length);
  }

  lemma Volatility(s: real, p: real, variance: real, ppy: real)
    requires s >= 0.0 && p >= 0.0 && s * s == variance && p * p == ppy
    ensures s * p >= 0.0 && (s * p) * (s * p) == variance * ppy
  {
    assert (s * p) * (s * p) == (s * s) * (p * p);
  }

  lemma Sharpe(excess: real, s: real, p: real, ppy: real)
    requires s > 0.0 && p * p == ppy
    ensures excess / s * p * (s * p) == excess * ppy
  {
    assert excess / s * p * (s * p) == (excess / s * s) * (p * p);
  }
}
