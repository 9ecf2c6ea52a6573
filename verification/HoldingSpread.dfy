/** How evenly a portfolio is spread over its tickers (calculateHoldingSpread.ts), over exact reals. */
module HoldingSpread {
  datatype Holding = Holding(ticker: string, value: real)

  /** Value by ticker. */
  function Totals(h: seq<Holding>): (m: map<string, real>)
    ensures forall i :: 0 <= i < |h| ==> h[i].ticker in m
  {
    if h == [] then map[]
    else
      var m, x := Totals(h[..|h| - 1]), h[|h| - 1];
      m[x.ticker := (if x.ticker in m then m[x.ticker] else 0.0) + x.value]
  }

  /** The tickers in the order of their first holdings, as the keys of a JavaScript Map are. */
  function Tickers(h: seq<Holding>): (keys: seq<string>)
    ensures forall t :: t in keys <==> t in Totals(h)
    ensures Distinct(keys)
  {
    if h == [] then []
    else
      var keys, t := Tickers(h[..|h| - 1]), h[|h| - 1].ticker;
      if t in keys then keys else keys + [t]
  }

  predicate Distinct(keys: seq<string>) {
    forall i, j :: 0 <= i < j < |keys| ==> keys[i] != keys[j]
  }

  predicate Covers(m: map<string, real>, keys: seq<string>) {
    forall t :: t in keys ==> t in m
  }

  function SumOf(m: map<string, real>, keys: seq<string>): real
    requires Covers(m, keys)
  {
    if keys == [] then 0.0 else SumOf(m, keys[..|keys| - 1]) + m[keys[|keys| - 1]]
  }

  function Squares(m: map<string, real>, total: real): map<string, real>
    requires total != 0.0
  {
    map t | t in m :: (m[t] / total) * (m[t] / total)
  }

  /** `Math.round`. */
  function Round(x: real): int {
    (x + 0.5).Floor
  }

  /** The Herfindahl-Hirschman index of the shares. */
  function Index(m: map<string, real>, keys: seq<string>): real
    requires Covers(m, keys) && SumOf(m, keys) != 0.0
  {
    SumOf(Squares(m, SumOf(m, keys)), keys)
  }

  function Score(m: map<string, real>, keys: seq<string>): int
    requires Covers(m, keys)
  {
    if SumOf(m, keys) <= 0.0 then 0 else Round(100.0 * (1.0 - Index(m, keys)))
  }

  function Spread(h: seq<Holding>): int {
    Score(Totals(h), Tickers(h))
  }

  method CalculateHoldingSpread(holdings: seq<Holding>) returns (score: int)
    ensures score == Spread(holdings)
    ensures TotalValue(holdings) <= 0.0 ==> score == 0
    ensures TotalValue(holdings) > 0.0 ==>
              forall ts :: Lists(holdings, ts) ==> Nearest(score, 100.0 * (1.0 - Concentration(holdings, ts)))
  {
    hide Distinct, SumOf, Squares, Lists, Concentration, Nearest, Totals, Tickers, TotalValue, Round;
    SpreadIs(holdings);
    NothingHeld();
    var valuesByTicker: map<string, real>, keys: seq<string> := map[], [];
    for i := 0 to |holdings|
      invariant valuesByTicker == Totals(holdings[..i])
      invariant keys == Tickers(holdings[..i])
    {
      assert holdings[..i + 1][..i] == holdings[..i];
      OneMoreHolding(holdings[..i + 1]);
      var holding := holdings[i];
      if holding.ticker !in valuesByTicker {
        keys := keys + [holding.ticker];
      }
      var before := if holding.ticker in valuesByTicker then valuesByTicker[holding.ticker] else 0.0;
      valuesByTicker := valuesByTicker[holding.ticker := before + holding.value];
    }
    assert holdings[..|holdings|] == holdings;
    var total := SumOf(valuesByTicker, keys);
    if total <= 0.0 {
      return 0;
    }
    SquaresAt(valuesByTicker, total);
    var hhi := SumOf(Squares(valuesByTicker, total), keys);
    return Round(100.0 * (1.0 - hhi));
  }

  lemma NothingHeld()
    ensures Totals([]) == map[] && Tickers([]) == []
  {
  }

  // ---------- sums over keys

  lemma {:induction false} SumSplit(m: map<string, real>, a: seq<string>, b: seq<string>)
    requires Covers(m, a + b)
    ensures Covers(m, a) && Covers(m, b) && SumOf(m, a + b) == SumOf(m, a) + SumOf(m, b)
  {
    assert forall t :: t in a || t in b ==> t in a + b;
    if b == [] {
      assert a + b == a;
    } else {
      var c := b[..|b| - 1];
      assert (a + b)[..|a + b| - 1] == a + c;
      SumSplit(m, a, c);
    }
  }

  /** Taking one key out. */
  lemma SumWithout(m: map<string, real>, keys: seq<string>, p: nat)
    requires Covers(m, keys) && p < |keys|
    ensures Covers(m, keys[..p] + keys[p + 1..])
    ensures SumOf(m, keys) == SumOf(m, keys[..p] + keys[p + 1..]) + m[keys[p]]
  {
    assert keys == keys[..p] + ([keys[p]] + keys[p + 1..]);
    SumSplit(m, keys[..p], [keys[p]] + keys[p + 1..]);
    SumSplit(m, [keys[p]], keys[p + 1..]);
    SumSplit(m, keys[..p], keys[p + 1..]);
    assert SumOf(m, [keys[p]]) == m[keys[p]];
  }

  ghost predicate SameKeys(a: seq<string>, b: seq<string>) {
    forall t :: t in a <==> t in b
  }

  lemma {:induction false} SumAnyOrder(m: map<string, real>, a: seq<string>, b: seq<string>)
    requires Covers(m, a) && Distinct(a) && Distinct(b) && SameKeys(a, b)
    ensures Covers(m, b) && SumOf(m, a) == SumOf(m, b)
    decreases |a|
  {
    if a == [] {
      FirstIsKey(b);
    } else {
      var t, c := a[|a| - 1], a[..|a| - 1];
      assert t in b;
      var p :| 0 <= p < |b| && b[p] == t;
      var d := b[..p] + b[p + 1..];
      SumWithout(m, b, p);
      WithoutKey(a, b, p);
      SumAnyOrder(m, c, d);
    }
  }

  lemma FirstIsKey(keys: seq<string>)
    ensures keys == [] || keys[0] in keys
  {
  }

  lemma WithoutKey(a: seq<string>, b: seq<string>, p: nat)
    requires a != [] && Distinct(a) && Distinct(b) && SameKeys(a, b) && p < |b| && b[p] == a[|a| - 1]
    ensures Distinct(a[..|a| - 1]) && Distinct(b[..p] + b[p + 1..])
    ensures SameKeys(a[..|a| - 1], b[..p] + b[p + 1..])
  {
    var c, d := a[..|a| - 1], b[..p] + b[p + 1..];
    assert a == c + [a[|a| - 1]] && b == b[..p] + [b[p]] + b[p + 1..];
    forall t
      ensures t in c <==> t in d
    {
      assert t in c <==> t in a && t != b[p];
      assert t in d <==> t in b && t != b[p];
    }
  }

  // ---------- grouping

  /** The value of all holdings with one ticker. */
  ghost function TickerTotal(h: seq<Holding>, t: string): real {
    if h == [] then 0.0
    else TickerTotal(h[..|h| - 1], t) + if h[|h| - 1].ticker == t then h[|h| - 1].value else 0.0
  }

  ghost predicate Holds(h: seq<Holding>, t: string) {
    exists i :: 0 <= i < |h| && h[i].ticker == t
  }

  lemma {:induction false} TotalsAre(h: seq<Holding>, t: string)
    ensures t in Totals(h) <==> Holds(h, t)
    ensures TickerTotal(h, t) == if t in Totals(h) then Totals(h)[t] else 0.0
  {
    if h != [] {
      TotalsAre(h[..|h| - 1], t);
      TotalsAre(h[..|h| - 1], h[|h| - 1].ticker);
    }
  }

  ghost function TotalValue(h: seq<Holding>): real {
    if h == [] then 0.0 else TotalValue(h[..|h| - 1]) + h[|h| - 1].value
  }

  /** Grouping by ticker neither loses nor creates value. */
  lemma {:induction false} GroupingConserves(h: seq<Holding>)
    ensures SumOf(Totals(h), Tickers(h)) == TotalValue(h)
  {
    if h != [] {
      hide *;
      GroupingConserves(h[..|h| - 1]);
      OneMoreSum(h);
      OneMoreValue(h);
    } else {
      assert SumOf(Totals(h), Tickers(h)) == 0.0;
    }
  }

  lemma OneMoreSum(h: seq<Holding>)
    requires h != []
    ensures var g, x := h[..|h| - 1], h[|h| - 1];
            SumOf(Totals(h), Tickers(h)) == SumOf(Totals(g), Tickers(g)) + x.value
  {
    hide *;
    var g, x := h[..|h| - 1], h[|h| - 1];
    OneMoreHolding(h);
    TickersCover(g);
    if x.ticker in Tickers(g) {
      SumGrown(Totals(g), Tickers(g), x.ticker, x.value);
    } else {
      SumNew(Totals(g), Tickers(g), x.ticker, x.value);
    }
  }

  lemma TickersCover(h: seq<Holding>)
    ensures Covers(Totals(h), Tickers(h)) && Distinct(Tickers(h))
  {
    hide Totals, Tickers;
  }

  lemma OneMoreValue(h: seq<Holding>)
    requires h != []
    ensures TotalValue(h) == TotalValue(h[..|h| - 1]) + h[|h| - 1].value
  {
  }

  lemma OneMoreHolding(h: seq<Holding>)
    requires h != []
    ensures var g, x := h[..|h| - 1], h[|h| - 1];
            if x.ticker in Tickers(g)
            then Totals(h) == Totals(g)[x.ticker := Totals(g)[x.ticker] + x.value] && Tickers(h) == Tickers(g)
            else Totals(h) == Totals(g)[x.ticker := x.value] && Tickers(h) == Tickers(g) + [x.ticker]
  {
    hide Distinct;
  }

  lemma SumNew(m: map<string, real>, keys: seq<string>, t: string, x: real)
    requires Covers(m, keys) && t !in keys
    ensures Covers(m[t := x], keys + [t]) && SumOf(m[t := x], keys + [t]) == SumOf(m, keys) + x
  {
    SumAgrees(m, m[t := x], keys);
    assert (keys + [t])[..|keys|] == keys;
  }

  lemma SumGrown(m: map<string, real>, keys: seq<string>, t: string, x: real)
    requires Covers(m, keys) && Distinct(keys) && t in keys
    ensures SumOf(m[t := m[t] + x], keys) == SumOf(m, keys) + x
  {
    var p :| 0 <= p < |keys| && keys[p] == t;
    var n, others := m[t := m[t] + x], keys[..p] + keys[p + 1..];
    SumWithout(m, keys, p);
    SumWithout(n, keys, p);
    SumAgrees(m, n, others);
  }

  lemma {:induction false} SumAgrees(m: map<string, real>, n: map<string, real>, keys: seq<string>)
    requires Covers(m, keys) && Covers(n, keys) && forall t :: t in keys ==> m[t] == n[t]
    ensures SumOf(m, keys) == SumOf(n, keys)
  {
    if keys != [] {
      SumAgrees(m, n, keys[..|keys| - 1]);
    }
  }

  // ---------- what the score is

  /** The tickers held, each once. */
  ghost predicate Lists(h: seq<Holding>, ts: seq<string>) {
    Distinct(ts) && forall t :: t in ts <==> Holds(h, t)
  }

  /** The sum of the squared shares of these tickers in the total value. */
  ghost function Concentration(h: seq<Holding>, ts: seq<string>): real
    requires TotalValue(h) != 0.0
  {
    if ts == [] then 0.0
    else
      var share := TickerTotal(h, ts[|ts| - 1]) / TotalValue(h);
      Concentration(h, ts[..|ts| - 1]) + share * share
  }

  /** The integer nearest to `x`; the higher one of two. */
  ghost predicate Nearest(n: int, x: real) {
    -1.0 < 2.0 * (n as real - x) <= 1.0
  }

  lemma RoundIsNearest(x: real)
    ensures Nearest(Round(x), x)
  {
  }

  lemma TickersListed(h: seq<Holding>)
    ensures Lists(h, Tickers(h))
  {
    hide Tickers, Totals, Distinct, Holds;
    TickersCover(h);
    forall t
      ensures t in Tickers(h) <==> Holds(h, t)
    {
      TotalsAre(h, t);
    }
  }

  lemma {:induction false} SquaresAreShares(h: seq<Holding>, ts: seq<string>)
    requires TotalValue(h) != 0.0 && Covers(Totals(h), ts)
    ensures Covers(Squares(Totals(h), TotalValue(h)), ts)
    ensures SumOf(Squares(Totals(h), TotalValue(h)), ts) == Concentration(h, ts)
  {
    if ts != [] {
      hide Totals, TickerTotal, TotalValue;
      SquaresAreShares(h, ts[..|ts| - 1]);
      TotalsAre(h, ts[|ts| - 1]);
    }
  }

  /** Of a positive total, the score is the integer nearest to 100 times one less the concentration. */
  lemma SpreadIs(h: seq<Holding>)
    ensures TotalValue(h) <= 0.0 ==> Spread(h) == 0
    ensures TotalValue(h) > 0.0 ==>
              forall ts :: Lists(h, ts) ==> Nearest(Spread(h), 100.0 * (1.0 - Concentration(h, ts)))
  {
    hide Totals, Tickers, SumOf, Squares, TotalValue, Concentration, Lists, Round, Nearest;
    TickersCover(h);
    GroupingConserves(h);
    if TotalValue(h) > 0.0 {
      forall ts | Lists(h, ts)
        ensures Nearest(Spread(h), 100.0 * (1.0 - Concentration(h, ts)))
      {
        IndexIs(h, ts);
        RoundIsNearest(100.0 * (1.0 - Index(Totals(h), Tickers(h))));
      }
    }
  }

  lemma IndexIs(h: seq<Holding>, ts: seq<string>)
    requires TotalValue(h) > 0.0 && Lists(h, ts)
    ensures Covers(Totals(h), Tickers(h)) && SumOf(Totals(h), Tickers(h)) == TotalValue(h)
    ensures Index(Totals(h), Tickers(h)) == Concentration(h, ts)
  {
    hide Totals, Tickers, SumOf, Squares, TotalValue, Concentration, Distinct, Holds;
    TickersCover(h);
    GroupingConserves(h);
    TickersListed(h);
    forall t | t in ts
      ensures t in Totals(h)
    {
      TotalsAre(h, t);
    }
    SquaresAt(Totals(h), TotalValue(h));
    SumAnyOrder(Squares(Totals(h), TotalValue(h)), Tickers(h), ts);
    SquaresAreShares(h, ts);
  }

  /** Equal shares in `n` tickers score the integer nearest to `100 * (n - 1) / n`. */
  lemma EqualShares(h: seq<Holding>, ts: seq<string>)
    requires TotalValue(h) > 0.0 && Lists(h, ts) && |ts| > 0
    requires forall t :: t in ts ==> TickerTotal(h, t) * |ts| as real == TotalValue(h)
    ensures Nearest(Spread(h), 100.0 * (|ts| - 1) as real / |ts| as real)
  {
    hide TotalValue, TickerTotal, Spread, Lists, Nearest, Concentration;
    SpreadIs(h);
    EqualConcentration(h, ts, |ts|);
    AllShares(Concentration(h, ts), |ts|);
    SameNearest(Spread(h), 100.0 * (1.0 - Concentration(h, ts)), 100.0 * (|ts| - 1) as real / |ts| as real);
  }

  lemma SameNearest(n: int, x: real, y: real)
    requires x == y && Nearest(n, x)
    ensures Nearest(n, y)
  {
  }

  lemma AllShares(c: real, k: nat)
    requires k > 0 && c == k as real / (k as real * k as real)
    ensures 100.0 * (1.0 - c) == 100.0 * (k - 1) as real / k as real
  {
    var n := k as real;
    OneOver(n);
    PartOfHundred(n);
    assert (k - 1) as real == n - 1.0;
  }

  lemma OneOver(n: real)
    requires n > 0.0
    ensures n / (n * n) == 1.0 / n
  {
  }

  lemma PartOfHundred(n: real)
    requires n > 0.0
    ensures 100.0 * (1.0 - 1.0 / n) == 100.0 * (n - 1.0) / n
  {
    var q := 1.0 / n;
    assert q * n == 1.0;
    assert 100.0 * (n - 1.0) == 100.0 * (1.0 - q) * n;
  }

  lemma {:induction false} EqualConcentration(h: seq<Holding>, ts: seq<string>, n: nat)
    requires TotalValue(h) > 0.0 && n > 0
    requires forall t :: t in ts ==> TickerTotal(h, t) * n as real == TotalValue(h)
    ensures Concentration(h, ts) == |ts| as real / (n as real * n as real)
  {
    hide TotalValue, TickerTotal;
    if ts == [] {
      NoneOf(n as real * n as real);
    } else {
      var t := ts[|ts| - 1];
      EqualConcentration(h, ts[..|ts| - 1], n);
      OneMoreEqual(TickerTotal(h, t), n as real, TotalValue(h), (|ts| - 1) as real);
      assert (|ts| - 1) as real + 1.0 == |ts| as real;
    }
  }

  lemma NoneOf(x: real)
    requires x > 0.0
    ensures 0.0 / x == 0.0
  {
  }

  lemma OneMoreEqual(part: real, n: real, whole: real, k: real)
    requires part * n == whole > 0.0 && n > 0.0
    ensures k / (n * n) + part / whole * (part / whole) == (k + 1.0) / (n * n)
  {
    var s := part / whole;
    assert s * whole == part;
    InverseShare(s, part, n, whole);
    SquareOfInverse(s, n);
    SumOver(k, n * n);
  }

  lemma InverseShare(s: real, part: real, n: real, whole: real)
    requires s * whole == part && part * n == whole > 0.0
    ensures s * n == 1.0
  {
    var a := s * n;
    calc {
      a * whole;
      s * whole * n;
      part * n;
      whole;
    }
    assert (a - 1.0) * whole == 0.0;
  }

  lemma SquareOfInverse(s: real, n: real)
    requires s * n == 1.0 && n > 0.0
    ensures s * s == 1.0 / (n * n)
  {
    assert s * s * (n * n) == (s * n) * (s * n);
    assert n * n > 0.0;
  }

  lemma SumOver(k: real, m: real)
    requires m > 0.0
    ensures k / m + 1.0 / m == (k + 1.0) / m
  {
  }

  // ---------- independence of the order

  lemma {:induction false} TickerTotalSplit(g: seq<Holding>, h: seq<Holding>, t: string)
    ensures TickerTotal(g + h, t) == TickerTotal(g, t) + TickerTotal(h, t)
  {
    if h == [] {
      assert g + h == g;
    } else {
      var c := h[..|h| - 1];
      assert (g + h)[..|g + h| - 1] == g + c;
      TickerTotalSplit(g, c, t);
    }
  }

  lemma {:induction false} TickerTotalAnyOrder(g: seq<Holding>, h: seq<Holding>, t: string)
    requires multiset(g) == multiset(h)
    ensures TickerTotal(g, t) == TickerTotal(h, t) && (Holds(g, t) <==> Holds(h, t))
    decreases |g|
  {
    HoldsSame(g, h, t);
    HoldsSame(h, g, t);
    if g == [] {
      assert |multiset(h)| == 0;
    } else {
      hide *;
      var x, c := g[|g| - 1], g[..|g| - 1];
      var p := SameWithout(g, h);
      var before, after := h[..p], h[p + 1..];
      TickerTotalAnyOrder(c, before + after, t);
      TickerTotalSplit(before, [x] + after, t);
      TickerTotalSplit([x], after, t);
      TickerTotalSplit(before, after, t);
      TickerTotalSplit(c, [x], t);
    }
  }

  lemma SameWithout(g: seq<Holding>, h: seq<Holding>) returns (p: nat)
    requires multiset(g) == multiset(h) && g != []
    ensures p < |h| && g == g[..|g| - 1] + [g[|g| - 1]] && h == h[..p] + ([g[|g| - 1]] + h[p + 1..])
    ensures multiset(g[..|g| - 1]) == multiset(h[..p] + h[p + 1..])
  {
    var k := |g| - 1;
    assert g[k] in multiset(h);
    p :| 0 <= p < |h| && h[p] == g[k];
    OneOut(g, k);
    OneOut(h, p);
    assert g[..k] + g[k + 1..] == g[..k];
    CancelOne(multiset(g[..k]), multiset(h[..p] + h[p + 1..]), g[k]);
  }

  lemma CancelOne(a: multiset<Holding>, b: multiset<Holding>, x: Holding)
    requires a + multiset{x} == b + multiset{x}
    ensures a == b
  {
    assert a == a + multiset{x} - multiset{x} && b == b + multiset{x} - multiset{x};
  }

  lemma OneOut(h: seq<Holding>, p: nat)
    requires p < |h|
    ensures h == h[..p] + ([h[p]] + h[p + 1..])
    ensures multiset(h) == multiset(h[..p] + h[p + 1..]) + multiset{h[p]}
  {
    assert h == h[..p] + ([h[p]] + h[p + 1..]);
  }

  lemma HoldsSame(g: seq<Holding>, h: seq<Holding>, t: string)
    requires multiset(g) == multiset(h)
    ensures Holds(g, t) ==> Holds(h, t)
  {
    if Holds(g, t) {
      var i :| 0 <= i < |g| && g[i].ticker == t;
      assert g[i] in multiset(h);
      assert g[i] in h;
    }
  }

  lemma ScoreAnyOrder(m: map<string, real>, a: seq<string>, b: seq<string>)
    requires Covers(m, a) && Covers(m, b) && Distinct(a) && Distinct(b) && SameKeys(a, b)
    ensures Score(m, a) == Score(m, b)
  {
    SumAnyOrder(m, a, b);
    var total := SumOf(m, a);
    if total > 0.0 {
      SumAnyOrder(Squares(m, total), a, b);
    }
  }

  /** Shuffling the holdings does not change the score. */
  lemma OrderDoesNotMatter(g: seq<Holding>, h: seq<Holding>)
    requires multiset(g) == multiset(h)
    ensures Spread(g) == Spread(h)
  {
    forall t
      ensures t in Totals(g) <==> t in Totals(h)
      ensures t in Totals(g) ==> Totals(g)[t] == Totals(h)[t]
    {
      TotalsAre(g, t);
      TotalsAre(h, t);
      TickerTotalAnyOrder(g, h, t);
    }
    assert Totals(g) == Totals(h);
    ScoreAnyOrder(Totals(g), Tickers(g), Tickers(h));
  }

  // ---------- the range

  ghost predicate NonNegative(h: seq<Holding>) {
    forall i :: 0 <= i < |h| ==> h[i].value >= 0.0
  }

  lemma {:induction false} NonNegativeTotals(h: seq<Holding>)
    requires NonNegative(h)
    ensures forall t :: t in Totals(h) ==> Totals(h)[t] >= 0.0
  {
    if h != [] {
      NonNegativeTotals(h[..|h| - 1]);
    }
  }

  /** What Cauchy-Schwarz says of `n` numbers, and its converse for numbers that are not negative. */
  ghost predicate Bounded(sum: real, squares: real, n: real) {
    0.0 <= sum && 0.0 <= squares <= sum * sum <= n * squares
  }

  lemma {:induction false} SquaresBounded(m: map<string, real>, keys: seq<string>, total: real)
    requires Covers(m, keys) && total > 0.0 && forall t :: t in keys ==> m[t] >= 0.0
    ensures Bounded(Share(SumOf(m, keys), total), SumOf(Squares(m, total), keys), |keys| as real)
  {
    if keys == [] {
      assert Share(0.0, total) == 0.0;
    } else {
      hide *;
      var front, t := keys[..|keys| - 1], keys[|keys| - 1];
      LastOfSums(m, keys, total);
      SquaresBounded(m, front, total);
      assert t in keys;
      OneMoreShare(SumOf(m, front), SumOf(Squares(m, total), front), m[t], total, |front|);
    }
  }

  lemma OneMoreShare(sum: real, squares: real, value: real, total: real, n: nat)
    requires total > 0.0 && value >= 0.0 && Bounded(Share(sum, total), squares, n as real)
    ensures Bounded(Share(sum + value, total), squares + SquaredShare(value, total), (n + 1) as real)
  {
    hide Bounded, Share;
    ShareOfSum(sum, value, total);
    assert n as real + 1.0 == (n + 1) as real;
    OneMore(Share(sum, total), squares, Share(value, total), SquaredShare(value, total), n as real);
  }

  lemma LastOfSums(m: map<string, real>, keys: seq<string>, total: real)
    requires Covers(m, keys) && keys != [] && total > 0.0
    ensures var front, t := keys[..|keys| - 1], keys[|keys| - 1];
            && Covers(m, front) && SumOf(m, keys) == SumOf(m, front) + m[t]
            && SumOf(Squares(m, total), keys)
               == SumOf(Squares(m, total), front) + SquaredShare(m[t], total)
  {
    hide Squares, SquaredShare;
    SquaresAt(m, total);
  }

  lemma ShareOfSum(a: real, b: real, d: real)
    requires d > 0.0
    ensures Share(a + b, d) == Share(a, d) + Share(b, d) && (b >= 0.0 ==> Share(b, d) >= 0.0)
  {
  }

  lemma OneMore(s: real, q: real, x: real, xx: real, n: real)
    requires Bounded(s, q, n) && 0.0 <= x && xx == x * x && n >= 0.0
    ensures Bounded(s + x, q + xx, n + 1.0)
  {
    var sx := s * x;
    assert sx >= 0.0 && xx >= 0.0;
    assert (s + x) * (s + x) == s * s + 2.0 * sx + xx;
    assert (n + 1.0) * (q + xx) == n * q + q + n * xx + xx;
    Mixed(s, q, x, n);
  }

  lemma NoSquare(s: real, y: real)
    requires s >= 0.0 && y == s * s && y <= 0.0
    ensures s == 0.0
  {
    if s > 0.0 {
      Positive(s, s, y);
    }
  }

  lemma Positive(a: real, b: real, y: real)
    requires a > 0.0 && b > 0.0 && y == a * b
    ensures y > 0.0
  {
  }

  lemma Mixed(s: real, q: real, x: real, n: real)
    requires 0.0 <= s && 0.0 <= x && n >= 0.0 && 0.0 <= q && s * s <= n * q
    ensures 2.0 * (s * x) <= q + n * (x * x)
  {
    var d := s - n * x;
    var r := q + n * (x * x) - 2.0 * (s * x);
    assert d * d == s * s - 2.0 * (n * (s * x)) + n * (n * (x * x));
    assert n * r == n * q + n * (n * (x * x)) - 2.0 * (n * (s * x));
    assert n * r >= d * d >= 0.0;
    if n == 0.0 {
      assert n * q == 0.0;
      NoSquare(s, s * s);
    } else {
      assert r < 0.0 ==> n * r < 0.0;
    }
  }

  /** No spread exceeds that of equal shares in all the tickers, and none is negative. */
  lemma ScoreRange(h: seq<Holding>)
    requires NonNegative(h) && TotalValue(h) > 0.0
    ensures |Tickers(h)| > 0
    ensures 0 <= Spread(h) <= Round(100.0 * (1.0 - 1.0 / |Tickers(h)| as real))
  {
    hide Index, Totals, Tickers, SumOf;
    GroupingConserves(h);
    NonNegativeTotals(h);
    IndexRange(Totals(h), Tickers(h));
    var q, n := Index(Totals(h), Tickers(h)), |Tickers(h)| as real;
    RoundMonotone(0.0, 100.0 * (1.0 - q));
    RoundMonotone(100.0 * (1.0 - q), 100.0 * (1.0 - 1.0 / n));
  }

  lemma IndexRange(m: map<string, real>, keys: seq<string>)
    requires Covers(m, keys) && SumOf(m, keys) > 0.0 && forall t :: t in keys ==> m[t] >= 0.0
    ensures |keys| > 0 && 1.0 / |keys| as real <= Index(m, keys) <= 1.0
  {
    hide Bounded, Share, Squares, SumOf;
    SquaresBounded(m, keys, SumOf(m, keys));
    Whole(SumOf(m, keys));
    RangeOfSquares(Index(m, keys), |keys| as real);
  }

  lemma RangeOfSquares(squares: real, n: real)
    requires Bounded(1.0, squares, n) && n >= 0.0
    ensures n > 0.0 && 1.0 / n <= squares <= 1.0
  {
    Reciprocal(n, squares);
  }

  lemma Whole(x: real)
    requires x > 0.0
    ensures Share(x, x) == 1.0
  {
  }

  lemma Reciprocal(n: real, q: real)
    requires n > 0.0 && 1.0 <= n * q
    ensures 1.0 / n <= q
  {
    var p := 1.0 / n;
    assert p * n == 1.0;
    assert p > q ==> p * n > q * n;
  }

  lemma RoundMonotone(x: real, y: real)
    requires x <= y
    ensures Round(x) <= Round(y) && Round(0.0) == 0
  {
  }

  // ---------- merging two tickers

  /** All holdings of `b` under the ticker `a`. */
  ghost function Relabel(h: seq<Holding>, a: string, b: string): (r: seq<Holding>)
    ensures |r| == |h|
  {
    if h == [] then []
    else
      var x := h[|h| - 1];
      Relabel(h[..|h| - 1], a, b) + [if x.ticker == b then Holding(a, x.value) else x]
  }

  lemma {:induction false} RelabelTotals(h: seq<Holding>, a: string, b: string, t: string)
    requires a != b
    ensures TickerTotal(Relabel(h, a, b), t) == if t == b then 0.0
                                                else TickerTotal(h, t) + if t == a then TickerTotal(h, b) else 0.0
    ensures TotalValue(Relabel(h, a, b)) == TotalValue(h)
  {
    if h != [] {
      RelabelTotals(h[..|h| - 1], a, b, t);
    }
  }

  lemma {:induction false} RelabelHolds(h: seq<Holding>, a: string, b: string, t: string)
    requires a != b
    ensures Holds(Relabel(h, a, b), t) <==> t != b && (Holds(h, t) || (t == a && Holds(h, b)))
  {
    hide Holds;
    NoneHeld(t);
    NoneHeld(b);
    if h != [] {
      var g, x := h[..|h| - 1], h[|h| - 1];
      var y := if x.ticker == b then Holding(a, x.value) else x;
      RelabelHolds(g, a, b, t);
      HoldsMore(g, x, t);
      HoldsMore(g, x, b);
      HoldsMore(Relabel(g, a, b), y, t);
      assert h == g + [x] && Relabel(h, a, b) == Relabel(g, a, b) + [y];
    }
  }

  lemma NoneHeld(t: string)
    ensures !Holds([], t)
  {
  }

  lemma HoldsMore(h: seq<Holding>, x: Holding, t: string)
    ensures Holds(h + [x], t) <==> Holds(h, t) || x.ticker == t
  {
    assert (h + [x])[|h|] == x;
    assert forall i :: 0 <= i < |h| ==> (h + [x])[i] == h[i];
  }

  lemma {:induction false} RelabelNone(h: seq<Holding>, a: string, b: string)
    requires a == b || !Holds(h, b)
    ensures Relabel(h, a, b) == h
  {
    if h != [] {
      var g, x := h[..|h| - 1], h[|h| - 1];
      HoldsMore(g, x, b);
      assert h == g + [x];
      RelabelNone(g, a, b);
    }
  }

  function Except(keys: seq<string>, a: string, b: string): (r: seq<string>)
    ensures forall t :: t in r <==> t in keys && t != a && t != b
    ensures Distinct(keys) ==> Distinct(r)
  {
    if keys == [] then []
    else
      var t, front := keys[|keys| - 1], keys[..|keys| - 1];
      assert keys == front + [t];
      assert Distinct(keys) ==> Distinct(front) && t !in front;
      Except(front, a, b) + if t == a || t == b then [] else [t]
  }

  lemma SumApart(m: map<string, real>, keys: seq<string>, a: string, b: string)
    requires Covers(m, keys) && Distinct(keys) && a != b
    ensures Covers(m, Except(keys, a, b))
    ensures SumOf(m, keys) == SumOf(m, Except(keys, a, b)) + (if a in keys then m[a] else 0.0)
                                                           + (if b in keys then m[b] else 0.0)
  {
    var rest := Except(keys, a, b);
    var all := rest + (if a in keys then [a] else []) + (if b in keys then [b] else []);
    SumAnyOrder(m, keys, all);
    SumSplit(m, rest + (if a in keys then [a] else []), if b in keys then [b] else []);
    SumSplit(m, rest, if a in keys then [a] else []);
    One(m, a, keys);
    One(m, b, keys);
  }

  lemma One(m: map<string, real>, t: string, keys: seq<string>)
    requires Covers(m, keys)
    ensures SumOf(m, []) == 0.0
    ensures t in keys ==> SumOf(m, [t]) == m[t]
  {
  }

  lemma SquareOfSum(x: real, y: real, d: real)
    requires x >= 0.0 && y >= 0.0 && d > 0.0
    ensures SquaredShare(x + y, d) >= SquaredShare(x, d) + SquaredShare(y, d)
  {
    hide Share;
    ShareOfSum(x, y, d);
    ShareOfSum(y, x, d);
    var p, q := Share(x, d), Share(y, d);
    assert (p + q) * (p + q) == p * p + q * q + 2.0 * (p * q);
    assert p * q >= 0.0;
  }

  /** Counting two tickers as one never raises the score. */
  lemma MergingNeverRaises(h: seq<Holding>, a: string, b: string)
    requires NonNegative(h)
    ensures Spread(Relabel(h, a, b)) <= Spread(h)
  {
    if a == b || !Holds(h, b) {
      RelabelNone(h, a, b);
    } else {
      Merged(h, a, b);
      GroupingConserves(h);
      GroupingConserves(Relabel(h, a, b));
      RelabelTotals(h, a, b, a);
      if TotalValue(h) > 0.0 {
        IndexGrows(Totals(h), Tickers(h), Totals(Relabel(h, a, b)), Tickers(Relabel(h, a, b)), a, b, TotalValue(h));
        RoundMonotone(100.0 * (1.0 - Index(Totals(Relabel(h, a, b)), Tickers(Relabel(h, a, b)))),
                      100.0 * (1.0 - Index(Totals(h), Tickers(h))));
      }
    }
  }

  /** `n` is `m` with the value of `b` added to that of `a`. */
  ghost predicate Joined(m: map<string, real>, n: map<string, real>, a: string, b: string) {
    && b in m && a != b && b !in n && a in n
    && n[a] == m[b] + (if a in m then m[a] else 0.0)
    && (forall t :: t != a && t != b ==> ((t in m <==> t in n) && (t in m ==> m[t] == n[t])))
    && (forall t :: t in m ==> m[t] >= 0.0)
  }

  lemma Merged(h: seq<Holding>, a: string, b: string)
    requires NonNegative(h) && a != b && Holds(h, b)
    ensures Joined(Totals(h), Totals(Relabel(h, a, b)), a, b)
  {
    var r := Relabel(h, a, b);
    NonNegativeTotals(h);
    forall t
      ensures t in Totals(h) <==> Holds(h, t)
      ensures t in Totals(r) <==> t != b && (Holds(h, t) || t == a)
      ensures t in Totals(h) ==> Totals(h)[t] == TickerTotal(h, t)
      ensures t in Totals(r) ==> Totals(r)[t] == TickerTotal(h, t) + if t == a then TickerTotal(h, b) else 0.0
      ensures t !in Totals(h) ==> TickerTotal(h, t) == 0.0
    {
      TotalsAre(h, t);
      TotalsAre(r, t);
      RelabelTotals(h, a, b, t);
      RelabelHolds(h, a, b, t);
    }
  }

  lemma IndexGrows(m: map<string, real>, keys: seq<string>, n: map<string, real>, kept: seq<string>,
                   a: string, b: string, total: real)
    requires Joined(m, n, a, b) && total > 0.0 && Distinct(keys) && Distinct(kept)
    requires (forall t :: t in keys <==> t in m) && (forall t :: t in kept <==> t in n)
    ensures SumOf(Squares(n, total), kept) >= SumOf(Squares(m, total), keys)
  {
    hide Squares, SquaredShare, SumOf, Distinct, Except;
    var u, v := Squares(m, total), Squares(n, total);
    SquaresAt(m, total);
    SquaresAt(n, total);
    SumApart(u, keys, a, b);
    SumApart(v, kept, a, b);
    SumAgrees(u, v, Except(keys, a, b));
    SumAnyOrder(v, Except(keys, a, b), Except(kept, a, b));
    JoinedShare(m, n, a, b, total);
  }

  lemma JoinedShare(m: map<string, real>, n: map<string, real>, a: string, b: string, total: real)
    requires Joined(m, n, a, b) && total > 0.0
    ensures Squares(n, total)[a] >= Squares(m, total)[b] + if a in m then Squares(m, total)[a] else 0.0
  {
    hide Squares, SquaredShare;
    SquaresAt(m, total);
    SquaresAt(n, total);
    if a in m {
      SquareOfSum(m[b], m[a], total);
    } else {
      assert n[a] == m[b];
    }
  }

  ghost function SquaredShare(x: real, total: real): real
    requires total != 0.0
  {
    Share(x, total) * Share(x, total)
  }

  function Share(x: real, total: real): real
    requires total != 0.0
  {
    x / total
  }

  lemma SquaresAt(m: map<string, real>, total: real)
    requires total > 0.0
    ensures Squares(m, total).Keys == m.Keys
    ensures forall t :: t in m ==> Squares(m, total)[t] == SquaredShare(m[t], total)
  {
  }
}
