/** The process-wide rate cache and the conversion that it serves (FxConvert in fx.cpp). */
module FxCache {
  import opened Common
  import opened DecimalText
  import opened DecimalReader
  import opened FxParser
  import FxCursor

  datatype Code = FxOk | NullArgument | RequestFailed | UnknownCurrency | Internal | ApiUnresponsive

  /** What the HTTP client brought back. */
  datatype Response = Failed | Body(text: string)

  /** A double: division by a zero rate is not finite. */
  datatype Amount = Finite(x: real) | NotFinite

  // nanoseconds of the steady clock
  const SECOND := 1_000_000_000
  const EXPIRATION := 600 * SECOND
  const MAXIMUM_AGE := 168 * 3600 * SECOND

  datatype Cache = Cache(rates: Rates, fetched: int)

  /** One call with non-null pointers: the clock before and after the fetch, and what a fetch would bring. */
  datatype Call = Call(amount: real, from: string, to: string, now: int, response: Response, later: int)

  datatype Reply = Reply(code: Code, out: Option<Amount>)

  predicate IsAlpha(c: char) {
    'a' <= c <= 'z' || 'A' <= c <= 'Z'
  }

  function ToUpper(c: char): char {
    if 'a' <= c <= 'z' then 'A' + (c - 'a') else c
  }

  function Upper(s: string): string {
    if s == [] then [] else [ToUpper(s[0])] + Upper(s[1..])
  }

  predicate IsCode(s: string) {
    |s| == 3 && IsAlpha(s[0]) && IsAlpha(s[1]) && IsAlpha(s[2])
  }

  function Convert(rates: Rates, amount: real, from: string, to: string): Amount
    requires from in rates && to in rates
  {
    if rates[from].rate == 0.0 then NotFinite else Finite(amount * rates[to].rate / rates[from].rate)
  }

  /** `name` is the code `s` in capital letters. */
  ghost predicate NameOf(s: string, name: string) {
    && |s| == |name| == 3
    && forall i :: 0 <= i < 3 ==> 'A' <= name[i] <= 'Z' && (s[i] == name[i] || s[i] as int == name[i] as int + 32)
  }

  /** What `amount` is worth, with the price of one unit of a base in either currency. */
  ghost predicate Exchanged(out: Amount, amount: real, from: real, to: real) {
    if from == 0.0 then out == NotFinite else out.Finite? && out.x * from == amount * to
  }

  /** The amount is exchanged at the cached rates of the two currencies. */
  ghost predicate ExchangedAt(rates: Rates, out: Option<Amount>, amount: real, from: string, to: string) {
    exists f, t :: NameOf(from, f) && NameOf(to, t) && f in rates && t in rates
                   && out.Some? && Exchanged(out.value, amount, rates[f].rate, rates[t].rate)
  }

  lemma {:induction false} UpperAt(s: string)
    ensures |Upper(s)| == |s| && forall i :: 0 <= i < |s| ==> Upper(s)[i] == ToUpper(s[i])
  {
    if s != [] {
      UpperAt(s[1..]);
    }
  }

  lemma UpperIs(s: string, name: string)
    ensures NameOf(s, name) <==> IsCode(s) && name == Upper(s)
  {
    hide Upper;
    UpperAt(s);
  }

  lemma ConvertIs(rates: Rates, amount: real, from: string, to: string)
    requires from in rates && to in rates
    ensures Exchanged(Convert(rates, amount, from, to), amount, rates[from].rate, rates[to].rate)
  {
    var x, y := rates[from].rate, rates[to].rate;
    if x != 0.0 {
      TimesBack(amount * y, x);
    }
  }

  lemma TimesBack(a: real, x: real)
    requires x != 0.0
    ensures a / x * x == a
  {
  }

  lemma ExchangedIs(rates: Rates, amount: real, from: string, to: string)
    requires IsCode(from) && IsCode(to) && Upper(from) in rates && Upper(to) in rates
    ensures ExchangedAt(rates, Some(Convert(rates, amount, Upper(from), Upper(to))), amount, from, to)
  {
    hide Upper, IsCode, NameOf, Convert, Exchanged;
    UpperIs(from, Upper(from));
    UpperIs(to, Upper(to));
    ConvertIs(rates, amount, Upper(from), Upper(to));
  }

  predicate RefreshDue(c: Cache, call: Call) {
    c.rates == map[] || call.now - c.fetched > EXPIRATION
  }

  /** The cache after a refresh that was due, and the code of a failure if there was one. */
  function Refresh(c: Cache, call: Call): (Cache, Code) {
    match call.response
    case Failed => (c, if call.later - c.fetched > MAXIMUM_AGE then ApiUnresponsive else FxOk)
    case Body(text) =>
      match List(text)
      case Thrown => (c, Internal)
      case Ok(rates) => (if rates != map[] then Cache(rates, call.later) else c, FxOk)
  }

  function Step(c: Cache, call: Call): (Cache, Reply) {
    if !IsCode(call.from) || !IsCode(call.to) then (c, Reply(UnknownCurrency, None))
    else
      var refreshed := if RefreshDue(c, call) then Refresh(c, call) else (c, FxOk);
      var c2 := refreshed.0;
      if refreshed.1 != FxOk then (c2, Reply(refreshed.1, None))
      else if c2.rates == map[] then (c2, Reply(RequestFailed, None))
      else
        var from, to := Upper(call.from), Upper(call.to);
        if from !in c2.rates || to !in c2.rates then (c2, Reply(UnknownCurrency, None))
        else (c2, Reply(FxOk, Some(Convert(c2.rates, call.amount, from, to))))
  }

  /** The module's state and its one function. */
  class FxModule {
    var currencyMap: Rates
    var latestFetch: int

    ghost function State(): Cache
      reads this
    {
      Cache(currencyMap, latestFetch)
    }

    constructor ()
      ensures State() == Cache(map[], 0)
    {
      currencyMap, latestFetch := map[], 0;
    }

    method FxConvert(amount: real, from: Option<string>, to: Option<string>, hasOut: bool,
                     now: int, response: Response, later: int)
      returns (code: Code, out: Option<Amount>)
      modifies this
      ensures from == None || to == None || !hasOut ==> code == NullArgument && State() == old(State())
      ensures from.Some? && to.Some? && hasOut ==>
                (State(), Reply(code, out))
                == Step(old(State()), Call(amount, from.value, to.value, now, response, later))
      ensures code == FxOk ==>
                from.Some? && to.Some? && ExchangedAt(currencyMap, out, amount, from.value, to.value)
      ensures code != FxOk ==> out == None
    {
      hide List, ExchangedAt;
      out := None;
      if from == None || to == None || !hasOut {
        return NullArgument, None;
      }
      if |from.value| != 3 || |to.value| != 3 {
        return UnknownCurrency, None;
      }
      for i := 0 to 3
        invariant forall j :: 0 <= j < i ==> IsAlpha(from.value[j]) && IsAlpha(to.value[j])
      {
        if !IsAlpha(from.value[i]) || !IsAlpha(to.value[i]) {
          return UnknownCurrency, None;
        }
      }
      var fromStr, toStr := Upper(from.value), Upper(to.value);
      if currencyMap == map[] || now - latestFetch > EXPIRATION {
        match response
        case Body(text) =>
          var parsed := FxCursor.ParseList(text);
          if parsed.Thrown? {
            return Internal, None;
          }
          if parsed.value != map[] {
            currencyMap, latestFetch := parsed.value, later;
          }
        case Failed =>
          if later - latestFetch > MAXIMUM_AGE {
            return ApiUnresponsive, None;
          }
      }
      if currencyMap == map[] {
        return RequestFailed, None;
      }
      if toStr !in currencyMap || fromStr !in currencyMap {
        return UnknownCurrency, None;
      }
      ExchangedIs(currencyMap, amount, from.value, to.value);
      return FxOk, Some(Convert(currencyMap, amount, fromStr, toStr));
    }
  }

  // ---------- how old the rates of a conversion can be

  predicate ParsesToNothing(r: Response) {
    r.Body? && List(r.text) == Result.Ok(map[])
  }

  /** A conversion uses rates at most ten minutes old, rates of this call, or old ones in two cases. */
  lemma {:induction false} Freshness(c: Cache, call: Call)
    requires Step(c, call).1.code == FxOk
    ensures var c2 := Step(c, call).0;
            || (c2 == c && call.now - c.fetched <= EXPIRATION)
            || Fetched(c2, call)
            || (c2 == c && call.response.Failed? && call.later - c.fetched <= MAXIMUM_AGE)
            || (c2 == c && ParsesToNothing(call.response))
  {
    hide List;
  }

  /** When the rates of a call are used: after the fetch if there is one. */
  function ServedAt(c: Cache, call: Call): int {
    if RefreshDue(c, call) then call.later else call.now
  }

  /** The documented promise: no conversion with rates older than seven days, in nanoseconds. */
  predicate WithinSevenDays(c: Cache, call: Call) {
    Step(c, call).1.code == FxOk ==> ServedAt(c, call) - Step(c, call).0.fetched <= 7 * 24 * 3600 * 1_000_000_000
  }

  /** It is kept except when old rates are cached and the fetch succeeds with nothing in it. */
  lemma {:induction false} SevenDaysExactly(c: Cache, call: Call)
    requires call.now <= call.later
    ensures WithinSevenDays(c, call) <==>
            !(&& ParsesToNothing(call.response)
              && call.now - c.fetched > EXPIRATION && call.later - c.fetched > MAXIMUM_AGE
              && IsCode(call.from) && IsCode(call.to) && Upper(call.from) in c.rates && Upper(call.to) in c.rates)
  {
    hide List;
  }

  /** A call that fetches one rate, and a later one that is served it, at any age, because the answer is empty. */
  lemma {:induction false} AnyAgeIsServed(age: nat) returns (first: Call, second: Call)
    ensures var c := Step(Cache(map[], 0), first).0;
            && first.now <= first.later <= second.now <= second.later
            && Step(Cache(map[], 0), first).1.code == FxOk && Step(c, second).1.code == FxOk
            && ServedAt(c, second) - Step(c, second).0.fetched > age
  {
    var eur := Quote("2026-09-21", "EUR", "EUR", 1, 0);
    var late := age + EXPIRATION + 1;
    first := Call(1.0, "eur", "eur", 0, Body(PrintList([eur])), 0);
    second := Call(1.0, "eur", "eur", late, Body("[]"), late);
    hide List, PrintList, Upper;
    OneRateReads(eur);
    NoRateReads();
    UpperEur();
  }

  lemma OneRateReads(q: Quote)
    requires q.WellShaped()
    ensures List(PrintList([q])).Ok? && q.name in List(PrintList([q])).value
  {
    hide List, PrintList, Quote.WellShaped;
    ListReadsPrinted([q]);
    FirstOfIsFirst([q], q.name);
    assert [q][0].name == q.name;
  }

  lemma NoRateReads()
    ensures List("[]") == Result.Ok(map[])
  {
    hide List;
    ListReadsPrinted([]);
    assert PrintList([]) == "[]";
  }

  lemma {:induction false} UpperEur()
    ensures Upper("eur") == "EUR"
  {
    assert "eur"[1..] == "ur" && "ur"[1..] == "r" && "r"[1..] == "";
    assert Upper("r") == ['R'] + Upper("") && Upper("ur") == ['U'] + Upper("r");
  }

  predicate Throws(call: Call) {
    call.response.Body? && List(call.response.text).Thrown?
  }

  /** A response that makes the parser throw changes neither the rates nor their time. */
  lemma {:induction false} ThrowingParseChangesNothing(c: Cache, call: Call)
    requires Throws(call)
    ensures Step(c, call).0 == c
    ensures RefreshDue(c, call) && IsCode(call.from) && IsCode(call.to) ==> Step(c, call).1.code == Internal
  {
    hide List;
  }

  /** While rates at most 600 s old are cached, nothing that a fetch would bring makes a difference. */
  lemma RecentRatesServe(c: Cache, call: Call, response: Response, later: int)
    requires c.rates != map[] && call.now - c.fetched <= 600_000_000_000
    ensures Step(c, call).0 == c && Step(c, call.(response := response, later := later)) == Step(c, call)
  {
    hide List;
  }

  /** Which error is reported when, and that nothing but letters makes a currency code. */
  lemma ErrorsExactly(c: Cache, call: Call)
    ensures var code := Step(c, call).1.code;
            var due := c.rates == map[] || call.now - c.fetched > 600_000_000_000;
            var tooOld := call.response.Failed? && call.later - c.fetched > 604_800_000_000_000;
            if !Letters(call.from) || !Letters(call.to) then code == UnknownCurrency && Step(c, call).0 == c
            else
              && (code == ApiUnresponsive <==> due && tooOld)
              && (code == Internal <==> due && Throws(call))
              && (code == RequestFailed <==>
                    c.rates == map[] && !tooOld && (call.response.Failed? || ParsesToNothing(call.response)))
              && (code == UnknownCurrency ==>
                    var rates := Step(c, call).0.rates;
                    rates != map[] && !(Listed(rates, call.from) && Listed(rates, call.to)))
  {
    hide List, Upper, NameOf;
    forall f, s | NameOf(s, f)
      ensures f == Upper(s)
    {
      UpperIs(s, f);
    }
  }

  ghost predicate Listed(rates: Rates, code: string) {
    exists name :: NameOf(code, name) && name in rates
  }

  /** Three ASCII letters, by their codes. */
  ghost predicate Letters(s: string) {
    |s| == 3 && forall i :: 0 <= i < 3 ==> 65 <= s[i] as int <= 90 || 97 <= s[i] as int <= 122
  }

  /** The `i`-th quote is the first one of its name. */
  ghost predicate IsFirst(qs: seq<Quote>, i: nat) {
    i < |qs| && forall j :: 0 <= j < i ==> qs[j].name != qs[i].name
  }

  /**
   * A call that fetches a printed list exchanges at the rates printed first for the two names: `x` units of the target
   * are worth `amount` of the source, with both rates as mantissa and number of decimal places.
   */
  lemma FreshConversion(c: Cache, call: Call, qs: seq<Quote>, i: nat, j: nat)
    requires forall k :: 0 <= k < |qs| ==> qs[k].WellShaped()
    requires call.response == Body(PrintList(qs)) && (c.rates == map[] || call.now - c.fetched > 600_000_000_000)
    requires IsFirst(qs, i) && IsFirst(qs, j) && NameOf(call.from, qs[i].name) && NameOf(call.to, qs[j].name)
    ensures var r := Step(c, call).1;
            && r.code == FxOk && r.out.Some?
            && if qs[i].mantissa == 0 then r.out == Some(NotFinite)
               else r.out.value.Finite?
                    && r.out.value.x * (qs[i].mantissa * Pow10(qs[j].places)) as real
                       == call.amount * (qs[j].mantissa * Pow10(qs[i].places)) as real
  {
    hide List, PrintList, Upper, Quote.WellShaped, FirstOf, Pow10, Decimal, Convert;
    var rates := FirstOf(qs);
    ListReadsPrinted(qs);
    FirstQuote(qs, i);
    FirstQuote(qs, j);
    UpperIs(call.from, qs[i].name);
    UpperIs(call.to, qs[j].name);
    ConvertIs(rates, call.amount, qs[i].name, qs[j].name);
    DecimalTimes(qs[i].mantissa, qs[i].places);
    DecimalTimes(qs[j].mantissa, qs[j].places);
    var out := Convert(rates, call.amount, qs[i].name, qs[j].name);
    assert Step(c, call).1 == Reply(FxOk, Some(out));
    if qs[i].mantissa != 0 {
      CrossMultiply(out.x, Decimal(qs[i].mantissa, qs[i].places), call.amount, Decimal(qs[j].mantissa, qs[j].places),
                    Pow10(qs[i].places) as real, Pow10(qs[j].places) as real,
                    qs[i].mantissa as real, qs[j].mantissa as real);
    }
  }

  lemma FirstQuote(qs: seq<Quote>, i: nat)
    requires IsFirst(qs, i)
    ensures qs[i].name in FirstOf(qs) && FirstOf(qs)[qs[i].name] == qs[i].ToCurrency()
  {
    hide FirstOf, Quote.ToCurrency;
    FirstOfIsFirst(qs, qs[i].name);
    var k :| 0 <= k < |qs| && qs[k].name == qs[i].name && FirstOf(qs)[qs[i].name] == qs[k].ToCurrency()
             && forall j :: 0 <= j < k ==> qs[j].name != qs[i].name;
    assert k == i;
  }

  lemma DecimalTimes(m: nat, k: nat)
    ensures Decimal(m, k) * Pow10(k) as real == m as real
    ensures Decimal(m, k) == 0.0 <==> m == 0
  {
    TimesBack(m as real, Pow10(k) as real);
  }

  lemma CrossMultiply(x: real, a: real, amount: real, b: real, p: real, q: real, m: real, n: real)
    requires x * a == amount * b && a * p == m && b * q == n
    ensures x * (m * q) == amount * (n * p)
  {
    calc {
      x * (a * p * q);
      (x * a) * (p * q);
      (amount * b) * (p * q);
      amount * (b * q * p);
    }
  }

  // ---------- over all runs

  /** The cache before, between and after the calls of a run. */
  ghost function States(c: Cache, calls: seq<Call>): (s: seq<Cache>)
    ensures |s| == |calls| + 1
    decreases |calls|
  {
    if calls == [] then [c] else [c] + States(Step(c, calls[0]).0, calls[1..])
  }

  /** The rates and their time are what one call fetched. */
  predicate Fetched(c: Cache, call: Call) {
    call.response.Body? && List(call.response.text) == Result.Ok(c.rates) && c.fetched == call.later
  }

  /** The rates are all from one response, and their time is that of the call that received it. */
  ghost predicate FromOneCall(c: Cache, calls: seq<Call>) {
    exists k :: 0 <= k < |calls| && Fetched(c, calls[k])
  }

  /** Over any run, the cache is what it was or the parse of one response of the run, and it never empties. */
  lemma {:induction false} CacheOverRuns(c: Cache, calls: seq<Call>, i: nat)
    requires i <= |calls|
    ensures States(c, calls)[i] == c || FromOneCall(States(c, calls)[i], calls[..i])
    ensures c.rates != map[] ==> States(c, calls)[i].rates != map[]
    decreases |calls|
  {
    hide List;
    if calls != [] {
      var c1 := Step(c, calls[0]).0;
      if i == 0 {
        CacheOverRuns(c1, calls[1..], 0);
      } else {
        CacheOverRuns(c1, calls[1..], i - 1);
        var ci := States(c, calls)[i];
        assert ci == States(c1, calls[1..])[i - 1];
        if ci == c1 && c1 != c {
          assert calls[..i][0] == calls[0];
          assert FromOneCall(ci, calls[..i]);
        } else if FromOneCall(ci, calls[1..][..i - 1]) {
          var k :| 0 <= k < i - 1 && Fetched(ci, calls[1..][..i - 1][k]);
          assert calls[..i][k + 1] == calls[1..][..i - 1][k];
        }
      }
    }
  }

  ghost function Final(c: Cache, calls: seq<Call>): Cache {
    States(c, calls)[|calls|]
  }

  ghost function WithoutThrowing(calls: seq<Call>): seq<Call> {
    if calls == [] then [] else (if Throws(calls[0]) then [] else [calls[0]]) + WithoutThrowing(calls[1..])
  }

  /** Over any run, the calls whose response makes the parser throw might as well not have happened. */
  lemma {:induction false} ThrowingCallsLeaveNoTrace(c: Cache, calls: seq<Call>)
    ensures Final(c, WithoutThrowing(calls)) == Final(c, calls)
    decreases |calls|
  {
    if calls != [] {
      hide Step, Throws;
      var first, rest := calls[0], WithoutThrowing(calls[1..]);
      ThrowingCallsLeaveNoTrace(Step(c, first).0, calls[1..]);
      if Throws(first) {
        ThrowingParseChangesNothing(c, first);
        assert WithoutThrowing(calls) == rest;
      } else {
        assert WithoutThrowing(calls) == [first] + rest;
      }
    }
  }

  /**
   * Rates from `fetched` may serve a call: they are at most 600 s old, or this call's fetch failed within 168 h of them
   * or was empty.
   */
  predicate MayServe(fetched: int, call: Call) {
    || call.now - fetched <= 600_000_000_000
    || (call.response.Failed? && call.later - fetched <= 604_800_000_000_000)
    || ParsesToNothing(call.response)
  }

  /**
   * Over any run from an empty cache, every conversion uses two rates that one call of the run fetched together:
   * this one, or an earlier one whose rates may still serve.
   */
  lemma {:induction false} EveryConversion(calls: seq<Call>, i: nat)
    requires i < |calls|
    requires Step(States(Cache(map[], 0), calls)[i], calls[i]).1.code == FxOk
    ensures var c := Step(States(Cache(map[], 0), calls)[i], calls[i]).0;
            var from, to := Upper(calls[i].from), Upper(calls[i].to);
            && (exists k :: 0 <= k <= i && Fetched(c, calls[k]) && (k == i || MayServe(c.fetched, calls[i])))
            && from in c.rates && to in c.rates
            && Step(States(Cache(map[], 0), calls)[i], calls[i]).1.out
               == Some(Convert(c.rates, calls[i].amount, from, to))
            && ExchangedAt(c.rates, Step(States(Cache(map[], 0), calls)[i], calls[i]).1.out, calls[i].amount,
                           calls[i].from, calls[i].to)
  {
    hide List, ExchangedAt;
    var c := States(Cache(map[], 0), calls)[i];
    var c2 := Step(c, calls[i]).0;
    Freshness(c, calls[i]);
    ExchangedIs(c2.rates, calls[i].amount, calls[i].from, calls[i].to);
    if !Fetched(c2, calls[i]) {
      assert c2 == c && c.rates != map[];
      CacheOverRuns(Cache(map[], 0), calls, i);
      var k :| 0 <= k < i && Fetched(c, calls[..i][k]);
      assert Fetched(c2, calls[k]);
    }
  }

  // ---------- conversions agree with one another

  /** With one set of rates, converting by way of a third currency changes nothing, and there and back is exact. */
  lemma {:induction false} ByWayOf(rates: Rates, amount: real, a: string, b: string, c: string)
    requires a in rates && b in rates && c in rates
    requires rates[a].rate != 0.0 && rates[b].rate != 0.0
    ensures var first := Convert(rates, amount, a, b);
            first.Finite? && Convert(rates, first.x, b, c) == Convert(rates, amount, a, c)
    ensures Convert(rates, Convert(rates, amount, a, b).x, b, a) == Finite(amount)
  {
    var x, y, z := rates[a].rate, rates[b].rate, rates[c].rate;
    Cancel(amount, x, y, z);
    Cancel(amount, x, y, x);
  }

  lemma Cancel(amount: real, x: real, y: real, z: real)
    requires x != 0.0 && y != 0.0
    ensures amount * y / x * z / y == amount * z / x
  {
  }
}
