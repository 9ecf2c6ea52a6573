/** The parser for the list of exchange rates (fx.cpp, currency.cpp). */
module FxParser {
  import opened Common
  import opened DecimalText
  import opened DecimalReader

  datatype Currency = Currency(date: string, base: string, name: string, rate: real)
  {
    predicate Valid() {
      |date| == 10 && date[4] == '-' && date[7] == '-' && |base| == 3 && |name| == 3
    }
  }

  type Rates = map<string, Currency>

  // ---------- the grammar, on what is left of the text

  /** What follows the first `c`. */
  function After(t: string, c: char): (r: Option<string>)
    ensures r.Some? ==> |r.value| < |t|
  {
    if t == [] then None else if t[0] == c then Some(t[1..]) else After(t[1..], c)
  }

  /** What stands before the first `c`. */
  function Before(t: string, c: char): (s: string)
    ensures |s| <= |t| && c !in s
  {
    if t == [] || t[0] == c then [] else [t[0]] + Before(t[1..], c)
  }

  /** After a colon and one more character, up to `len` characters and what follows `len` of them. */
  function Quoted(t: string, len: nat): (r: Result<(string, string)>)
    ensures r.Ok? ==> |r.value.1| < |t|
  {
    match After(t, ':')
    case None => Thrown
    case Some(u) =>
      if u == [] then Thrown
      else Ok((u[1..Min(1 + len, |u|)], u[Min(1 + len, |u|)..]))
  }

  /** After a colon, the number before the closing brace, and what follows that. */
  function Rate(t: string): (r: Result<(real, string)>)
    ensures r.Ok? ==> |r.value.1| < |t|
  {
    match After(t, ':')
    case None => Thrown
    case Some(u) =>
      match After(u, '}')
      case None => Thrown
      case Some(rest) =>
        var rate :- Stod(Before(u, '}'));
        Ok((rate, rest))
  }

  /** One object, and what follows its closing brace. */
  function Object(t: string): (r: Result<(Currency, string)>)
    ensures r.Ok? ==> |r.value.1| < |t| && r.value.0.Valid()
  {
    var date :- Quoted(t, 10);
    var base :- Quoted(date.1, 3);
    var name :- Quoted(base.1, 3);
    var rate :- Rate(name.1);
    var c := Currency(date.0, base.0, name.0, rate.0);
    if c.Valid() then Ok((c, rate.1)) else Thrown
  }

  /** All objects; the first one of a name counts. */
  function List(t: string): (r: Result<Rates>)
    decreases |t|
  {
    if t == [] then Ok(map[])
    else if t[0] != '{' then List(t[1..])
    else
      var o :- Object(t);
      var later :- List(o.1);
      Ok(later[o.0.name := o.0])
  }

  /** On any text at all: an exception, or valid entries under their own three-letter names. */
  lemma {:induction false} EntriesUnderTheirNames(t: string)
    ensures List(t).Ok? ==>
              forall k :: k in List(t).value ==> |k| == 3 && List(t).value[k].Valid() && List(t).value[k].name == k
    decreases |t|
  {
    if t == [] {
    } else if t[0] != '{' {
      EntriesUnderTheirNames(t[1..]);
    } else if Object(t).Ok? {
      EntriesUnderTheirNames(Object(t).value.1);
    }
  }

  // ---------- parsing inverts printing

  /** An object of the API; the rate is `mantissa / 10^places`. */
  datatype Quote = Quote(date: string, base: string, name: string, mantissa: nat, places: nat)
  {
    predicate WellShaped() {
      |date| == 10 && date[4] == '-' && date[7] == '-' && |base| == 3 && |name| == 3
    }

    function ToCurrency(): Currency {
      Currency(date, base, name, Decimal(mantissa, places))
    }
  }

  function Print(q: Quote): string {
    "{\"date\":" + ("\"" + q.date + ("\",\"base\":" + ("\"" + q.base + ("\",\"quote\":" + ("\"" + q.name
    + ("\",\"rate\":" + (Fixed(q.mantissa, q.places) + "}")))))))
  }

  function PrintRest(qs: seq<Quote>): string {
    if qs == [] then "]" else "," + (Print(qs[0]) + PrintRest(qs[1..]))
  }

  function PrintList(qs: seq<Quote>): string {
    if qs == [] then "[]" else "[" + (Print(qs[0]) + PrintRest(qs[1..]))
  }

  lemma {:induction false} AfterSkips(a: string, c: char, b: string)
    requires c !in a
    ensures After(a + [c] + b, c) == Some(b) && Before(a + [c] + b, c) == a
  {
    if a != [] {
      AfterSkips(a[1..], c, b);
      assert (a + [c] + b)[1..] == a[1..] + [c] + b;
      assert a == [a[0]] + a[1..];
    } else {
      assert a + [c] + b == [c] + b;
    }
  }

  lemma QuotedReads(key: string, s: string, rest: string)
    requires ':' !in key
    ensures Quoted(key + [':'] + ("\"" + s + rest), |s|) == Ok((s, rest))
  {
    AfterSkips(key, ':', "\"" + s + rest);
    var u := "\"" + s + rest;
    assert u[1..1 + |s|] == s && u[1 + |s|..] == rest;
  }

  lemma ObjectReadsPrinted(q: Quote, rest: string)
    requires q.WellShaped()
    ensures Object(Print(q) + rest) == Ok((q.ToCurrency(), rest))
  {
    hide Object, Print;
    ObjectChecksDate(q, rest);
  }

  /** An object whose fields are as long as they should be is read if its date has the dashes, and refused if not. */
  lemma ObjectChecksDate(q: Quote, rest: string)
    requires |q.date| == 10 && |q.base| == 3 && |q.name| == 3
    ensures Object(Print(q) + rest)
         == if q.date[4] == '-' && q.date[7] == '-' then Ok((q.ToCurrency(), rest)) else Thrown
  {
    hide Stod, Fixed, Decimal, After, Before, Quoted;
    var rate := Fixed(q.mantissa, q.places);
    var t3 := "\",\"rate\":" + (rate + "}" + rest);
    var t2 := "\",\"quote\":" + ("\"" + q.name + t3);
    var t1 := "\",\"base\":" + ("\"" + q.base + t2);
    assert Print(q) + rest == "{\"date\":" + ("\"" + q.date + t1);
    QuotedReads("{\"date\"", q.date, t1);
    assert "{\"date\"" + [':'] == "{\"date\":";
    QuotedReads("\",\"base\"", q.base, t2);
    assert "\",\"base\"" + [':'] == "\",\"base\":";
    QuotedReads("\",\"quote\"", q.name, t3);
    assert "\",\"quote\"" + [':'] == "\",\"quote\":";
    AfterSkips("\",\"rate\"", ':', rate + "}" + rest);
    assert "\",\"rate\"" + [':'] == "\",\"rate\":";
    StodReadsFixed(q.mantissa, q.places);
    FixedChars(q.mantissa, q.places);
    AfterSkips(rate, '}', rest);
  }

  lemma {:induction false} AfterChars(t: string, c: char)
    ensures After(t, c).Some? <==> c in t
    ensures After(t, c).Some? ==> forall x :: x in After(t, c).value ==> x in t
  {
    if t != [] {
      AfterChars(t[1..], c);
      assert t == [t[0]] + t[1..];
    }
  }

  lemma QuotedChars(t: string, len: nat)
    ensures Quoted(t, len).Ok? ==> ':' in t && forall x :: x in Quoted(t, len).value.1 ==> x in t
  {
    AfterChars(t, ':');
  }

  /** Without a colon, or without a closing brace, there is no object. */
  lemma MalformedThrows(t: string)
    requires ':' !in t || '}' !in t
    ensures Object(t).Thrown?
  {
    hide Quoted, After;
    var date := Quoted(t, 10);
    QuotedChars(t, 10);
    if date.Ok? {
      var base := Quoted(date.value.1, 3);
      QuotedChars(date.value.1, 3);
      if base.Ok? {
        var name := Quoted(base.value.1, 3);
        QuotedChars(base.value.1, 3);
        if name.Ok? {
          AfterChars(name.value.1, ':');
          if After(name.value.1, ':').Some? {
            AfterChars(After(name.value.1, ':').value, '}');
          }
        }
      }
    }
  }

  /** The first quote of each name, under that name. */
  ghost function FirstOf(qs: seq<Quote>): Rates {
    if qs == [] then map[] else FirstOf(qs[1..])[qs[0].name := qs[0].ToCurrency()]
  }

  lemma {:induction false} FirstOfIsFirst(qs: seq<Quote>, k: string)
    ensures k in FirstOf(qs) <==> exists i :: 0 <= i < |qs| && qs[i].name == k
    ensures k in FirstOf(qs) ==>
              exists i :: 0 <= i < |qs| && qs[i].name == k && FirstOf(qs)[k] == qs[i].ToCurrency()
                && forall j :: 0 <= j < i ==> qs[j].name != k
  {
    if qs != [] {
      FirstOfIsFirst(qs[1..], k);
      if qs[0].name != k && k in FirstOf(qs[1..]) {
        var i :| 0 <= i < |qs[1..]| && qs[1..][i].name == k && FirstOf(qs[1..])[k] == qs[1..][i].ToCurrency()
                 && forall j :: 0 <= j < i ==> qs[1..][j].name != k;
        assert qs[i + 1].name == k && forall j :: 0 <= j < i + 1 ==> qs[j].name != k;
      }
    }
  }

  lemma {:induction false} ListReadsRest(qs: seq<Quote>)
    requires forall i :: 0 <= i < |qs| ==> qs[i].WellShaped()
    ensures List(PrintRest(qs)) == Ok(FirstOf(qs))
  {
    if qs == [] {
      assert "]"[1..] == "";
    } else {
      ListReadsRest(qs[1..]);
      ListReadsObject(qs[0], PrintRest(qs[1..]));
      var t := PrintRest(qs);
      assert t[1..] == Print(qs[0]) + PrintRest(qs[1..]);
    }
  }

  lemma ListReadsObject(q: Quote, rest: string)
    requires q.WellShaped() && List(rest).Ok?
    ensures List(Print(q) + rest) == Ok(List(rest).value[q.name := q.ToCurrency()])
  {
    ObjectReadsPrinted(q, rest);
    assert (Print(q) + rest)[0] == '{';
  }

  lemma ListSkips(c: char, t: string)
    requires c != '{'
    ensures List([c] + t) == List(t)
  {
    assert ([c] + t)[1..] == t;
  }

  /** Parsing a printed list gives each name the rate of its first occurrence. */
  lemma ListReadsPrinted(qs: seq<Quote>)
    requires forall i :: 0 <= i < |qs| ==> qs[i].WellShaped()
    ensures List(PrintList(qs)) == Ok(FirstOf(qs))
  {
    hide Print, Object, List, Quote.WellShaped;
    ListReadsRest(if qs == [] then [] else qs[1..]);
    if qs == [] {
      assert PrintList(qs) == ['['] + PrintRest(qs);
      ListSkips('[', PrintRest(qs));
    } else {
      ListReadsObject(qs[0], PrintRest(qs[1..]));
      assert PrintList(qs) == ['['] + (Print(qs[0]) + PrintRest(qs[1..]));
      ListSkips('[', Print(qs[0]) + PrintRest(qs[1..]));
    }
  }
}
