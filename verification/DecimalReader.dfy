/** Reading numbers back from text: the C++ library's `stod`, on decimal literals. */
module DecimalReader {
  import opened Common
  import opened DecimalText

  /** `stod` and the parser throw; every exception ends up in the same handler. */
  datatype Result<T> = Ok(value: T) | Thrown
  {
    predicate IsFailure() {
      Thrown?
    }

    function PropagateFailure<U>(): Result<U>
      requires Thrown?
    {
      Thrown
    }

    function Extract(): T
      requires Ok?
    {
      value
    }
  }

  function SkipBlanks(s: string): string {
    if s != [] && s[0] in " \t\n\r\U{0B}\U{0C}" then SkipBlanks(s[1..]) else s
  }

  function DigitPrefix(s: string): (n: nat)
    ensures n <= |s| && AllDigits(s[..n]) && (n < |s| ==> !IsDigit(s[n]))
  {
    if s == [] || !IsDigit(s[0]) then 0
    else
      var n := DigitPrefix(s[1..]);
      assert s[..n + 1] == [s[0]] + s[1..][..n];
      n + 1
  }

  /** The power of ten that an exponent suffix asks for; nothing unless digits follow. */
  function Exponent(s: string): int {
    if s == [] || s[0] !in "eE" then 0
    else
      var signed := |s| > 1 && s[1] in "+-";
      var t := if signed then s[2..] else s[1..];
      var e: int := Value(t[..DigitPrefix(t)]);
      if signed && s[1] == '-' then -e else e
  }

  /** Digits before the point, digits after it, and where the literal ends. */
  function Parts(t: string): (r: (string, string, string))
    ensures AllDigits(r.0) && AllDigits(r.1)
  {
    var n := DigitPrefix(t);
    if n < |t| && t[n] == '.' then
      var u := t[n + 1..];
      var k := DigitPrefix(u);
      (t[..n], u[..k], u[k..])
    else (t[..n], [], t[n..])
  }

  function Number(whole: string, fraction: string, exponent: int): real
    requires AllDigits(whole) && AllDigits(fraction)
  {
    Decimal(Value(whole) * Pow10(|fraction|) + Value(fraction), |fraction|) * Power(exponent)
  }

  function Unsigned(t: string): Result<real> {
    var p := Parts(t);
    if p.0 == [] && p.1 == [] then Thrown else Ok(Number(p.0, p.1, Exponent(p.2)))
  }

  /** `stod` on a decimal literal: blanks, sign, digits with an optional point, exponent; the rest is ignored. */
  function Stod(s: string): Result<real> {
    var u := SkipBlanks(s);
    if u != [] && u[0] == '-' then
      var x :- Unsigned(u[1..]);
      Ok(-x)
    else Unsigned(if u != [] && u[0] == '+' then u[1..] else u)
  }

  /** `s` starts like a decimal number: blanks, a sign or none, a point or none, and a digit. */
  ghost predicate StartsNumber(s: string) {
    exists blanks, sign, point, u :: s == blanks + (sign + (point + u)) && StartParts(blanks, sign, point, u)
  }

  ghost predicate StartParts(blanks: string, sign: string, point: string, u: string) {
    && (forall c :: c in blanks ==> c in " \t\n\r\U{0B}\U{0C}")
    && sign in {"", "+", "-"} && point in {"", "."} && u != [] && '0' <= u[0] <= '9'
  }

  /** `stod` throws on every other text, and on no such text. */
  lemma ThrowsExactly(s: string)
    ensures Stod(s).Thrown? <==> !StartsNumber(s)
  {
    hide StartParts, Stod;
    if StartsNumber(s) {
      var blanks, sign, point, u :| s == blanks + (sign + (point + u)) && StartParts(blanks, sign, point, u);
      Reads(blanks, sign, point, u);
    }
    if Stod(s).Ok? {
      var blanks, sign, point, u := PartsRead(s);
    }
  }

  lemma Reads(blanks: string, sign: string, point: string, u: string)
    requires StartParts(blanks, sign, point, u)
    ensures Stod(blanks + (sign + (point + u))).Ok?
  {
    hide Unsigned, SkipBlanks;
    var t := point + u;
    assert t[0] == if point == "" then u[0] else '.';
    var v := sign + t;
    assert if sign == "" then v == t else v[0] == sign[0] && v[1..] == t;
    SkipsBlanks(blanks, v);
    ReadsDigit(point, u);
  }

  lemma PartsRead(s: string) returns (blanks: string, sign: string, point: string, u: string)
    requires Stod(s).Ok?
    ensures s == blanks + (sign + (point + u)) && StartParts(blanks, sign, point, u)
  {
    hide SkipBlanks, Unsigned, StartParts;
    blanks := BlanksOf(s);
    var v := SkipBlanks(s);
    sign := if v != [] && v[0] in "+-" then [v[0]] else "";
    var t := v[|sign|..];
    point, u := DigitRead(t);
    assert v == sign + t && sign in {"", "+", "-"};
    MakesParts(blanks, sign, point, u);
  }

  lemma MakesParts(blanks: string, sign: string, point: string, u: string)
    requires forall c :: c in blanks ==> c in " \t\n\r\U{0B}\U{0C}"
    requires sign in {"", "+", "-"} && point in {"", "."} && u != [] && IsDigit(u[0])
    ensures StartParts(blanks, sign, point, u)
  {
  }

  lemma DigitRead(t: string) returns (point: string, u: string)
    requires Unsigned(t).Ok?
    ensures t == point + u && point in {"", "."} && u != [] && IsDigit(u[0])
  {
    hide Number, Exponent;
    point := if t[0] == '.' then "." else "";
    u := t[|point|..];
  }

  /** A number starts with a digit, or with a point and a digit. */
  lemma ReadsDigit(point: string, u: string)
    requires point in {"", "."} && u != [] && IsDigit(u[0])
    ensures Unsigned(point + u).Ok?
  {
    assert point != "" ==> (point + u)[1..] == u && (point + u)[0] == '.';
    assert "" + u == u;
  }

  lemma {:induction false} SkipsBlanks(blanks: string, rest: string)
    requires forall c :: c in blanks ==> c in " \t\n\r\U{0B}\U{0C}"
    requires rest != [] && rest[0] !in " \t\n\r\U{0B}\U{0C}"
    ensures SkipBlanks(blanks + rest) == rest
  {
    if blanks == [] {
      assert blanks + rest == rest;
    } else {
      SkipsBlanks(blanks[1..], rest);
      assert (blanks + rest)[1..] == blanks[1..] + rest;
    }
  }

  lemma {:induction false} BlanksOf(s: string) returns (blanks: string)
    ensures s == blanks + SkipBlanks(s) && forall c :: c in blanks ==> c in " \t\n\r\U{0B}\U{0C}"
  {
    blanks := [];
    if s != [] && s[0] in " \t\n\r\U{0B}\U{0C}" {
      var more := BlanksOf(s[1..]);
      blanks := [s[0]] + more;
      assert s == [s[0]] + s[1..];
    }
  }

  lemma {:induction false} DigitPrefixStops(d: string, rest: string)
    requires AllDigits(d) && (rest == [] || !IsDigit(rest[0]))
    ensures DigitPrefix(d + rest) == |d|
  {
    if d == [] {
      assert d + rest == rest;
    } else {
      DigitPrefixStops(d[1..], rest);
      assert (d + rest)[1..] == d[1..] + rest;
    }
  }

  lemma PartsWithPoint(w: string, f: string, rest: string)
    requires AllDigits(w) && AllDigits(f) && (rest == [] || !IsDigit(rest[0]))
    ensures Parts(w + ("." + (f + rest))) == (w, f, rest)
  {
    var u := f + rest;
    var s := w + ("." + u);
    DigitPrefixStops(w, "." + u);
    assert s[|w| + 1..] == u && s[..|w|] == w && s[|w|] == '.';
    DigitPrefixStops(f, rest);
    assert u[..|f|] == f && u[|f|..] == rest;
  }

  lemma PartsWithoutPoint(d: string, rest: string)
    requires AllDigits(d) && (rest == [] || (!IsDigit(rest[0]) && rest[0] != '.'))
    ensures Parts(d + rest) == (d, [], rest)
  {
    DigitPrefixStops(d, rest);
    var s := d + rest;
    assert s[..|d|] == d && s[|d|..] == rest;
  }

  lemma PartsOfFixed(n: nat, k: nat, rest: string)
    requires rest == [] || (!IsDigit(rest[0]) && rest[0] != '.')
    ensures var d := Padded(n, k + 1);
            Parts(Fixed(n, k) + rest) == (d[..|d| - k], d[|d| - k..], rest)
  {
    var d := Padded(n, k + 1);
    var w, f := d[..|d| - k], d[|d| - k..];
    FixedIs(n, k);
    hide *;
    if k == 0 {
      PartsWithoutPoint(d, rest);
    } else {
      PartsWithPoint(w, f, rest);
      Regroup(w, "." + f, rest);
      Regroup(".", f, rest);
    }
  }

  lemma FixedIs(n: nat, k: nat)
    ensures var d := Padded(n, k + 1);
            var w, f := d[..|d| - k], d[|d| - k..];
            && AllDigits(w) && AllDigits(f)
            && if k == 0 then Fixed(n, k) == d == w && f == [] else Fixed(n, k) == w + ("." + f)
  {
    hide Padded;
  }

  lemma FixedChars(n: nat, k: nat)
    ensures Fixed(n, k) != [] && IsDigit(Fixed(n, k)[0])
    ensures '}' !in Fixed(n, k)
  {
    hide Padded;
    var d := Padded(n, k + 1);
    if k > 0 {
      assert Fixed(n, k) == d[..|d| - k] + ("." + d[|d| - k..]);
    }
  }

  lemma NumberJoined(w: string, f: string, e: int)
    requires AllDigits(w) && AllDigits(f)
    ensures AllDigits(w + f) && Number(w, f, e) == Decimal(Value(w + f), |f|) * Power(e)
  {
    hide Value, Pow10, Decimal, Power;
    ValueConcat(w, f);
  }

  lemma UnsignedReads(n: nat, k: nat, rest: string)
    requires rest == [] || rest[0] in "eE"
    ensures Unsigned(Fixed(n, k) + rest) == Ok(Decimal(n, k) * Power(Exponent(rest)))
  {
    hide Fixed, Padded, Parts, Number, Value, Exponent, Decimal, Power;
    var d := Padded(n, k + 1);
    var w, f := d[..|d| - k], d[|d| - k..];
    PartsOfFixed(n, k, rest);
    PaddedReadsBack(n, k + 1);
    NumberJoined(w, f, Exponent(rest));
    assert d == w + f;
    assert Number(w, f, Exponent(rest)) == Decimal(n, k) * Power(Exponent(rest));
    assert w != [] && |f| == k;
    assert Unsigned(Fixed(n, k) + rest) == Ok(Number(w, f, Exponent(rest)));
  }

  /** A printed decimal, with or without an exponent, is read back as exactly its value. */
  lemma StodReads(n: nat, k: nat, negative: bool, rest: string)
    requires rest == [] || rest[0] in "eE"
    ensures var x := Decimal(n, k) * Power(Exponent(rest));
            Stod((if negative then "-" else "") + (Fixed(n, k) + rest)) == Ok(if negative then -x else x)
  {
    hide Fixed, Unsigned, Exponent, Decimal, Power;
    UnsignedReads(n, k, rest);
    FixedChars(n, k);
    var s := Fixed(n, k) + rest;
    assert s[0] == Fixed(n, k)[0];
    if negative {
      assert ("-" + s)[1..] == s && ("-" + s)[0] == '-';
    } else {
      assert SkipBlanks(s) == s;
      assert "" + s == s;
    }
  }

  lemma StodReadsFixed(n: nat, k: nat)
    ensures Stod(Fixed(n, k)) == Ok(Decimal(n, k))
  {
    hide Stod, Fixed;
    StodReads(n, k, false, []);
    assert "" + (Fixed(n, k) + []) == Fixed(n, k);
    assert Exponent([]) == 0;
  }

  /** The exponent as it is printed: nothing for 0, else a sign and at least two digits. */
  function ExponentText(e: int): string {
    if e == 0 then "" else "e" + ((if e < 0 then "-" else "+") + Padded(if e < 0 then -e else e, 2))
  }

  lemma ExponentReads(e: int)
    ensures Exponent(ExponentText(e)) == e
    ensures ExponentText(e) == [] || ExponentText(e)[0] in "eE"
  {
    if e != 0 {
      var d := Padded(if e < 0 then -e else e, 2);
      var s := ExponentText(e);
      PaddedReadsBack(if e < 0 then -e else e, 2);
      DigitPrefixStops(d, []);
      assert d + [] == d && s[2..] == d && d[..|d|] == d;
      assert s[0] == 'e' && s[1] == if e < 0 then '-' else '+';
    }
  }
}
