/** The number printers of the Unity test framework (unity.c), with exact reals for floating point. */
module UnityPrint {
  import opened DecimalText

  // UNITY_UINT is 64 bits wide
  const UINT_RANGE := 0x1_0000_0000_0000_0000
  const INT_RANGE := 0x8000_0000_0000_0000

  /** The text of a signed integer. */
  function SignedText(n: int): string {
    if n < 0 then "-" + Digits(-n) else Digits(n)
  }

  function ReadSigned(s: string): int
    requires s != [] && (if s[0] == '-' then AllDigits(s[1..]) else AllDigits(s))
  {
    if s[0] == '-' then
      var v: int := Value(s[1..]);
      -v
    else Value(s)
  }

  lemma SignedReadsBack(n: int)
    ensures var s := SignedText(n);
            && (s[0] == '-' <==> n < 0)
            && (if s[0] == '-' then AllDigits(s[1..]) else AllDigits(s))
            && ReadSigned(s) == n
            && (n != 0 ==> s[if n < 0 then 1 else 0] != '0')
  {
    DigitsReadBack(if n < 0 then -n else n);
    if n < 0 {
      assert SignedText(n)[1..] == Digits(-n);
    } else {
      assert IsDigit(Digits(n)[0]);
    }
  }

  lemma DivDiv(n: nat, p: nat)
    requires p > 0
    ensures n / 10 / p == n / (10 * p) && n / p / 10 == n / (10 * p)
  {
    DivUnique(n, 10, p);
    DivUnique(n, p, 10);
  }

  lemma DivUnique(n: nat, a: nat, b: nat)
    requires a > 0 && b > 0
    ensures n / a / b == n / (a * b)
  {
    var m := n / a;
    DivMod(n, a);
    DivMod(m, b);
    Nested(n, m, a, b, m / b, m % b, n % a);
    InRange(a, b, m % b, n % a);
    QuotientIs(n, a * b, m / b, a * (m % b) + n % a);
  }

  lemma DivMod(n: nat, a: nat)
    requires a > 0
    ensures n == a * (n / a) + n % a && n % a < a
  {
  }

  lemma Nested(n: nat, m: nat, a: nat, b: nat, q: nat, r: nat, s: nat)
    requires n == a * m + s && m == b * q + r
    ensures n == (a * b) * q + (a * r + s)
  {
    assert a * m == a * (b * q + r) == (a * b) * q + a * r;
  }

  lemma InRange(a: nat, b: nat, r: nat, s: nat)
    requires r < b && s < a
    ensures 0 <= a * r + s < a * b
  {
    assert a * r <= a * (b - 1);
  }

  lemma QuotientIs(n: nat, d: nat, q: nat, r: nat)
    requires d > 0 && n == d * q + r && r < d
    ensures n / d == q
  {
    var k := n / d - q;
    assert n == d * (n / d) + n % d;
    assert d * k == r - n % d;
    assert k == 0 by {
      assert k >= 1 ==> d * k >= d;
      assert k <= -1 ==> d * k + d <= 0;
    }
  }

  class Printer {
    var out: string

    constructor ()
      ensures out == []
    {
      out := [];
    }

    method Put(c: char)
      modifies this
      ensures out == old(out) + [c]
    {
      out := out + [c];
    }

    method Print(s: string)
      modifies this
      ensures out == old(out) + s
    {
      for i := 0 to |s|
        invariant out == old(out) + s[..i]
      {
        Put(s[i]);
        assert s[..i + 1] == s[..i] + [s[i]];
      }
      assert s[..|s|] == s;
    }

    /** The divisor stays within the 64 bits of its type. */
    method PrintNumberUnsigned(number: nat)
      requires number < UINT_RANGE
      modifies this
      ensures out == old(out) + Digits(number)
    {
      var divisor: nat := 1;
      ghost var k: nat := 0;
      assert Pow10(0) == 1;
      while number / divisor > 9
        invariant divisor == Pow10(k) && 0 < divisor < UINT_RANGE
        invariant number / divisor > 0 || k == 0
        invariant out == old(out)
        decreases number / divisor
      {
        DivDiv(number, divisor);
        AtLeast(number, divisor);
        divisor := divisor * 10;
        k := k + 1;
      }
      DivDiv(number, divisor);
      ghost var started: bool, high: nat := false, 0;
      while divisor > 0
        invariant out == if started then old(out) + Digits(high) else old(out)
        invariant divisor > 0 ==> divisor == Pow10(k) && high == number / (10 * divisor)
        invariant divisor == 0 ==> started && high == number
        invariant !started ==> high == 0 && number / divisor <= 9 && (number / divisor > 0 || k == 0)
        invariant started && divisor > 0 ==> high > 0
        decreases divisor
      {
        DivDiv(number, divisor);
        Put(Digit(number / divisor % 10));
        assert started ==> out == old(out) + (Digits(high) + [Digit(number / divisor % 10)]);
        started, high := true, number / divisor;
        divisor := divisor / 10;
        k := if k > 0 then k - 1 else 0;
      }
    }

    /** Every 64-bit integer, the least one included: its negation wraps around in the unsigned type. */
    method PrintNumber(numberToPrint: int)
      requires -INT_RANGE <= numberToPrint < INT_RANGE
      modifies this
      ensures out == old(out) + SignedText(numberToPrint)
    {
      hide Digits;
      var number := numberToPrint % UINT_RANGE;
      Casts(numberToPrint);
      if numberToPrint < 0 {
        Put('-');
        var inverted := UINT_RANGE - 1 - number;
        number := (inverted + 1) % UINT_RANGE;
        WrapsBack(numberToPrint);
      }
      PrintNumberUnsigned(number);
      Marked(old(out), Digits(number));
    }

    static lemma Casts(n: int)
      requires n < INT_RANGE
      ensures 0 <= n ==> n % UINT_RANGE == n
    {
    }

    static lemma WrapsBack(n: int)
      requires -INT_RANGE <= n < 0
      ensures (UINT_RANGE - 1 - n % UINT_RANGE + 1) % UINT_RANGE == -n
    {
      assert n % UINT_RANGE == UINT_RANGE + n;
    }

    static lemma Marked(a: string, b: string)
      ensures a + ['-'] + b == a + ("-" + b)
    {
    }

    lemma AtLeast(number: nat, divisor: nat)
      requires divisor > 0 && number / divisor > 9
      ensures number >= 10 * divisor
    {
      assert number == divisor * (number / divisor) + number % divisor;
      assert divisor * (number / divisor) >= divisor * 10;
    }
  }
}
