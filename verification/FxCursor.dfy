/** The cursor that walks over the response text (fx.cpp), proved against the grammar. */
module FxCursor {
  import opened Common
  import opened DecimalReader
  import opened FxParser

  lemma {:induction false} FoundAt(t: string, c: char, i: nat)
    requires i < |t| && t[i] == c && forall j :: 0 <= j < i ==> t[j] != c
    ensures After(t, c) == Some(t[i + 1..]) && Before(t, c) == t[..i]
  {
    if i > 0 {
      FoundAt(t[1..], c, i - 1);
      assert t[..i] == [t[0]] + t[1..][..i - 1];
    }
  }

  lemma {:induction false} FoundNowhere(t: string, c: char)
    requires c !in t
    ensures After(t, c) == None
  {
    if t != [] {
      FoundNowhere(t[1..], c);
    }
  }

  /** Text without an opening brace adds nothing. */
  lemma {:induction false} ListFrom(t: string, i: nat)
    requires i <= |t| && '{' !in t[..i]
    ensures List(t) == List(t[i..])
  {
    if i > 0 {
      assert t[..i] == [t[0]] + t[1..][..i - 1];
      ListFrom(t[1..], i - 1);
      assert t[1..][i - 1..] == t[i..];
    } else {
      assert t[0..] == t;
    }
  }

  /** Entries found so far win over later ones of the same name. */
  ghost function Joined(found: Rates, later: Result<Rates>): Result<Rates> {
    if later.Thrown? then Thrown else Ok(later.value + found)
  }

  lemma Sliced(s: string, from: nat, len: nat)
    requires from < |s|
    ensures var u, end := s[from..], if from + 1 + len < |s| then from + 1 + len else |s|;
            && u[1..Min(1 + len, |u|)] == s[from + 1..end]
            && u[Min(1 + len, |u|)..] == if from + 1 + len <= |s| then s[from + 1 + len..] else []
  {
  }

  class Cursor {
    const str: string
    var pos: nat

    constructor (str: string)
      ensures this.str == str && pos == 0
    {
      this.str, pos := str, 0;
    }

    ghost function Left(): string
      reads this
    {
      if pos <= |str| then str[pos..] else []
    }

    /** The first `c` from the cursor on. */
    method Find(c: char) returns (r: Option<nat>)
      ensures r == None ==> c !in Left() && After(Left(), c) == None
      ensures r.Some? ==>
                && pos <= r.value < |str| && str[r.value] == c && c !in str[pos..r.value]
                && After(Left(), c) == Some(str[r.value + 1..]) && Before(Left(), c) == str[pos..r.value]
    {
      var i := pos;
      while i < |str|
        invariant pos <= i
        invariant i <= |str| || i == pos
        invariant i <= |str| ==> c !in str[pos..i]
      {
        if str[i] == c {
          assert forall j :: 0 <= j < i - pos ==> Left()[j] == str[pos..i][j];
          FoundAt(Left(), c, i - pos);
          return Some(i);
        }
        i := i + 1;
      }
      FoundNowhere(Left(), c);
      return None;
    }

    method ReadQuoted(len: nat) returns (r: Result<string>)
      modifies this
      ensures r.Ok? <==> Quoted(old(Left()), len).Ok?
      ensures r.Ok? ==> (r.value, Left()) == Quoted(old(Left()), len).value && pos > old(pos)
    {
      hide After, Before, Min;
      var colon := Find(':');
      if colon == None {
        return Thrown;
      }
      pos := colon.value + 1;
      if pos + 1 > |str| {
        return Thrown;
      }
      var end := if pos + 1 + len < |str| then pos + 1 + len else |str|;
      r := Ok(str[pos + 1..end]);
      pos := pos + 1 + len;
      Sliced(str, colon.value + 1, len);
    }

    method ReadRate() returns (r: Result<real>)
      modifies this
      ensures r.Ok? <==> Rate(old(Left())).Ok?
      ensures r.Ok? ==> (r.value, Left()) == Rate(old(Left())).value && pos > old(pos)
    {
      hide Stod, After, Before;
      var colon := Find(':');
      if colon == None {
        return Thrown;
      }
      pos := colon.value + 1;
      var close := Find('}');
      if close == None {
        return Thrown;
      }
      r := Stod(str[pos..close.value]);
      pos := close.value + 1;
    }

    /** Reads one object and leaves the cursor just past its closing brace. */
    method ParseObject() returns (r: Result<Currency>)
      modifies this
      ensures r.Ok? <==> Object(old(Left())).Ok?
      ensures r.Ok? ==> (r.value, Left()) == Object(old(Left())).value && pos > old(pos)
    {
      hide Quoted, Rate;
      var date := ReadQuoted(10);
      if date.Thrown? {
        return Thrown;
      }
      var base := ReadQuoted(3);
      if base.Thrown? {
        return Thrown;
      }
      var name := ReadQuoted(3);
      if name.Thrown? {
        return Thrown;
      }
      var rate := ReadRate();
      if rate.Thrown? {
        return Thrown;
      }
      var c := Currency(date.value, base.value, name.value, rate.value);
      return if c.Valid() then Ok(c) else Thrown;
    }
  }

  /** Parses all objects of a response; the first one of a name is kept. */
  method ParseList(str: string) returns (r: Result<Rates>)
    ensures r == List(str)
  {
    hide List, Object, Joined;
    var list: Rates := map[];
    var c := new Cursor(str);
    assert c.Left() == str;
    JoinNothing(List(str));
    while true
      invariant fresh(c) && c.str == str
      invariant List(str) == Joined(list, List(c.Left()))
      decreases |str| - c.pos
    {
      var open := c.Find('{');
      if open == None {
        NoObject(c.Left());
        JoinEnd(list);
        return Ok(list);
      }
      Skipped(str, c.pos, open.value);
      ListFrom(c.Left(), open.value - c.pos);
      c.pos := open.value;
      ListStep(c.Left(), list);
      JoinEnd(list);
      var currency := c.ParseObject();
      if currency.Thrown? {
        return Thrown;
      }
      if currency.value.name !in list {
        list := list[currency.value.name := currency.value];
      }
    }
  }

  lemma Skipped(s: string, from: nat, to: nat)
    requires from <= to <= |s|
    ensures s[from..][..to - from] == s[from..to] && s[from..][to - from..] == s[to..]
  {
  }

  lemma JoinNothing(r: Result<Rates>)
    ensures Joined(map[], r) == r
  {
    if r.Ok? {
      assert r.value + map[] == r.value;
    }
  }

  lemma JoinEnd(list: Rates)
    ensures Joined(list, Ok(map[])) == Ok(list) && Joined(list, Thrown) == Thrown
  {
    assert map[] + list == list;
  }

  lemma NoObject(t: string)
    requires '{' !in t
    ensures List(t) == Ok(map[])
  {
    assert t[..|t|] == t;
    ListFrom(t, |t|);
  }

  lemma ListStep(t: string, list: Rates)
    requires t != [] && t[0] == '{'
    ensures Object(t).Thrown? ==> List(t) == Thrown
    ensures Object(t).Ok? ==>
              var c := Object(t).value.0;
              Joined(list, List(t))
              == Joined(if c.name in list then list else list[c.name := c], List(Object(t).value.1))
  {
    if Object(t).Ok? && List(Object(t).value.1).Ok? {
      var c := Object(t).value.0;
      var later := List(Object(t).value.1).value;
      assert later[c.name := c] + list == later + (if c.name in list then list else list[c.name := c]);
    }
  }
}
