/** What lookups in the cache of alternative services see, after one header and over whole runs. */
module AltSvcRuns {
  import opened Common
  import opened AltSvc

  /** Two origins that the cache cannot tell apart. */
  ghost predicate Alike(o: Origin, q: Origin) {
    o.alpn == q.alpn && o.port == q.port && SameText(WithoutDot(o.host), WithoutDot(q.host))
  }

  lemma SentByAlike(e: Entry, o: Origin, q: Origin)
    requires IsFrom(e, o)
    ensures IsFrom(e, q) <==> Alike(o, q)
  {
    hide WithoutDot;
  }

  /** A filed entry answers for its own origin, and for exactly those that the cache cannot tell from it. */
  lemma OwnEntry(q: Origin, a: Alternative, now: nat, o: Origin)
    requires a.alpn.Some?
    ensures IsFrom(Made(q, a, now), o) <==> Alike(o, q)
    ensures Alike(q, q)
  {
    FoundAgain(q.host);
  }

  // ---------- lookups

  lemma {:induction false} AnswerSplit(s: seq<Entry>, t: seq<Entry>, o: Origin, versions: set<Alpn>, now: int)
    ensures var a := Answer(s, o, versions, now);
            Answer(s + t, o, versions, now) == if a.Some? then a else Answer(t, o, versions, now)
  {
    if s == [] {
      assert s + t == t;
    } else {
      hide Answers, Answer;
      AnswerSplit(s[1..], t, o, versions, now);
      AnswerFirst(s, o, versions, now);
      AnswerFirst(s + t, o, versions, now);
      assert (s + t)[1..] == s[1..] + t;
    }
  }

  lemma AnswerFirst(s: seq<Entry>, o: Origin, versions: set<Alpn>, now: int)
    requires s != []
    ensures Answer(s, o, versions, now) == if s[0].expires >= now && Answers(s[0], o, versions) then Some(s[0])
                                           else Answer(s[1..], o, versions, now)
  {
    hide Answers;
  }

  /** After "clear" the origin has no alternatives; all others have what they had. */
  lemma {:induction false} ClearForgets(s: seq<Entry>, q: Origin, o: Origin, versions: set<Alpn>, now: int)
    ensures Answer(Others(s, q), o, versions, now) == if Alike(o, q) then None else Answer(s, o, versions, now)
  {
    if s != [] {
      hide SameHost, Alike;
      ClearForgets(s[1..], q, o, versions, now);
      if IsFrom(s[0], o) {
        SentByAlike(s[0], o, q);
      }
      var h := if IsFrom(s[0], q) then [] else [s[0]];
      AnswerSplit(h, Others(s[1..], q), o, versions, now);
      AnswerSplit([s[0]], s[1..], o, versions, now);
      assert s == [s[0]] + s[1..];
    }
  }

  lemma {:induction false} AnswerUnexpired(s: seq<Entry>, t: int, o: Origin, versions: set<Alpn>, now: int)
    requires t <= now
    ensures Answer(Unexpired(s, t), o, versions, now) == Answer(s, o, versions, now)
  {
    hide Answers;
    if s != [] {
      AnswerUnexpired(s[1..], t, o, versions, now);
      AnswerSplit(if s[0].expires < t then [] else [s[0]], Unexpired(s[1..], t), o, versions, now);
      AnswerSplit([s[0]], s[1..], o, versions, now);
      assert s == [s[0]] + s[1..];
    }
  }

  /** Dropping expired entries changes no later lookup, of any origin. */
  lemma LookupsDoNotInterfere(s: seq<Entry>, q: Origin, v: set<Alpn>, t: int, o: Origin, versions: set<Alpn>, now: int)
    requires t <= now
    ensures Answer(Looked(s, q, v, t), o, versions, now) == Answer(s, o, versions, now)
  {
    hide Answers, Answer, Unexpired;
    var i := FirstAnswer(s, q, v, t);
    AnswerUnexpired(s[..i], t, o, versions, now);
    AnswerSplit(Unexpired(s[..i], t), s[i..], o, versions, now);
    AnswerSplit(s[..i], s[i..], o, versions, now);
    assert s == s[..i] + s[i..];
  }

  lemma {:induction false} NotFrom(s: seq<Entry>, o: Origin)
    ensures forall e :: e in Others(s, o) ==> !IsFrom(e, o)
  {
    hide IsFrom;
    if s != [] {
      NotFrom(s[1..], o);
    }
  }

  lemma {:induction false} NoAnswer(s: seq<Entry>, o: Origin, versions: set<Alpn>, now: int)
    requires forall e :: e in s ==> !IsFrom(e, o)
    ensures Answer(s, o, versions, now) == None
  {
  }

  /**
   * After a header, its origin is answered from that header alone: by the first unexpired alternative in a wanted
   * protocol, whatever was in the cache before.
   */
  lemma HeaderReplaces(s: seq<Entry>, o: Origin, alternatives: seq<Alternative>, moments: seq<Moment>,
                       versions: set<Alpn>, now: int)
    requires |alternatives| == |moments| && AnyKnown(alternatives)
    ensures Answer(Stored(s, o, alternatives, moments), o, versions, now)
         == Answer(Last(New(o, alternatives, moments)), o, versions, now)
  {
    hide IsFrom, Others, New, Answer;
    var rest, added := Others(s, o), New(o, alternatives, moments);
    NotFrom(s, o);
    if |rest| + |added| > MAX_ENTRIES && |added| >= MAX_ENTRIES {
      assert Last(rest + added) == Last(added);
    } else {
      var k := if |rest| + |added| > MAX_ENTRIES then |rest| + |added| - MAX_ENTRIES else 0;
      assert Last(rest + added) == rest[k..] + added;
      NoAnswer(rest[k..], o, versions, now);
      AnswerSplit(rest[k..], added, o, versions, now);
      assert Last(added) == added;
    }
  }

  /** The first alternative that a lookup wants, among those before the first that cannot be stored. */
  ghost function Wanted(o: Origin, alternatives: seq<Alternative>, moments: seq<Moment>, versions: set<Alpn>, now: int)
      : (i: nat)
    requires |alternatives| == |moments|
    ensures i <= |alternatives| && (i < |alternatives| ==> IsWanted(alternatives[i], moments[i], versions, now))
  {
    if alternatives == [] then 0
    else if alternatives[0].alpn.Some? && !Storable(o, alternatives[0], moments[0]) then |alternatives|
    else if IsWanted(alternatives[0], moments[0], versions, now) then 0
    else 1 + Wanted(o, alternatives[1..], moments[1..], versions, now)
  }

  /** In a wanted protocol, and not older than its age allows. */
  ghost predicate IsWanted(a: Alternative, m: Moment, versions: set<Alpn>, now: int) {
    a.alpn.Some? && a.alpn.value in versions && now <= m.now + a.maxAge && now <= TIME_MAX
  }

  /** Where the alternatives begin that a header's own entries do not evict. */
  ghost function Surviving(o: Origin, alternatives: seq<Alternative>, moments: seq<Moment>): (k: nat)
    requires |alternatives| == |moments|
    ensures k <= |alternatives|
  {
    if |New(o, alternatives, moments)| <= MAX_ENTRIES then 0
    else 1 + Surviving(o, alternatives[1..], moments[1..])
  }

  lemma LastOfFew(s: seq<Entry>)
    requires |s| <= MAX_ENTRIES
    ensures Last(s) == s
  {
  }

  lemma LastWithoutFirst(o: Origin, alternatives: seq<Alternative>, moments: seq<Moment>)
    requires |alternatives| == |moments| && |New(o, alternatives, moments)| > MAX_ENTRIES
    ensures alternatives != []
    ensures Last(New(o, alternatives, moments)) == Last(New(o, alternatives[1..], moments[1..]))
  {
    hide Storable, Made;
    var s, t := New(o, alternatives, moments), New(o, alternatives[1..], moments[1..]);
    assert s == t || s == [s[0]] + t;
  }

  lemma {:induction false} LastIsNew(o: Origin, alternatives: seq<Alternative>, moments: seq<Moment>)
    requires |alternatives| == |moments|
    ensures var k := Surviving(o, alternatives, moments);
            Last(New(o, alternatives, moments)) == New(o, alternatives[k..], moments[k..])
  {
    hide New, Last;
    if |New(o, alternatives, moments)| <= MAX_ENTRIES {
      assert alternatives[0..] == alternatives && moments[0..] == moments;
      LastOfFew(New(o, alternatives, moments));
    } else {
      LastWithoutFirst(o, alternatives, moments);
      LastIsNew(o, alternatives[1..], moments[1..]);
      var k := Surviving(o, alternatives[1..], moments[1..]);
      assert alternatives[1..][k..] == alternatives[1 + k..] && moments[1..][k..] == moments[1 + k..];
    }
  }

  /** After a header of an origin, a lookup gives the first wanted alternative of the header, or nothing. */
  lemma LookupAfterHeader(s: seq<Entry>, o: Origin, alternatives: seq<Alternative>, moments: seq<Moment>,
                          versions: set<Alpn>, now: int)
    requires |alternatives| == |moments| && AnyKnown(alternatives)
    ensures var k := Surviving(o, alternatives, moments);
            var i := Wanted(o, alternatives[k..], moments[k..], versions, now);
            Answer(Stored(s, o, alternatives, moments), o, versions, now)
            == if i < |alternatives| - k then Some(Made(o, alternatives[k + i], moments[k + i].now)) else None
    ensures |alternatives| <= MAX_ENTRIES ==> Surviving(o, alternatives, moments) == 0
  {
    hide Answer, New, Wanted, IsWanted;
    var k := Surviving(o, alternatives, moments);
    HeaderReplaces(s, o, alternatives, moments, versions, now);
    LastIsNew(o, alternatives, moments);
    NewBound(o, alternatives, moments);
    AnswerFromNew(o, alternatives[k..], moments[k..], versions, now);
  }

  lemma {:induction false} AnswerFromNew(o: Origin, alternatives: seq<Alternative>, moments: seq<Moment>,
                                         versions: set<Alpn>, now: int)
    requires |alternatives| == |moments|
    ensures var i := Wanted(o, alternatives, moments, versions, now);
            Answer(New(o, alternatives, moments), o, versions, now)
            == if i < |alternatives| then Some(Made(o, alternatives[i], moments[i].now)) else None
  {
    if alternatives != [] {
      hide Storable, FiledName, TargetName, IsFrom, Bracketed;
      var a, m := alternatives[0], moments[0];
      AnswerFromNew(o, alternatives[1..], moments[1..], versions, now);
      if a.alpn.Some? {
        var e := Made(o, a, m.now);
        OwnEntry(o, a, m.now, o);
        AnswerSplit([e], New(o, alternatives[1..], moments[1..]), o, versions, now);
        assert Answer([e], o, versions, now) == if IsWanted(a, m, versions, now) then Some(e) else None;
      }
    }
  }

  lemma {:induction false} NewFrom(q: Origin, alternatives: seq<Alternative>, moments: seq<Moment>, o: Origin)
    requires |alternatives| == |moments|
    ensures forall e :: e in New(q, alternatives, moments) ==> (IsFrom(e, o) <==> Alike(o, q))
  {
    if alternatives != [] {
      hide SameHost, FiledName, Storable, IsFrom, Alike, Bracketed;
      NewFrom(q, alternatives[1..], moments[1..], o);
      if alternatives[0].alpn.Some? {
        OwnEntry(q, alternatives[0], moments[0].now, o);
      }
    }
  }

  /** How many entries a header evicts from the entries that stay. */
  ghost function Evicted(kept: nat, added: nat): (k: nat)
    ensures k <= kept
  {
    if kept + added <= MAX_ENTRIES then 0 else if added >= MAX_ENTRIES then kept else kept + added - MAX_ENTRIES
  }

  /** A header changes what other origins are answered only by evicting the oldest entries. */
  lemma HeaderLeavesOthers(s: seq<Entry>, q: Origin, alternatives: seq<Alternative>, moments: seq<Moment>,
                           o: Origin, versions: set<Alpn>, now: int)
    requires |alternatives| == |moments| && AnyKnown(alternatives) && !Alike(o, q)
    ensures var rest := Others(s, q);
            Answer(Stored(s, q, alternatives, moments), o, versions, now)
            == Answer(rest[Evicted(|rest|, |New(q, alternatives, moments)|)..], o, versions, now)
    ensures |s| + |alternatives| <= MAX_ENTRIES ==>
              Answer(Stored(s, q, alternatives, moments), o, versions, now) == Answer(s, o, versions, now)
  {
    hide IsFrom, Answer, Others, New, Alike;
    var rest, added := Others(s, q), New(q, alternatives, moments);
    var k := Evicted(|rest|, |added|);
    var late := if |added| > MAX_ENTRIES then |added| - MAX_ENTRIES else 0;
    assert Last(rest + added) == rest[k..] + added[late..];
    NewFrom(q, alternatives, moments, o);
    NoAnswer(added[late..], o, versions, now);
    AnswerSplit(rest[k..], added[late..], o, versions, now);
    NewBound(q, alternatives, moments);
    ClearForgets(s, q, o, versions, now);
    NotMore(s, q);
    assert rest[0..] == rest;
  }

  lemma {:induction false} NewBound(q: Origin, alternatives: seq<Alternative>, moments: seq<Moment>)
    requires |alternatives| == |moments|
    ensures |New(q, alternatives, moments)| <= |alternatives|
  {
    hide Storable;
    if alternatives != [] {
      NewBound(q, alternatives[1..], moments[1..]);
    }
  }

  // ---------- whole runs

  datatype Op =
    | Header(o: Origin, alternatives: seq<Alternative>, moments: seq<Moment>)
    | Clear(o: Origin)
    | Find(o: Origin, versions: set<Alpn>, now: nat)

  predicate OpOk(op: Op) {
    op.Header? ==> |op.alternatives| == |op.moments|
  }

  predicate OpsOk(ops: seq<Op>) {
    forall i :: 0 <= i < |ops| ==> OpOk(ops[i])
  }

  ghost function After(s: seq<Entry>, op: Op): seq<Entry>
    requires OpOk(op)
  {
    match op
    case Header(o, alternatives, moments) => Stored(s, o, alternatives, moments)
    case Clear(o) => Others(s, o)
    case Find(o, versions, now) => Looked(s, o, versions, now)
  }

  method Perform(cache: Cache, op: Op)
    requires cache.Valid() && OpOk(op)
    requires op.Header? ==> forall m :: m in op.moments ==> m.now <= TIME_MAX
    modifies cache
    ensures cache.Valid()
    ensures cache.list == After(old(cache.list), op)
  {
    hide Others, Stored, Looked;
    match op
    case Header(o, alternatives, moments) => var code := cache.Store(o, alternatives, moments);
    case Clear(o) =>
      NotMore(cache.list, o);
      cache.Flush(o);
    case Find(o, versions, now) => var found, same := cache.Lookup(o, versions, now);
  }

  lemma NotMore(s: seq<Entry>, o: Origin)
    ensures |Others(s, o)| <= |s|
  {
  }

  ghost function Run(ops: seq<Op>): seq<Entry>
    requires OpsOk(ops)
  {
    if ops == [] then [] else After(Run(ops[..|ops| - 1]), ops[|ops| - 1])
  }

  /** What the last header, or "clear", of an origin offered. */
  ghost function Latest(ops: seq<Op>, o: Origin): seq<Entry>
    requires OpsOk(ops)
  {
    if ops == [] then []
    else
      var op := ops[|ops| - 1];
      if op.Header? && Alike(o, op.o) && AnyKnown(op.alternatives) then New(op.o, op.alternatives, op.moments)
      else if op.Clear? && Alike(o, op.o) then []
      else Latest(ops[..|ops| - 1], o)
  }

  /** `s` is some of `t`, in the same order. */
  ghost predicate Within(s: seq<Entry>, t: seq<Entry>) {
    s == [] || (t != [] && ((s[0] == t[0] && Within(s[1..], t[1..])) || Within(s, t[1..])))
  }

  lemma {:induction false} WithinAll(s: seq<Entry>)
    ensures Within(s, s)
  {
    if s != [] {
      WithinAll(s[1..]);
    }
  }

  lemma {:induction false} WithinMore(a: seq<Entry>, s: seq<Entry>, t: seq<Entry>)
    requires Within(s, t)
    ensures Within(s, a + t)
  {
    if a == [] {
      assert a + t == t;
    } else {
      WithinMore(a[1..], s, t);
      assert (a + t)[1..] == a[1..] + t;
    }
  }

  lemma {:induction false} WithinBoth(s: seq<Entry>, t: seq<Entry>, u: seq<Entry>, v: seq<Entry>)
    requires Within(s, t) && Within(u, v)
    ensures Within(s + u, t + v)
    decreases |t|
  {
    if s == [] {
      assert s + u == u;
      WithinMore(t, u, v);
    } else {
      assert (t + v)[1..] == t[1..] + v;
      assert (s + u)[1..] == s[1..] + u;
      if s[0] == t[0] && Within(s[1..], t[1..]) {
        WithinBoth(s[1..], t[1..], u, v);
      } else {
        WithinBoth(s, t[1..], u, v);
      }
    }
  }

  lemma {:induction false} WithinTrans(s: seq<Entry>, t: seq<Entry>, u: seq<Entry>)
    requires Within(s, t) && Within(t, u)
    ensures Within(s, u)
    decreases |u|
  {
    if s != [] {
      if t[0] == u[0] && Within(t[1..], u[1..]) {
        if s[0] == t[0] && Within(s[1..], t[1..]) {
          WithinTrans(s[1..], t[1..], u[1..]);
        } else {
          WithinTrans(s, t[1..], u[1..]);
        }
      } else {
        WithinTrans(s, t, u[1..]);
      }
    }
  }

  lemma {:induction false} WithinHas(s: seq<Entry>, t: seq<Entry>, e: Entry)
    requires Within(s, t) && e in s
    ensures e in t
    decreases |t|
  {
    if s[0] == t[0] && Within(s[1..], t[1..]) {
      if e != s[0] {
        assert e in s[1..];
        WithinHas(s[1..], t[1..], e);
      }
    } else {
      WithinHas(s, t[1..], e);
    }
  }

  lemma {:induction false} UnexpiredAre(s: seq<Entry>, now: int)
    ensures forall e :: e in Unexpired(s, now) <==> e in s && e.expires >= now
    ensures Within(Unexpired(s, now), s)
  {
    if s != [] {
      UnexpiredAre(s[1..], now);
      UnexpiredFirst(s, now);
      assert s == [s[0]] + s[1..];
      hide Unexpired;
      assert s[0].expires < now ==> [] + Unexpired(s[1..], now) == Unexpired(s[1..], now);
    }
  }

  /** An entry has not expired, or an earlier one that has not answers the lookup. */
  ghost predicate IsKept(s: seq<Entry>, i: nat, o: Origin, versions: set<Alpn>, now: int)
    requires i < |s|
  {
    s[i].expires >= now || exists j :: 0 <= j < i && s[j].expires >= now && Answers(s[j], o, versions)
  }

  lemma KeptFrom(s: seq<Entry>, i: nat, o: Origin, versions: set<Alpn>, now: int)
    requires i < |s|
    ensures IsKept(s, i, o, versions, now) <==> i >= FirstAnswer(s, o, versions, now) || s[i].expires >= now
  {
    hide Answers;
  }

  /** A lookup leaves exactly those entries, in their order: it drops each expired one before its answer. */
  lemma KeptByLookup(s: seq<Entry>, o: Origin, versions: set<Alpn>, now: int, e: Entry)
    ensures Within(Looked(s, o, versions, now), s)
    ensures e in Looked(s, o, versions, now) <==>
            exists i :: 0 <= i < |s| && s[i] == e && IsKept(s, i, o, versions, now)
  {
    hide Answers, Unexpired, Within, FirstAnswer, IsKept;
    var k := FirstAnswer(s, o, versions, now);
    var front, back := s[..k], s[k..];
    UnexpiredAre(front, now);
    WithinAll(back);
    WithinBoth(Unexpired(front, now), front, back, back);
    assert front + back == s;
    if e in Looked(s, o, versions, now) {
      var i :| 0 <= i < |s| && s[i] == e && (i >= k || e.expires >= now);
      KeptFrom(s, i, o, versions, now);
    }
    if i :| 0 <= i < |s| && s[i] == e && IsKept(s, i, o, versions, now) {
      KeptFrom(s, i, o, versions, now);
      assert if i >= k then back[i - k] == e else front[i] == e;
    }
  }

  /** The entries that answer for an origin, in order. */
  ghost function Mine(s: seq<Entry>, o: Origin): seq<Entry> {
    if s == [] then [] else (if IsFrom(s[0], o) then [s[0]] else []) + Mine(s[1..], o)
  }

  lemma {:induction false} MineSplit(s: seq<Entry>, t: seq<Entry>, o: Origin)
    ensures Mine(s + t, o) == Mine(s, o) + Mine(t, o)
  {
    hide IsFrom;
    if s == [] {
      assert s + t == t;
    } else {
      MineSplit(s[1..], t, o);
      assert (s + t)[1..] == s[1..] + t;
      Regroup(if IsFrom(s[0], o) then [s[0]] else [], Mine(s[1..], o), Mine(t, o));
    }
  }

  lemma {:induction false} MineAll(s: seq<Entry>, o: Origin)
    ensures (forall e :: e in s ==> IsFrom(e, o)) ==> Mine(s, o) == s
    ensures (forall e :: e in s ==> !IsFrom(e, o)) ==> Mine(s, o) == []
  {
    hide IsFrom;
    if s != [] {
      MineAll(s[1..], o);
      assert s == [s[0]] + s[1..];
    }
  }

  lemma {:induction false} MineAmongOthers(s: seq<Entry>, q: Origin, o: Origin)
    ensures Mine(Others(s, q), o) == if Alike(o, q) then [] else Mine(s, o)
  {
    if s != [] {
      hide SameHost, Alike;
      MineAmongOthers(s[1..], q, o);
      if IsFrom(s[0], o) {
        SentByAlike(s[0], o, q);
      }
      MineSplit(if IsFrom(s[0], q) then [] else [s[0]], Others(s[1..], q), o);
      MineSplit([s[0]], s[1..], o);
      assert s == [s[0]] + s[1..];
    }
  }

  lemma MineLast(s: seq<Entry>, o: Origin)
    ensures Within(Mine(Last(s), o), Mine(s, o))
  {
    hide Mine, Within;
    var k := |s| - |Last(s)|;
    assert s == s[..k] + Last(s);
    MineSplit(s[..k], Last(s), o);
    WithinAll(Mine(Last(s), o));
    WithinMore(Mine(s[..k], o), Mine(Last(s), o), Mine(Last(s), o));
  }

  lemma {:induction false} MineUnexpired(s: seq<Entry>, now: int, o: Origin)
    ensures Within(Mine(Unexpired(s, now), o), Mine(s, o))
  {
    if s != [] {
      hide *;
      MineUnexpired(s[1..], now, o);
      FirstUnexpired(s, now);
      var h := if s[0].expires < now then [] else [s[0]];
      MineSplit(h, Unexpired(s[1..], now), o);
      MineSplit([s[0]], s[1..], o);
      assert s == [s[0]] + s[1..];
      WithinAll(Mine(h, o));
      NothingWithin(Mine([s[0]], o));
      NoneMine(o);
      WithinBoth(Mine(h, o), Mine([s[0]], o), Mine(Unexpired(s[1..], now), o), Mine(s[1..], o));
    } else {
      NothingWithin([]);
    }
  }

  lemma FirstUnexpired(s: seq<Entry>, now: int)
    requires s != []
    ensures Unexpired(s, now) == (if s[0].expires < now then [] else [s[0]]) + Unexpired(s[1..], now)
  {
  }

  lemma NoneMine(o: Origin)
    ensures Mine([], o) == []
  {
  }

  lemma NothingWithin(t: seq<Entry>)
    ensures Within([], t)
  {
  }

  lemma MineLooked(s: seq<Entry>, q: Origin, versions: set<Alpn>, now: int, o: Origin)
    ensures Within(Mine(Looked(s, q, versions, now), o), Mine(s, o))
  {
    hide Mine, Within, Unexpired;
    var i := FirstAnswer(s, q, versions, now);
    MineUnexpired(s[..i], now, o);
    WithinAll(Mine(s[i..], o));
    WithinBoth(Mine(Unexpired(s[..i], now), o), Mine(s[..i], o), Mine(s[i..], o), Mine(s[i..], o));
    MineSplit(Unexpired(s[..i], now), s[i..], o);
    MineSplit(s[..i], s[i..], o);
    assert s == s[..i] + s[i..];
  }

  lemma MineStored(s: seq<Entry>, q: Origin, alternatives: seq<Alternative>, moments: seq<Moment>, o: Origin)
    requires |alternatives| == |moments| && AnyKnown(alternatives)
    ensures Within(Mine(Stored(s, q, alternatives, moments), o),
                   if Alike(o, q) then New(q, alternatives, moments) else Mine(s, o))
  {
    hide Mine, Within, IsFrom, Alike, Others, New, Last;
    var rest, added := Others(s, q), New(q, alternatives, moments);
    MineLast(rest + added, o);
    MineSplit(rest, added, o);
    MineAmongOthers(s, q, o);
    NewFrom(q, alternatives, moments, o);
    MineAll(added, o);
    assert [] + added == added && Mine(s, o) + [] == Mine(s, o);
  }

  /**
   * In every run, all that the cache holds for an origin comes from that origin's latest header, in that header's
   * order: alternatives of two headers are never mixed, and none outlives a later header.
   */
  lemma {:induction false} OneHeaderOnly(ops: seq<Op>, o: Origin)
    requires OpsOk(ops)
    ensures Within(Mine(Run(ops), o), Latest(ops, o))
  {
    hide Mine, Within, Alike, Stored, Looked, Others, New;
    if ops == [] {
      MineAll([], o);
      NothingWithin([]);
    } else {
      var before, op := ops[..|ops| - 1], ops[|ops| - 1];
      OneHeaderOnly(before, o);
      var s := Run(before);
      match op
      case Clear(q) =>
        MineAmongOthers(s, q, o);
        NothingWithin([]);
      case Find(q, versions, now) =>
        MineLooked(s, q, versions, now, o);
        WithinTrans(Mine(After(s, op), o), Mine(s, o), Latest(before, o));
      case Header(q, alternatives, moments) =>
        if AnyKnown(alternatives) {
          MineStored(s, q, alternatives, moments, o);
          if !Alike(o, q) {
            WithinTrans(Mine(After(s, op), o), Mine(s, o), Latest(before, o));
          }
        } else {
          Unknown(s, q, alternatives, moments);
        }
    }
  }

  lemma Unknown(s: seq<Entry>, q: Origin, alternatives: seq<Alternative>, moments: seq<Moment>)
    requires |alternatives| == |moments| && !AnyKnown(alternatives)
    ensures Stored(s, q, alternatives, moments) == s
  {
  }

  lemma {:induction false} MineHas(s: seq<Entry>, o: Origin, e: Entry)
    requires e in s && IsFrom(e, o)
    ensures e in Mine(s, o)
  {
    hide IsFrom;
    if e != s[0] {
      assert e in s[1..];
      MineHas(s[1..], o, e);
    }
  }

  /** A lookup is answered from the latest header of its origin, by something that has not expired. */
  lemma AnswerIsLatest(ops: seq<Op>, o: Origin, versions: set<Alpn>, now: int)
    requires OpsOk(ops)
    ensures var a := Answer(Run(ops), o, versions, now);
            a.Some? ==> a.value in Latest(ops, o) && a.value.expires >= now && a.value.dstAlpn in versions
  {
    hide Mine, Within, Latest, Run, IsFrom;
    var a := Answer(Run(ops), o, versions, now);
    if a.Some? {
      OneHeaderOnly(ops, o);
      MineHas(Run(ops), o, a.value);
      WithinHas(Mine(Run(ops), o), Latest(ops, o), a.value);
    }
  }
}
