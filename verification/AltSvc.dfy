/** The cache of alternative services (altsvc.c): RFC 7838 headers replace, old entries are evicted or expire. */
module AltSvc {
  import opened Common

  // MAX_ALTSVC_ENTRIES
  const MAX_ENTRIES := 5000

  // TIME_T_MAX, of a 64-bit time_t
  const TIME_MAX := 0x7fff_ffff_ffff_ffff

  datatype Alpn = H1 | H2 | H3

  datatype Code = Ok | OutOfMemory

  /** Where an entry is for: an origin, or what a line of the cache file says. */
  datatype Peer = Peer(host: string, port: nat, alpn: Alpn)

  /** Who sent the header. A connection's host name has been stripped of the brackets of an IPv6 address. */
  type Origin = p: Peer | !Bracketed(p.host) witness Peer("", 0, H1)

  /** One `alpn="host:port"; parameters` of a header; no `alpn` if it names an unknown protocol. */
  datatype Alternative = Alternative(alpn: Option<Alpn>, host: string, port: nat, maxAge: nat, persist: bool)

  /** What the outside world answers while one alternative is stored: the time, and whether there is memory. */
  datatype Moment = Moment(now: nat, memory: bool)

  datatype Entry = Entry(srcHost: string, srcPort: nat, srcAlpn: Alpn,
                         dstHost: string, dstPort: nat, dstAlpn: Alpn, expires: int, persist: bool)

  // ---------- host names

  predicate Bracketed(s: string) {
    |s| > 2 && s[0] == '['
  }

  function WithoutDot(s: string): string {
    if s != [] && s[|s| - 1] == '.' then s[..|s| - 1] else s
  }

  /** The name a header's origin is filed under. */
  function FiledName(s: string): string {
    if Bracketed(s) then s[1..|s| - 1] else WithoutDot(s)
  }

  function TargetName(s: string): string {
    if Bracketed(s) then s[1..|s| - 1] else s
  }

  function Lower(c: char): char {
    if 'A' <= c <= 'Z' then c + ' ' else c
  }

  /** The same up to the case of ASCII letters. */
  ghost predicate SameText(s: string, t: string) {
    |s| == |t| && forall i :: 0 <= i < |s| ==> Lower(s[i]) == Lower(t[i])
  }

  ghost predicate SameHost(host: string, check: string) {
    SameText(WithoutDot(host), check)
  }

  method HostCompare(host: string, check: string) returns (same: bool)
    ensures same == SameHost(host, check)
  {
    var length := |host|;
    if length > 0 && host[length - 1] == '.' {
      length := length - 1;
    }
    if length != |check| {
      return false;
    }
    var i := 0;
    while i < length
      invariant 0 <= i <= length
      invariant forall j :: 0 <= j < i ==> Lower(host[j]) == Lower(check[j])
    {
      if Lower(host[i]) != Lower(check[i]) {
        assert Lower(WithoutDot(host)[i]) != Lower(check[i]);
        return false;
      }
      i := i + 1;
    }
    return true;
  }

  /** A host name matches what it is filed under. */
  lemma FoundAgain(host: string)
    requires !Bracketed(host)
    ensures SameHost(host, FiledName(host))
  {
  }

  /** `name` is `host`, or what is between its first and last characters if it starts like an IPv6 address. */
  ghost predicate IsStripped(host: string, name: string) {
    if |host| > 2 && host[0] == '[' then exists last :: host == "[" + name + [last] else name == host
  }

  /** The same, or without a dot at the end. */
  ghost predicate IsFiled(host: string, name: string) {
    if |host| > 2 && host[0] == '[' then IsStripped(host, name)
    else if host != [] && host[|host| - 1] == '.' then host == name + "." else name == host
  }

  lemma NamesAre(host: string)
    ensures IsStripped(host, TargetName(host)) && IsFiled(host, FiledName(host))
  {
    if Bracketed(host) {
      assert host == "[" + host[1..|host| - 1] + [host[|host| - 1]];
    } else if host != [] && host[|host| - 1] == '.' {
      assert host == host[..|host| - 1] + ".";
    }
  }

  /** Of two names that match, each two characters are the same or one letter in both cases, by their ASCII codes. */
  lemma CaseDoesNotMatter(s: string, t: string)
    ensures SameText(s, t) <==> |s| == |t| && forall i :: 0 <= i < |s| ==> SameLetter(s[i] as int, t[i] as int)
  {
    forall i | 0 <= i < |s| && i < |t|
      ensures Lower(s[i]) == Lower(t[i]) <==> SameLetter(s[i] as int, t[i] as int)
    {
    }
  }

  ghost predicate SameLetter(c: int, d: int) {
    c == d || (65 <= c <= 90 && d == c + 32) || (65 <= d <= 90 && c == d + 32)
  }

  // ---------- entries

  ghost predicate IsFrom(e: Entry, o: Origin) {
    o.alpn == e.srcAlpn && o.port == e.srcPort && SameHost(o.host, e.srcHost)
  }

  ghost predicate Answers(e: Entry, o: Origin, versions: set<Alpn>) {
    IsFrom(e, o) && e.dstAlpn in versions
  }

  function Expiry(now: nat, maxAge: nat): int {
    if now + maxAge <= TIME_MAX then now + maxAge else TIME_MAX
  }

  function Made(o: Peer, a: Alternative, now: nat): Entry
    requires a.alpn.Some?
  {
    Entry(FiledName(o.host), o.port, o.alpn, TargetName(a.host), a.port, a.alpn.value, Expiry(now, a.maxAge), a.persist)
  }

  /** An entry needs both names and memory. */
  predicate Storable(o: Peer, a: Alternative, m: Moment) {
    FiledName(o.host) != [] && TargetName(a.host) != [] && m.memory
  }

  /** The new entries of a header, up to the first that cannot be stored. */
  function New(o: Origin, alternatives: seq<Alternative>, moments: seq<Moment>): seq<Entry>
    requires |alternatives| == |moments|
  {
    if alternatives == [] then []
    else if alternatives[0].alpn.None? then New(o, alternatives[1..], moments[1..])
    else if !Storable(o, alternatives[0], moments[0]) then []
    else [Made(o, alternatives[0], moments[0].now)] + New(o, alternatives[1..], moments[1..])
  }

  predicate AllStorable(o: Origin, alternatives: seq<Alternative>, moments: seq<Moment>)
    requires |alternatives| == |moments|
  {
    forall i :: 0 <= i < |alternatives| && alternatives[i].alpn.Some? ==> Storable(o, alternatives[i], moments[i])
  }

  predicate AnyKnown(alternatives: seq<Alternative>) {
    exists i :: 0 <= i < |alternatives| && alternatives[i].alpn.Some?
  }

  /** The entries that some origin did not send. */
  ghost function Others(s: seq<Entry>, o: Origin): (r: seq<Entry>)
    ensures |r| <= |s|
  {
    if s == [] then [] else (if IsFrom(s[0], o) then [] else [s[0]]) + Others(s[1..], o)
  }

  ghost function Unexpired(s: seq<Entry>, now: int): (r: seq<Entry>)
    ensures |r| <= |s|
  {
    if s == [] then [] else (if s[0].expires < now then [] else [s[0]]) + Unexpired(s[1..], now)
  }

  function Last(s: seq<Entry>): (r: seq<Entry>)
    ensures |r| <= MAX_ENTRIES
  {
    if |s| <= MAX_ENTRIES then s else s[|s| - MAX_ENTRIES..]
  }

  lemma LastMore(s: seq<Entry>, t: seq<Entry>)
    ensures Last(Last(s) + t) == Last(s + t)
  {
  }

  /** What a header leaves in the cache. */
  ghost function Stored(s: seq<Entry>, o: Origin, alternatives: seq<Alternative>, moments: seq<Moment>): seq<Entry>
    requires |alternatives| == |moments|
  {
    if AnyKnown(alternatives) then Last(Others(s, o) + New(o, alternatives, moments)) else s
  }

  /** What a lookup leaves in the cache. */
  ghost function Looked(s: seq<Entry>, o: Origin, versions: set<Alpn>, now: int): seq<Entry> {
    var i := FirstAnswer(s, o, versions, now);
    Unexpired(s[..i], now) + s[i..]
  }

  /** The position of the first entry that answers and has not expired, or the length. */
  ghost function FirstAnswer(s: seq<Entry>, o: Origin, versions: set<Alpn>, now: int): (i: nat)
    ensures i <= |s|
    ensures i < |s| ==> s[i].expires >= now && Answers(s[i], o, versions)
    ensures forall j :: 0 <= j < i ==> s[j].expires < now || !Answers(s[j], o, versions)
  {
    if s == [] || (s[0].expires >= now && Answers(s[0], o, versions)) then 0
    else 1 + FirstAnswer(s[1..], o, versions, now)
  }

  /** The entry that a lookup finds. */
  ghost function Answer(s: seq<Entry>, o: Origin, versions: set<Alpn>, now: int): Option<Entry> {
    var i := FirstAnswer(s, o, versions, now);
    if i < |s| then Some(s[i]) else None
  }

  // ---------- the cache

  lemma {:induction false} OthersSplit(s: seq<Entry>, t: seq<Entry>, o: Origin)
    ensures Others(s + t, o) == Others(s, o) + Others(t, o)
  {
    hide IsFrom;
    if s == [] {
      assert s + t == t;
    } else {
      OthersSplit(s[1..], t, o);
      assert (s + t)[1..] == s[1..] + t;
      Regroup(if IsFrom(s[0], o) then [] else [s[0]], Others(s[1..], o), Others(t, o));
    }
  }

  lemma {:induction false} UnexpiredSplit(s: seq<Entry>, t: seq<Entry>, now: int)
    ensures Unexpired(s + t, now) == Unexpired(s, now) + Unexpired(t, now)
  {
    if s == [] {
      assert s + t == t;
    } else {
      var e := s[0];
      UnexpiredSplit(s[1..], t, now);
      assert (s + t)[0] == e && (s + t)[1..] == s[1..] + t;
      UnexpiredFirst(s + t, now);
      UnexpiredFirst(s, now);
      hide Unexpired;
      Regroup(if e.expires < now then [] else [e], Unexpired(s[1..], now), Unexpired(t, now));
    }
  }

  lemma UnexpiredFirst(s: seq<Entry>, now: int)
    requires s != []
    ensures Unexpired(s, now) == (if s[0].expires < now then [] else [s[0]]) + Unexpired(s[1..], now)
  {
  }

  class Cache {
    var list: seq<Entry>

    ghost predicate Valid()
      reads this
    {
      |list| <= MAX_ENTRIES
    }

    constructor ()
      ensures Valid() && list == []
    {
      list := [];
    }

    /** Evicts the oldest entries to make room. */
    method Append(e: Entry)
      modifies this
      ensures list == Last(old(list) + [e])
      ensures Valid() && |list| == Min(|old(list)| + 1, 5000) && list[|list| - 1] == e
    {
      while |list| >= MAX_ENTRIES
        invariant |list| <= |old(list)| && list == old(list)[|old(list)| - |list|..]
        invariant |list| == |old(list)| || |list| >= MAX_ENTRIES - 1
      {
        list := list[1..];
      }
      list := list + [e];
    }

    method Flush(o: Origin)
      modifies this
      ensures list == Others(old(list), o)
    {
      var i := 0;
      ghost var seen := 0;
      while i < |list|
        invariant 0 <= i <= |list| && 0 <= seen <= |old(list)|
        invariant list[..i] == Others(old(list)[..seen], o)
        invariant list[i..] == old(list)[seen..]
        decreases |list| - i
      {
        var e := list[i];
        assert e == old(list)[seen];
        assert old(list)[..seen + 1] == old(list)[..seen] + [e];
        OthersSplit(old(list)[..seen], [e], o);
        assert list[i + 1..] == list[i..][1..] == old(list)[seen..][1..];
        var sameHost := HostCompare(o.host, e.srcHost);
        if o.alpn == e.srcAlpn && o.port == e.srcPort && sameHost {
          list := list[..i] + list[i + 1..];
        } else {
          assert list[..i + 1] == list[..i] + [e];
          i := i + 1;
        }
        seen := seen + 1;
      }
      assert old(list)[..seen] == old(list);
    }

    /** Stores a header's alternatives, replacing what its origin sent before. */
    method Store(o: Origin, alternatives: seq<Alternative>, moments: seq<Moment>) returns (code: Code)
      requires Valid()
      requires |alternatives| == |moments|
      requires forall i :: 0 <= i < |moments| ==> moments[i].now <= TIME_MAX
      modifies this
      ensures Valid()
      ensures list == Stored(old(list), o, alternatives, moments)
      ensures code.Ok? <==> AllStorable(o, alternatives, moments)
    {
      hide Last, Storable, IsFrom, Others;
      var i, entries := 0, 0;
      ghost var stored: seq<Entry> := [];
      while i < |alternatives|
        invariant 0 <= i <= |alternatives| && entries >= 0
        invariant Valid()
        invariant entries > 0 <==> exists j :: 0 <= j < i && alternatives[j].alpn.Some?
        invariant forall j :: 0 <= j < i && alternatives[j].alpn.Some? ==> Storable(o, alternatives[j], moments[j])
        invariant New(o, alternatives, moments) == stored + New(o, alternatives[i..], moments[i..])
        invariant entries == 0 ==> stored == []
        invariant list == if entries > 0 then Last(Others(old(list), o) + stored) else old(list)
      {
        var a := alternatives[i];
        assert alternatives[i..][1..] == alternatives[i + 1..] && moments[i..][1..] == moments[i + 1..];
        if a.alpn.Some? {
          if entries == 0 {
            Flush(o);
            Unfull(list);
            assert list == list + stored;
          }
          entries := entries + 1;
          var e := CreateEntry(o, a, moments[i]);
          if e.None? {
            assert stored + [] == stored;
            return OutOfMemory;
          }
          LastMore(Others(old(list), o) + stored, [e.value]);
          Regroup(Others(old(list), o), stored, [e.value]);
          Regroup(stored, [e.value], New(o, alternatives[i + 1..], moments[i + 1..]));
          Append(e.value);
          stored := stored + [e.value];
        }
        i := i + 1;
      }
      assert stored + [] == stored;
      return Ok;
    }

    /** Finds the first entry that answers, dropping the expired ones before it. */
    method Lookup(o: Origin, versions: set<Alpn>, now: nat) returns (found: Option<Entry>, sameDestination: bool)
      requires Valid()
      modifies this
      ensures Valid()
      ensures list == Looked(old(list), o, versions, now)
      ensures found == Answer(old(list), o, versions, now)
      ensures sameDestination <==> found.Some? && o.port == found.value.dstPort && SameHost(o.host, found.value.dstHost)
    {
      hide SameHost, Unexpired, FirstAnswer;
      var i := 0;
      ghost var seen := 0;
      Nothing(now);
      while i < |list|
        invariant 0 <= i <= |list| && 0 <= seen <= |old(list)|
        invariant list[..i] == Unexpired(old(list)[..seen], now)
        invariant list[i..] == old(list)[seen..]
        invariant FirstAnswer(old(list), o, versions, now) == seen + FirstAnswer(list[i..], o, versions, now)
        decreases |list| - i
      {
        var e := list[i];
        assert e == list[i..][0];
        Step(old(list), seen, o, versions, now);
        assert list[i + 1..] == list[i..][1..];
        if e.expires < now {
          list := list[..i] + list[i + 1..];
        } else {
          var sameHost := HostCompare(o.host, e.srcHost);
          if o.alpn == e.srcAlpn && e.dstAlpn in versions && o.port == e.srcPort && sameHost {
            assert list == list[..i] + list[i..];
            var sameTarget := HostCompare(o.host, e.dstHost);
            return Some(e), o.port == e.dstPort && sameTarget;
          }
          assert list[..i + 1] == list[..i] + [e];
          i := i + 1;
        }
        seen := seen + 1;
      }
      assert old(list)[..seen] == old(list) && list[..i] == list;
      return None, false;
    }
  }

  lemma Nothing(now: int)
    ensures Unexpired([], now) == []
  {
  }

  /** One step of a lookup, over an entry or at the answer. */
  lemma Step(s: seq<Entry>, i: nat, o: Origin, versions: set<Alpn>, now: int)
    requires i < |s|
    ensures s[i] == s[i..][0] && s[i..][1..] == s[i + 1..]
    ensures Unexpired(s[..i + 1], now) == Unexpired(s[..i], now) + if s[i].expires < now then [] else [s[i]]
    ensures FirstAnswer(s[i..], o, versions, now) == if s[i].expires >= now && Answers(s[i], o, versions) then 0
                                                     else 1 + FirstAnswer(s[i + 1..], o, versions, now)
  {
    hide IsFrom;
    assert s[..i + 1] == s[..i] + [s[i]];
    UnexpiredSplit(s[..i], [s[i]], now);
    assert Unexpired([s[i]], now) == if s[i].expires < now then [] else [s[i]];
  }

  lemma Unfull(s: seq<Entry>)
    requires |s| <= MAX_ENTRIES
    ensures Last(s) == s && s == s + []
  {
  }

  /** What `Made` and `Storable` say, field by field. */
  lemma EntryIs(o: Peer, a: Alternative, m: Moment)
    requires a.alpn.Some?
    ensures m.now <= TIME_MAX ==> Fills(o, a, m, Made(o, a, m.now))
    ensures Storable(o, a, m) ==>
              m.memory && Made(o, a, m.now).dstHost != "" && Made(o, a, m.now).srcHost != ""
    ensures !Storable(o, a, m) ==> !m.memory || IsStripped(a.host, "") || IsFiled(o.host, "")
  {
    hide IsStripped, IsFiled, TargetName, FiledName;
    NamesAre(o.host);
    NamesAre(a.host);
  }

  ghost predicate Fills(o: Peer, a: Alternative, m: Moment, e: Entry)
    requires a.alpn.Some?
  {
    && IsStripped(a.host, e.dstHost) && IsFiled(o.host, e.srcHost)
    && e.srcPort == o.port && e.srcAlpn == o.alpn
    && e.dstPort == a.port && e.dstAlpn == a.alpn.value && e.persist == a.persist
    && e.expires == Min(m.now + a.maxAge, 0x7fff_ffff_ffff_ffff)
  }

  /** Strips brackets and a trailing dot; there is no entry without both names or without memory. */
  method CreateEntry(o: Peer, a: Alternative, m: Moment) returns (e: Option<Entry>)
    requires a.alpn.Some? && m.now <= TIME_MAX
    ensures e == if Storable(o, a, m) then Some(Made(o, a, m.now)) else None
    ensures e.Some? ==> m.memory && e.value.dstHost != "" && e.value.srcHost != "" && Fills(o, a, m, e.value)
    ensures e.None? ==> !m.memory || IsStripped(a.host, "") || IsFiled(o.host, "")
  {
    hide IsStripped, IsFiled, Fills;
    EntryIs(o, a, m);
    var host, target := o.host, a.host;
    if |host| > 2 && host[0] == '[' {
      host := host[1..|host| - 1];
    } else if |host| > 0 && host[|host| - 1] == '.' {
      host := host[..|host| - 1];
    }
    if |target| > 2 && target[0] == '[' {
      target := target[1..|target| - 1];
    }
    if |host| == 0 || |target| == 0 {
      return None;
    }
    if !m.memory {
      return None;
    }
    var expires: int;
    if a.maxAge > TIME_MAX - m.now {
      expires := TIME_MAX;
    } else {
      expires := a.maxAge + m.now;
    }
    assert 0 <= TIME_MAX - m.now <= TIME_MAX && 0 <= expires <= TIME_MAX;
    return Some(Entry(host, o.port, o.alpn, target, a.port, a.alpn.value, expires, a.persist));
  }
}
