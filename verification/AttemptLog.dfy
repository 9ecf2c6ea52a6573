/** The history of connection attempts, and the schedule that Happy Eyeballs (RFC 8305) asks of it. */
module AttemptLog {
  datatype Family = Inet | Inet6 | Unix

  /**
   * One decision of the racing loop. `at` is the clock, `others` the number of attempts that were
   * ongoing, `cap` how many are ongoing afterwards, `otherMore` whether the other family still had an
   * untried address, and `ok` whether the attempt could be set up at all.
   */
  datatype Event =
    | Start(family: Family, index: nat, at: int, others: nat, cap: nat, otherMore: bool, ok: bool)
    | Restart(family: Family, index: nat, at: int, others: nat)

  /** How many addresses of a family have been taken. */
  ghost function Tries(log: seq<Event>, f: Family): nat {
    if log == [] then 0
    else
      var e := log[|log| - 1];
      Tries(log[..|log| - 1], f) + if e.Start? && e.family == f then 1 else 0
  }

  ghost predicate Begun(log: seq<Event>) {
    exists e :: e in log && (e.Start? ==> e.ok)
  }

  /** When the last attempt was started or restarted. */
  ghost function LastAt(log: seq<Event>): int {
    if log == [] then 0
    else
      var e := log[|log| - 1];
      if e.Start? && !e.ok then LastAt(log[..|log| - 1]) else e.at
  }

  /** The family of the last attempt started; IPv4 at first, so that IPv6 is next. */
  ghost function LastFamily(log: seq<Event>): Family {
    if log == [] then Inet
    else
      var e := log[|log| - 1];
      if e.Start? && e.ok then e.family else LastFamily(log[..|log| - 1])
  }

  ghost predicate EventOk(log: seq<Event>, e: Event, delay: nat, limit: nat) {
    match e
    case Start(f, index, at, others, cap, otherMore, ok) =>
      && index == Tries(log, f)
      && (others > 0 ==> Begun(log) && at - LastAt(log) >= delay)
      && (limit > 0 ==> cap <= limit)
      && (f == LastFamily(log) ==> !otherMore)
    case Restart(f, index, at, others) =>
      index < Tries(log, f) && others == 0 && at - LastAt(log) >= delay
  }

  /** Every decision was right, given the ones before it. */
  ghost predicate LogOk(log: seq<Event>, delay: nat, limit: nat) {
    log != [] ==>
      && LogOk(log[..|log| - 1], delay, limit)
      && EventOk(log[..|log| - 1], log[|log| - 1], delay, limit)
  }

  lemma {:induction false} LogOkPrefix(log: seq<Event>, delay: nat, limit: nat, i: nat)
    requires LogOk(log, delay, limit) && i < |log|
    ensures LogOk(log[..i], delay, limit) && EventOk(log[..i], log[i], delay, limit)
  {
    if i < |log| - 1 {
      LogOkPrefix(log[..|log| - 1], delay, limit, i);
      assert log[..|log| - 1][..i] == log[..i];
    }
  }

  lemma {:induction false} TriesMonotone(log: seq<Event>, i: nat, f: Family)
    requires i <= |log|
    ensures Tries(log[..i], f) <= Tries(log, f)
  {
    if i == |log| {
      assert log[..i] == log;
    } else {
      TriesMonotone(log[..|log| - 1], i, f);
      assert log[..|log| - 1][..i] == log[..i];
    }
  }

  lemma IndexBelowTries(log: seq<Event>, delay: nat, limit: nat, i: nat)
    requires LogOk(log, delay, limit) && i < |log| && log[i].Start?
    ensures log[i].index < Tries(log, log[i].family)
  {
    LogOkPrefix(log, delay, limit, i);
    assert log[..i + 1][..i] == log[..i];
    TriesMonotone(log, i + 1, log[i].family);
  }

  /** The addresses of a family are started in index order, so each at most once. */
  lemma InOrder(log: seq<Event>, delay: nat, limit: nat, i: nat, j: nat)
    requires LogOk(log, delay, limit) && i < j < |log|
    requires log[i].Start? && log[j].Start? && log[i].family == log[j].family
    ensures log[i].index < log[j].index
  {
    LogOkPrefix(log, delay, limit, j);
    IndexBelowTries(log[..j], delay, limit, i);
  }

  /** No index below the number of tries has been left out. */
  lemma {:induction false} FindTry(log: seq<Event>, delay: nat, limit: nat, f: Family, k: nat) returns (i: nat)
    requires LogOk(log, delay, limit) && k < Tries(log, f)
    ensures i < |log| && log[i].Start? && log[i].family == f && log[i].index == k
  {
    var n := |log| - 1;
    if k < Tries(log[..n], f) {
      i := FindTry(log[..n], delay, limit, f, k);
    } else {
      i := n;
    }
  }

  // ---------- interlacing (RFC 8305, section 4)

  /** The families of the attempts started, in order. */
  ghost function Started(log: seq<Event>): seq<Family> {
    if log == [] then []
    else
      var e := log[|log| - 1];
      Started(log[..|log| - 1]) + if e.Start? then [e.family] else []
  }

  /**
   * The `i`-th decision was taken with `a4` addresses of the first family and `a6` IPv6 ones at hand; an attempt is
   * started over only when all of them have been taken.
   */
  ghost predicate TrueTo(log: seq<Event>, i: nat, first: Family, hasV6: bool, a4: nat, a6: nat)
    requires i < |log|
  {
    var e := log[i];
    if e.Start? then
      && (e.family == first || (e.family == Inet6 && hasV6))
      && e.index < (if e.family == Inet6 then a6 else a4)
      && e.otherMore == if e.family == Inet6 then Tries(log[..i], first) < a4 else hasV6 && Tries(log[..i], Inet6) < a6
    else Tries(log[..i], first) >= a4 && (hasV6 ==> Tries(log[..i], Inet6) >= a6)
  }

  /** So were all decisions from the `from`-th on. */
  ghost predicate Answered(log: seq<Event>, from: nat, first: Family, hasV6: bool, a4: nat, a6: nat) {
    forall i :: from <= i < |log| ==> TrueTo(log, i, first, hasV6, a4, a6)
  }

  lemma AnsweredMore(log: seq<Event>, e: Event, from: nat, first: Family, hasV6: bool, a4: nat, a6: nat)
    requires Answered(log, from, first, hasV6, a4, a6) && TrueTo(log + [e], |log|, first, hasV6, a4, a6)
    ensures Answered(log + [e], from, first, hasV6, a4, a6)
  {
    forall i | from <= i < |log|
      ensures TrueTo(log + [e], i, first, hasV6, a4, a6)
    {
      assert TrueTo(log, i, first, hasV6, a4, a6);
      assert (log + [e])[..i] == log[..i];
    }
  }

  /** The decisions from the `from`-th on were taken one after the other between the times `lo` and `hi`. */
  ghost predicate Timed(log: seq<Event>, from: nat, lo: int, hi: int) {
    && (forall i :: from <= i < |log| ==> lo <= log[i].at <= hi)
    && (forall i, j :: from <= i < j < |log| ==> log[i].at <= log[j].at)
  }

  lemma TimedOnward(log: seq<Event>, log2: seq<Event>, from: nat, lo: int, mid: int, hi: int)
    requires Timed(log, from, lo, mid) && log <= log2 && Timed(log2, |log|, mid, hi)
    requires lo <= mid <= hi
    ensures Timed(log2, from, lo, hi)
  {
    assert forall i :: 0 <= i < |log| ==> log2[i] == log[i];
  }

  /** All attempts from the `from`-th decision on could be set up. */
  ghost predicate SetUp(log: seq<Event>, from: nat) {
    forall i :: from <= i < |log| && log[i].Start? ==> log[i].ok
  }

  lemma SetUpMore(log: seq<Event>, e: Event, from: nat)
    requires SetUp(log, from) && (e.Start? ==> e.ok)
    ensures SetUp(log + [e], from)
  {
  }

  /** What one call of the race finds resolved. */
  datatype Answers = Answers(a4: nat, a6: nat, dnsResolved: bool)

  /** The decisions from `lo` up to `hi` were taken with these answers at hand. */
  ghost predicate Span(log: seq<Event>, lo: nat, hi: nat, first: Family, hasV6: bool, a: Answers) {
    lo <= hi <= |log| && forall i :: lo <= i < hi ==> TrueTo(log, i, first, hasV6, a.a4, a.a6)
  }

  /** The `n`-th call took the decisions from `marks[n]` up to `marks[n + 1]`, with the `n`-th answers at hand. */
  ghost predicate Marked(log: seq<Event>, marks: seq<nat>, answers: seq<Answers>, first: Family, hasV6: bool) {
    && |marks| == |answers| + 1 && marks[0] == 0 && marks[|answers|] == |log|
    && forall n :: 0 <= n < |answers| ==> Span(log, marks[n], marks[n + 1], first, hasV6, answers[n])
  }

  lemma SpanKept(log: seq<Event>, log2: seq<Event>, lo: nat, hi: nat, first: Family, hasV6: bool, a: Answers)
    requires Span(log, lo, hi, first, hasV6, a) && log <= log2
    ensures Span(log2, lo, hi, first, hasV6, a)
  {
    forall i | lo <= i < hi
      ensures TrueTo(log2, i, first, hasV6, a.a4, a.a6)
    {
      assert TrueTo(log, i, first, hasV6, a.a4, a.a6);
      assert log2[..i] == log[..i] && log2[i] == log[i];
    }
  }

  lemma MarkedMore(log: seq<Event>, marks: seq<nat>, answers: seq<Answers>, log2: seq<Event>, a: Answers,
                   first: Family, hasV6: bool)
    requires Marked(log, marks, answers, first, hasV6) && log <= log2
    requires Answered(log2, |log|, first, hasV6, a.a4, a.a6)
    ensures Marked(log2, marks + [|log2|], answers + [a], first, hasV6)
  {
    hide TrueTo;
    var marks2, answers2 := marks + [|log2|], answers + [a];
    assert Span(log2, |log|, |log2|, first, hasV6, a);
    hide Span;
    forall n | 0 <= n < |answers2|
      ensures Span(log2, marks2[n], marks2[n + 1], first, hasV6, answers2[n])
    {
      if n < |answers| {
        SpanKept(log, log2, marks[n], marks[n + 1], first, hasV6, answers[n]);
      }
    }
  }

  lemma {:induction false} MarkOf(marks: seq<nat>, i: nat) returns (n: nat)
    requires |marks| > 0 && marks[0] <= i < marks[|marks| - 1]
    ensures n < |marks| - 1 && marks[n] <= i < marks[n + 1]
  {
    var k := |marks| - 2;
    if marks[k] <= i {
      n := k;
    } else {
      n := MarkOf(marks[..k + 1], i);
    }
  }

  /** With the same answers in every call, all decisions were taken with them at hand. */
  lemma MarkedConstant(log: seq<Event>, marks: seq<nat>, answers: seq<Answers>, first: Family, hasV6: bool,
                       a4: nat, a6: nat)
    requires Marked(log, marks, answers, first, hasV6)
    requires forall n :: 0 <= n < |answers| ==> answers[n].a4 == a4 && answers[n].a6 == a6
    ensures Answered(log, 0, first, hasV6, a4, a6)
  {
    forall i: nat | i < |log|
      ensures TrueTo(log, i, first, hasV6, a4, a6)
    {
      var n := MarkOf(marks, i);
      assert Span(log, marks[n], marks[n + 1], first, hasV6, answers[n]);
    }
  }

  lemma SetUpOnward(log: seq<Event>, log2: seq<Event>)
    requires SetUp(log, 0) && log <= log2 && SetUp(log2, |log|)
    ensures SetUp(log2, 0)
  {
    forall i | 0 <= i < |log2| && log2[i].Start?
      ensures log2[i].ok
    {
      assert i < |log| ==> log2[i] == log[i];
    }
  }

  /** Every attempt was set up, and was chosen with `a4` IPv4 and `a6` IPv6 addresses at hand. */
  ghost predicate FixedLists(log: seq<Event>, a4: nat, a6: nat) {
    SetUp(log, 0) && Answered(log, 0, Inet, true, a4, a6)
  }

  /** The `k`-th family of two lists interlaced one by one, IPv6 first, then the rest of the longer list. */
  function Interlaced(k: nat, a4: nat, a6: nat): Family {
    var both := 2 * if a4 < a6 then a4 else a6;
    if k < both then (if k % 2 == 0 then Inet6 else Inet)
    else if a6 > a4 then Inet6 else Inet
  }

  /** How many of the first `k` interlaced addresses are of family `f`. */
  function Share(k: nat, f: Family, a4: nat, a6: nat): nat {
    if k == 0 then 0 else Share(k - 1, f, a4, a6) + if Interlaced(k - 1, a4, a6) == f then 1 else 0
  }

  lemma {:induction false} ShareValue(k: nat, a4: nat, a6: nat)
    ensures var both := 2 * if a4 < a6 then a4 else a6;
            && Share(k, Inet6, a4, a6)
               == (if k <= both then (k + 1) / 2 else both / 2 + if a6 > a4 then k - both else 0)
            && Share(k, Inet, a4, a6)
               == (if k <= both then k / 2 else both / 2 + if a6 > a4 then 0 else k - both)
  {
    if k > 0 {
      ShareValue(k - 1, a4, a6);
    }
  }

  /** An address of family `f` is left; if `f` was last, none of the other one is: then `f` is next in turn. */
  lemma InTurn(k: nat, a4: nat, a6: nat, f: Family, last: Family)
    requires last == (if k == 0 then Inet else Interlaced(k - 1, a4, a6)) && f != Unix
    requires Share(k, f, a4, a6) < if f == Inet then a4 else a6
    requires f == last ==> if f == Inet then Share(k, Inet6, a4, a6) >= a6 else Share(k, Inet, a4, a6) >= a4
    ensures f == Interlaced(k, a4, a6) && k < a4 + a6
  {
    ShareValue(k, a4, a6);
  }

  /** With fixed answer lists, the attempts run through the two families exactly as interlacing asks. */
  lemma {:induction false} StartsInterlaced(log: seq<Event>, delay: nat, limit: nat, a4: nat, a6: nat)
    requires LogOk(log, delay, limit) && FixedLists(log, a4, a6)
    ensures |Started(log)| <= a4 + a6
    ensures forall k :: 0 <= k < |Started(log)| ==> Started(log)[k] == Interlaced(k, a4, a6)
    ensures Tries(log, Inet) == Share(|Started(log)|, Inet, a4, a6)
    ensures Tries(log, Inet6) == Share(|Started(log)|, Inet6, a4, a6)
    ensures LastFamily(log) == if Started(log) == [] then Inet else Started(log)[|Started(log)| - 1]
  {
    hide Interlaced, Begun, LastAt;
    if log != [] {
      var n := |log| - 1;
      var before := log[..n];
      assert FixedLists(before, a4, a6) by {
        forall i | 0 <= i < n
          ensures TrueTo(before, i, Inet, true, a4, a6)
        {
          assert TrueTo(log, i, Inet, true, a4, a6);
          assert before[..i] == log[..i] && before[i] == log[i];
        }
      }
      assert TrueTo(log, n, Inet, true, a4, a6);
      StartsInterlaced(before, delay, limit, a4, a6);
      if log[n].Start? {
        InTurn(|Started(before)|, a4, a6, log[n].family, LastFamily(before));
      }
    }
  }

  // ---------- what a log says about a whole race

  ghost predicate Tried(log: seq<Event>, f: Family, k: nat) {
    exists i :: 0 <= i < |log| && log[i].Start? && log[i].family == f && log[i].index == k
  }

  /** Each of the first `n` addresses of a family was tried. */
  ghost predicate TriedUpTo(log: seq<Event>, f: Family, n: nat) {
    forall k: nat :: k < n ==> Tried(log, f, k)
  }

  /** Of each family, every index below the number of tries was tried, in order, and so only once. */
  ghost predicate TriedInOrder(log: seq<Event>) {
    && (forall i, j :: 0 <= i < j < |log| && log[i].Start? && log[j].Start? && log[i].family == log[j].family
                       ==> log[i].index < log[j].index)
    && forall f, k: nat :: Tried(log, f, k) <==> k < Tries(log, f)
  }

  lemma LogInOrder(log: seq<Event>, delay: nat, limit: nat)
    requires LogOk(log, delay, limit)
    ensures TriedInOrder(log)
  {
    forall i, j | 0 <= i < j < |log| && log[i].Start? && log[j].Start? && log[i].family == log[j].family
      ensures log[i].index < log[j].index
    {
      InOrder(log, delay, limit, i, j);
    }
    forall f, k: nat
      ensures Tried(log, f, k) <==> k < Tries(log, f)
    {
      if k < Tries(log, f) {
        var i := FindTry(log, delay, limit, f, k);
      }
      if Tried(log, f, k) {
        var i :| 0 <= i < |log| && log[i].Start? && log[i].family == f && log[i].index == k;
        IndexBelowTries(log, delay, limit, i);
      }
    }
  }

  /**
   * At every point: an attempt starts beside another one only once the delay has passed, never more than
   * `limit` are ongoing, the family changes whenever the other one has an address, and restarts happen alone.
   */
  ghost predicate Paced(log: seq<Event>, delay: nat, limit: nat) {
    forall i {:trigger log[i]} :: 0 <= i < |log| ==>
      var e, spaced := log[i], log[i].at - LastAt(log[..i]) >= delay;
      && (e.Start? && e.others > 0 ==> spaced)
      && (e.Start? && limit > 0 ==> e.cap <= limit)
      && (e.Start? && e.otherMore ==> e.family != LastFamily(log[..i]))
      && (e.Restart? ==> spaced && e.others == 0)
  }

  lemma LogPaced(log: seq<Event>, delay: nat, limit: nat)
    requires LogOk(log, delay, limit)
    ensures Paced(log, delay, limit)
  {
    forall i | 0 <= i < |log|
      ensures EventOk(log[..i], log[i], delay, limit)
    {
      LogOkPrefix(log, delay, limit, i);
    }
  }

  /** The attempts run through the addresses of both families as interlacing asks. */
  ghost predicate IsInterlaced(log: seq<Event>, a4: nat, a6: nat) {
    |Started(log)| <= a4 + a6 && forall k :: 0 <= k < |Started(log)| ==> Started(log)[k] == Interlaced(k, a4, a6)
  }
}
