/** Racing connection attempts over two address families (cf-ip-happy.c; RFC 8305). */
module HappyEyeballs {
  import opened Common
  import opened AttemptLog
  import opened RaceTrace

  /** A clock that never goes back and moves only finitely often from here on. */
  class Clock {
    var now: int
    var moves: nat

    method Read() returns (t: int)
      modifies this
      ensures t == now && old(now) <= now
      ensures moves < old(moves) || (moves == old(moves) && now == old(now))
    {
      var step: nat := *;
      if step > 0 && moves > 0 {
        now, moves := now + step, moves - 1;
      }
      t := now;
    }
  }

  class Ballers {
    const addrFamily: Family
    const hasV6: bool
    const delay: nat
    const maxConcurrent: nat
    var running: seq<Attempt>
    var winner: Option<Attempt>
    var n4: nat
    var n6: nat
    var lastStarted: int
    var lastFamily: Family
    ghost var trace: seq<Step> // all that has happened
    ghost var log: seq<Event>  // the decisions among it

    ghost predicate Racing()
      reads this
    {
      && (addrFamily == Unix ==> !hasV6) && addrFamily != Inet6
      && (maxConcurrent > 0 ==> Ongoing(running) <= maxConcurrent)
      && (winner.Some? ==>
            && running == [] && winner.value.connected && winner.value.result == Ok
            && winner.value.family in {addrFamily, Inet6}
            && winner.value.index < Tries(log, winner.value.family))
      && LogOk(log, delay, maxConcurrent)
      && n4 == Tries(log, addrFamily) && n6 == Tries(log, Inet6)
      && lastStarted == LastAt(log) && lastFamily == LastFamily(log)
      && (running != [] ==> Begun(log))
      && Tracked(running, log, addrFamily)
    }

    /** Each attempt is to an address that was taken, and its marks agree with its result. */
    static ghost predicate Tracked(running: seq<Attempt>, log: seq<Event>, family: Family) {
      forall i :: 0 <= i < |running| ==>
        && running[i].family in {family, Inet6} && running[i].index < Tries(log, running[i].family)
        && (running[i].inconclusive <==> running[i].result == WeirdServerReply)
        && (running[i].connected ==> running[i].result == Ok)
    }

    static lemma TrackedSome(running: seq<Attempt>, some: seq<Attempt>, log: seq<Event>, family: Family)
      requires Tracked(running, log, family) && forall a :: a in some ==> a in running
      ensures Tracked(some, log, family)
    {
      forall i | 0 <= i < |some|
        ensures some[i] in running
      {
      }
    }

    static lemma TrackedOnward(running: seq<Attempt>, log: seq<Event>, e: Event, family: Family)
      requires Tracked(running, log, family)
      ensures Tracked(running, log + [e], family)
    {
      assert (log + [e])[..|log|] == log;
    }

    static lemma TrackedNext(running: seq<Attempt>, a: Attempt, log: seq<Event>, family: Family)
      requires Tracked(running, log, family)
      requires a.family in {family, Inet6} && a.index < Tries(log, a.family)
      requires !a.inconclusive && !a.connected && a.result == Ok
      ensures Tracked(running + [a], log, family)
    {
    }

    /** Between rounds no attempt in the list is connected: it would have won. */
    ghost predicate Settled()
      reads this
    {
      Racing() && forall i :: 0 <= i < |running| ==> !running[i].connected
    }

    /** The list of attempts, the log and the winner are what the trace makes of them. */
    ghost predicate Traced()
      reads this
    {
      Told(trace, maxConcurrent, log, running, winner)
    }

    ghost predicate Valid()
      reads this
    {
      Settled() && Traced()
    }

    constructor (unix: bool, delay: nat, maxConcurrent: nat)
      ensures Valid() && winner == None && log == [] && running == [] && trace == []
      ensures this.delay == delay && this.maxConcurrent == maxConcurrent
      ensures addrFamily == (if unix then Unix else Inet) && hasV6 == !unix
    {
      addrFamily, hasV6 := if unix then Unix else Inet, !unix;
      this.delay, this.maxConcurrent := delay, maxConcurrent;
      running, winner, n4, n6, lastStarted, lastFamily := [], None, 0, 0, 0, Inet;
      log, trace := [], [];
    }

    predicate More6(a6: nat)
      reads this
    {
      hasV6 && n6 < a6
    }

    predicate MorePossible(a4: nat, a6: nat)
      reads this
    {
      n4 < a4 || More6(a6)
    }

    // ---------- one attempt

    /** Connects attempt `i` a little further; the network decides how far. */
    method ConnectAttempt(i: nat) returns (ghost more: seq<Heard>)
      requires Racing() && i < |running|
      modifies `running
      ensures Racing()
      ensures |more| == if old(running[i]).Ongoing() then 1 else 0
      ensures running == if more == [] then old(running) else old(running)[i := old(running[i]).Hearing(more[0])]
    {
      more := [];
      var a := running[i];
      if a.result == Ok && !a.connected {
        var code: Code, done: bool := *, *;
        more := [Heard(code, done)];
        if code == Ok {
          a := a.(connected := done);
        } else {
          a := a.(result := code, inconclusive := code == WeirdServerReply);
        }
        OngoingUpdate(running, i, a);
        running := running[i := a];
      }
    }

    static lemma OngoingUpdate(running: seq<Attempt>, i: nat, a: Attempt)
      requires i < |running| && (a.Ongoing() ==> running[i].Ongoing())
      ensures Ongoing(running[i := a]) <= Ongoing(running)
    {
      var front, back := running[..i], running[i + 1..];
      assert running == front + [running[i]] + back && running[i := a] == front + [a] + back;
      OngoingAppend(front + [running[i]], back);
      OngoingAppend(front + [a], back);
      OngoingLast(front, running[i]);
      OngoingLast(front, a);
    }

    lemma MarksAgree(i: nat)
      requires Racing() && i < |running|
      ensures running[i].inconclusive <==> running[i].result == WeirdServerReply
      ensures running[i].connected ==> running[i].result == Ok
    {
      TrackedAt(running, i, log, addrFamily);
    }

    /** Declares the `i`-th attempt the winner and clears the list. */
    method Declare(i: nat)
      requires Racing() && winner == None && i < |running| && running[i].connected
      modifies `running, `winner
      ensures Settled() && winner == Some(old(running[i])) && running == []
    {
      hide LogOk, Tries, LastAt, LastFamily, Begun, Ongoing, Ballers.Tracked;
      TrackedAt(running, i, log, addrFamily);
      winner := Some(running[i]);
      running := [];
      NoneOngoing(running);
    }

    /** Asks every ongoing attempt, in order, up to the first one that is through. */
    method Poll() returns (won: bool, ongoing: nat, inconclusive: nat, ghost news: seq<Heard>)
      requires Racing() && winner == None
      modifies `running, `winner
      ensures Settled()
      ensures won ==> winner.Some? && running == [] && exists i: nat :: FirstThrough(old(running), news, i, winner)
      ensures !won ==> winner == None && running == Polled(old(running), news) && |news| == Ongoing(old(running))
      ensures !won ==> ongoing == Ongoing(running) && (inconclusive > 0 <==> AnyInconclusive(running))
    {
      hide Racing, Polled, Ongoing, AnyInconclusive, FirstThrough, Attempt.Hearing, SoFar;
      ongoing, inconclusive := 0, 0;
      ghost var was, done: seq<Attempt> := running, [];
      news := [];
      NonePolled(was);
      for i := 0 to |running|
        invariant Racing() && winner == None && |was| == |running|
        invariant SoFar(was, i, done, news, running, ongoing, inconclusive)
      {
        ghost var before := running;
        SoFarAt(was, i, done, news, before, ongoing, inconclusive);
        ghost var more := ConnectAttempt(i);
        MarksAgree(i);
        SoFarNext(was, i, done, news, before, ongoing, inconclusive, more, running);
        done, news := done + [running[i]], news + more;
        var a := running[i];
        if a.result == Ok {
          if a.connected {
            Declare(i);
            return true, ongoing, inconclusive, news;
          }
          ongoing := ongoing + 1;
        } else if a.inconclusive {
          inconclusive := inconclusive + 1;
        }
      }
      AllSoFar(was, done, news, running, ongoing, inconclusive);
      won := false;
    }

    /** Lets every attempt proceed; the first one that has connected wins and ends the race. */
    method Evaluate() returns (won: bool, ongoing: nat, inconclusive: nat, ghost news: seq<Heard>)
      requires Racing() && Traced() && winner == None
      modifies `running, `winner, `trace
      ensures Settled() && Traced() && trace == old(trace) + [Asked(news)]
      ensures won ==> winner.Some? && exists i: nat :: FirstThrough(old(running), news, i, winner)
      ensures !won ==> winner == None && running == Polled(old(running), news) && |news| == Ongoing(old(running))
      ensures !won ==> ongoing == Ongoing(running) && (inconclusive > 0 <==> AnyInconclusive(running))
    {
      hide LogOk, Tries, LastAt, LastFamily, Begun, Ballers.Tracked, Polled, Ongoing, AnyInconclusive, Told,
        FirstThrough;
      won, ongoing, inconclusive, news := Poll();
      if won {
        ghost var i: nat :| FirstThrough(old(running), news, i, winner);
        TellWon(trace, maxConcurrent, log, old(running), news, i, winner);
      } else {
        assert log + [] == log;
        PolledThrough(old(running), news);
        TellStep(trace, maxConcurrent, log, old(running), Asked(news), log);
      }
      trace := trace + [Asked(news)];
    }

    static lemma AnyLast(running: seq<Attempt>, b: Attempt)
      ensures AnyInconclusive(running + [b]) <==> AnyInconclusive(running) || b.inconclusive
    {
      assert b in running + [b] && forall a :: a in running ==> a in running + [b];
    }

    /** The first `i` attempts were asked; none of them is through. */
    static ghost predicate SoFar(was: seq<Attempt>, i: nat, done: seq<Attempt>, news: seq<Heard>,
                                 running: seq<Attempt>, ongoing: nat, inconclusive: nat) {
      && i <= |was| && done == Polled(was[..i], news) && running == done + was[i..]
      && |news| == Ongoing(was[..i]) && ongoing == Ongoing(done)
      && (inconclusive > 0 <==> AnyInconclusive(done))
      && forall j :: 0 <= j < |done| ==> !done[j].connected
    }

    static lemma NonePolled(was: seq<Attempt>)
      ensures SoFar(was, 0, [], [], was, 0, 0)
    {
    }

    static lemma SoFarAt(was: seq<Attempt>, i: nat, done: seq<Attempt>, news: seq<Heard>, running: seq<Attempt>,
                         ongoing: nat, inconclusive: nat)
      requires SoFar(was, i, done, news, running, ongoing, inconclusive) && i < |was|
      ensures |done| == i < |running| && running[i] == was[i] && running[i := was[i]] == running
    {
    }

    static lemma SoFarNext(was: seq<Attempt>, i: nat, done: seq<Attempt>, news: seq<Heard>, running: seq<Attempt>,
                           ongoing: nat, inconclusive: nat, more: seq<Heard>, running2: seq<Attempt>)
      requires SoFar(was, i, done, news, running, ongoing, inconclusive) && i < |was| == |running|
      requires |more| == if was[i].Ongoing() then 1 else 0
      requires running2 == if more == [] then running else running[i := was[i].Hearing(more[0])]
      requires running2[i].inconclusive ==> running2[i].result != Ok
      ensures var b := running2[i];
              if b.connected then FirstThrough(was, news + more, i, Some(b))
              else SoFar(was, i + 1, done + [b], news + more, running2, ongoing + (if b.Ongoing() then 1 else 0),
                         inconclusive + if b.inconclusive then 1 else 0)
    {
      hide Polled, Ongoing, AnyInconclusive, FirstThrough, Attempt.Hearing;
      SoFarAt(was, i, done, news, running, ongoing, inconclusive);
      var b := if was[i].Ongoing() then was[i].Hearing(more[0]) else was[i];
      assert running2 == running[i := b] && running2[i] == b;
      PollStep(was, i, done, news, more, b);
      OngoingLast(done, b);
      AnyLast(done, b);
      if b.connected {
        ThroughAt(was, i, done + [b], news + more);
      }
    }

    static lemma AllSoFar(was: seq<Attempt>, done: seq<Attempt>, news: seq<Heard>, running: seq<Attempt>, ongoing: nat,
                          inconclusive: nat)
      requires SoFar(was, |was|, done, news, running, ongoing, inconclusive)
      ensures running == Polled(was, news) && |news| == Ongoing(was) && ongoing == Ongoing(running)
      ensures inconclusive > 0 <==> AnyInconclusive(running)
      ensures forall j :: 0 <= j < |running| ==> !running[j].connected
    {
      hide Polled, Ongoing, AnyInconclusive;
      assert was[..|was|] == was && running == done;
    }

    static lemma PollStep(was: seq<Attempt>, i: nat, done: seq<Attempt>, news: seq<Heard>, more: seq<Heard>, b: Attempt)
      requires i < |was| && done == Polled(was[..i], news) && |more| == if was[i].Ongoing() then 1 else 0
      requires b == if was[i].Ongoing() then was[i].Hearing(more[0]) else was[i]
      ensures Polled(was[..i + 1], news + more) == done + [b]
      ensures (done + was[i..])[i := b] == done + [b] + was[i + 1..]
      ensures Ongoing(was[..i + 1]) == Ongoing(was[..i]) + |more|
    {
      hide Polled, Ongoing;
      assert was[..i + 1] == was[..i] + [was[i]];
      PolledLast(was[..i], news, was[i], more);
      OngoingLast(was[..i], was[i]);
    }

    static lemma ThroughAt(was: seq<Attempt>, i: nat, done: seq<Attempt>, news: seq<Heard>)
      requires i < |was| && |news| == Ongoing(was[..i + 1]) && done == Polled(was[..i + 1], news) && |done| == i + 1
      requires done[i].connected && forall j :: 0 <= j < i ==> !done[j].connected
      ensures FirstThrough(was, news, i, Some(done[i]))
    {
    }

    static lemma TrackedAt(running: seq<Attempt>, i: nat, log: seq<Event>, family: Family)
      requires Tracked(running, log, family) && i < |running|
      ensures running[i].family in {family, Inet6} && running[i].index < Tries(log, running[i].family)
      ensures running[i].inconclusive <==> running[i].result == WeirdServerReply
      ensures running[i].connected ==> running[i].result == Ok
      ensures Tracked([], log, family)
    {
    }

    static lemma OldestFirst(running: seq<Attempt>, excess: nat)
      requires running != [] && excess > 0
      ensures Ongoing(running) == (if running[0].Ongoing() then 1 else 0) + Ongoing(running[1..])
      ensures WithoutOldest(running, excess) == if running[0].Ongoing() then WithoutOldest(running[1..], excess - 1)
                                                else [running[0]] + WithoutOldest(running[1..], excess)
    {
    }

    static lemma OldestNone(running: seq<Attempt>, excess: nat)
      requires running == [] || excess == 0
      ensures WithoutOldest(running, excess) == running
    {
    }

    /** Drops the oldest ongoing attempts until no more than `limit` are left. */
    method Prune(limit: nat)
      requires Settled()
      modifies `running
      ensures Settled() && Ongoing(running) <= limit
      ensures var n := Ongoing(old(running));
              running == WithoutOldest(old(running), if n > limit then n - limit else 0)
    {
      hide LogOk, Tries, LastAt, LastFamily, Begun, Ballers.Tracked, Ongoing, WithoutOldest;
      var all, ongoing := running, 0;
      NoneOngoing([]);
      for i := 0 to |all|
        invariant ongoing == Ongoing(all[..i])
      {
        OngoingLast(all[..i], all[i]);
        assert all[..i + 1] == all[..i] + [all[i]];
        if all[i].Ongoing() {
          ongoing := ongoing + 1;
        }
      }
      assert all[..|all|] == all;
      ghost var n := ongoing;
      var kept, left := [], all;
      while left != [] && ongoing > limit
        invariant forall a :: a in kept + left ==> a in all
        invariant 0 <= ongoing == Ongoing(kept) + Ongoing(left) && Ongoing(kept) == 0
        invariant ongoing <= n && (ongoing >= limit || ongoing == n)
        invariant WithoutOldest(all, if n > limit then n - limit else 0)
               == kept + WithoutOldest(left, if ongoing > limit then ongoing - limit else 0)
        decreases |left|
      {
        var a := left[0];
        assert left == [a] + left[1..];
        OldestFirst(left, ongoing - limit);
        if a.Ongoing() {
          ongoing := ongoing - 1;
        } else {
          OngoingLast(kept, a);
          kept := kept + [a];
        }
        left := left[1..];
      }
      NoneOngoing(left);
      OldestNone(left, if ongoing > limit then ongoing - limit else 0);
      OngoingAppend(kept, left);
      forall i | 0 <= i < |kept + left|
        ensures (kept + left)[i] in all
      {
        assert (kept + left)[i] in kept + left;
      }
      TrackedSome(all, kept + left, log, addrFamily);
      running := kept + left;
    }

    // ---------- starting and restarting

    lemma LogPush(e: Event)
      ensures var log2 := log + [e];
              && (LogOk(log, delay, maxConcurrent) && EventOk(log, e, delay, maxConcurrent)
                  ==> LogOk(log2, delay, maxConcurrent))
              && (forall f :: Tries(log2, f) == Tries(log, f) + if e.Start? && e.family == f then 1 else 0)
              && LastAt(log2) == (if e.Start? && !e.ok then LastAt(log) else e.at)
              && LastFamily(log2) == (if e.Start? && e.ok then e.family else LastFamily(log))
              && (Begun(log) ==> Begun(log2)) && ((e.Start? ==> e.ok) ==> Begun(log2))
    {
      var log2 := log + [e];
      assert log2[..|log2| - 1] == log && log2[|log2| - 1] == e;
      assert e in log2 && forall d :: d in log ==> d in log2;
    }

    static lemma NoneOngoing(running: seq<Attempt>)
      ensures running == [] ==> Ongoing(running) == 0
    {
    }

    /** The family to try next: the other one than last time if it still has an address. */
    function NextFamily(a4: nat, a6: nat): Family
      reads this
    {
      if (lastFamily == Inet || n4 >= a4) && More6(a6) then Inet6 else addrFamily
    }

    method MakeRoom()
      requires Settled() && winner == None
      modifies `running
      ensures Settled() && running == Pruned(old(running), maxConcurrent)
      ensures maxConcurrent > 0 ==> Ongoing(running) < maxConcurrent
    {
      hide WithoutOldest, Ongoing;
      OldestNone(running, 0);
      if maxConcurrent > 0 {
        Prune(maxConcurrent - 1);
      }
    }

    /** The decisions from the `from`-th on were taken with these numbers of addresses at hand. */
    ghost predicate AnsweredSince(from: nat, a4: nat, a6: nat)
      reads this
    {
      Answered(log, from, addrFamily, hasV6, a4, a6)
    }

    static lemma NothingYet(log: seq<Event>, first: Family, hasV6: bool, a4: nat, a6: nat)
      ensures Answered(log, |log|, first, hasV6, a4, a6) && SetUp(log, |log|)
    {
    }

    static lemma Restarted(log: seq<Event>, e: Event, from: nat, first: Family, hasV6: bool, a4: nat, a6: nat)
      requires e.Restart? && Answered(log, from, first, hasV6, a4, a6) && SetUp(log, from)
      requires Tries(log, first) >= a4 && (hasV6 ==> Tries(log, Inet6) >= a6)
      ensures Answered(log + [e], from, first, hasV6, a4, a6) && SetUp(log + [e], from)
    {
      assert (log + [e])[..|log|] == log;
      AnsweredMore(log, e, from, first, hasV6, a4, a6);
      SetUpMore(log, e, from);
    }

    /** Puts the decision to try an address, right and true to the answers at hand, into the trace and the log. */
    ghost method Record(e: Event, code: Code, was: seq<Attempt>, from: nat, a4: nat, a6: nat)
      requires e.Start? && Told(trace, maxConcurrent, log, was, None) && StepOk(was, Tried(e, code), maxConcurrent)
      requires LogOk(log, delay, maxConcurrent) && EventOk(log, e, delay, maxConcurrent)
      requires Tracked(running, log, addrFamily) && AnsweredSince(from, a4, a6) && SetUp(log, from)
      requires TrueTo(log + [e], |log|, addrFamily, hasV6, a4, a6)
      modifies `trace, `log
      ensures trace == old(trace) + [Tried(e, code)] && log == old(log) + [e]
      ensures Told(trace, maxConcurrent, log, After(was, Tried(e, code), maxConcurrent), None)
      ensures LogOk(log, delay, maxConcurrent) && Tracked(running, log, addrFamily)
      ensures AnsweredSince(from, a4, a6) && (e.ok ==> SetUp(log, from))
      ensures forall f :: Tries(log, f) == Tries(old(log), f) + if e.family == f then 1 else 0
      ensures LastAt(log) == (if e.ok then e.at else LastAt(old(log)))
      ensures LastFamily(log) == (if e.ok then e.family else LastFamily(old(log)))
      ensures Begun(old(log)) || e.ok ==> Begun(log)
    {
      hide LogOk, EventOk, Tries, LastAt, LastFamily, Begun, Ballers.Tracked, Told, StepOk, After, TrueTo, Answered,
        SetUp;
      LogPush(e);
      AnsweredMore(log, e, from, addrFamily, hasV6, a4, a6);
      if e.ok {
        SetUpMore(log, e, from);
      }
      TrackedOnward(running, log, e, addrFamily);
      TellStep(trace, maxConcurrent, log, was, Tried(e, code), log + [e]);
      trace, log := trace + [Tried(e, code)], log + [e];
    }

    /** Takes the next address, makes room for its attempt and starts it. */
    method StartNext(a4: nat, a6: nat, now: int, ghost others: nat, ghost from: nat) returns (code: Code)
      requires Settled() && Traced() && winner == None && MorePossible(a4, a6)
      requires others == Ongoing(running) && (others > 0 ==> now - lastStarted >= delay)
      requires AnsweredSince(from, a4, a6) && SetUp(log, from)
      modifies this
      ensures Settled() && Traced() && winner == None
      ensures (old(n4) < a4 && n4 == old(n4) + 1 && n6 == old(n6))
           || (old(More6(a6)) && n6 == old(n6) + 1 && n4 == old(n4))
      ensures exists e :: trace == old(trace) + [Tried(e, code)] && log == old(log) + [e]
                && e.Start? && (e.ok <==> code == Ok) && e.at == now && e.family == old(NextFamily(a4, a6))
      ensures AnsweredSince(from, a4, a6) && (code == Ok ==> SetUp(log, from))
      ensures code == Ok ==> lastStarted == now
    {
      hide LogOk, Tries, LastAt, LastFamily, Begun, WithoutOldest, Ongoing, Ballers.Tracked, Told, TrueTo, Pruned,
        Answered, SetUp;
      NoneOngoing(running);
      ghost var was := running;
      var f := NextFamily(a4, a6);
      var otherMore := if f == Inet6 then n4 < a4 else More6(a6);
      var index := if f == Inet6 then n6 else n4;
      MakeRoom();
      code := *;
      ghost var e := Start(f, index, now, others, Ongoing(running) + 1, otherMore, code == Ok);
      TrueNow(log, e, addrFamily, hasV6, a4, a6);
      Record(e, code, was, from, a4, a6);
      if f == Inet6 {
        n6 := n6 + 1;
      } else {
        n4 := n4 + 1;
      }
      if code == Ok {
        var a := Attempt(f, index, Ok, false, false);
        OngoingLast(running, a);
        TrackedNext(running, a, log, addrFamily);
        running := running + [a];
        lastStarted, lastFamily := now, f;
      }
    }

    static lemma TrueNow(log: seq<Event>, e: Event, first: Family, hasV6: bool, a4: nat, a6: nat)
      requires e.Start? && first != Inet6 && (e.family == first || (e.family == Inet6 && hasV6))
      requires e.index < (if e.family == Inet6 then a6 else a4)
      requires e.otherMore == if e.family == Inet6 then Tries(log, first) < a4 else hasV6 && Tries(log, Inet6) < a6
      ensures TrueTo(log + [e], |log|, first, hasV6, a4, a6)
    {
      assert (log + [e])[..|log|] == log;
    }

    /** Starts the first inconclusive attempt over. */
    method RestartFirst(now: int, ghost a4: nat, ghost a6: nat, ghost from: nat) returns (code: Code)
      requires Settled() && Traced() && winner == None && Ongoing(running) == 0
      requires AnyInconclusive(running) && !MorePossible(a4, a6)
      requires now - lastStarted >= delay
      requires AnsweredSince(from, a4, a6) && SetUp(log, from)
      modifies this
      ensures Racing() && Traced() && winner == None && n4 == old(n4) && n6 == old(n6)
      ensures code == Ok ==> lastStarted == now
      ensures code != Ok ==> Settled()
      ensures AnsweredSince(from, a4, a6) && SetUp(log, from)
      ensures exists i: nat, e, answers :: trace == old(trace) + [Retried(i, e, code, answers)]
                && (code == Ok <==> answers != []) && e.Restart? && e.at == now
                && log == if code == Ok then old(log) + [e] else old(log)
    {
      hide LogOk, Tries, LastAt, LastFamily, Begun, Ongoing, Told, Answered, SetUp, Ballers.Tracked;
      var i := FindInconclusive();
      var a := running[i].Fresh();
      ghost var e, answers: seq<Heard> := Restart(a.family, a.index, now, 0), [];
      code := *;
      if code == Ok {
        var r: Code, done: bool := *, *;
        answers := [Heard(r, done)];
        a := if r == Ok then a.(connected := done) else a.(result := r, inconclusive := r == WeirdServerReply);
        LogPush(e);
        TrackedOnward(running, log, e, addrFamily);
        lastStarted := now;
      }
      OneMoreOngoing(running, i, a);
      TrackedAt(running, i, log, addrFamily);
      Restarted(log, e, from, addrFamily, hasV6, a4, a6);
      ghost var log2 := if code == Ok then log + [e] else log;
      assert log + [] == log;
      TrackedAgain(running, i, a, log2, addrFamily);
      TellStep(trace, maxConcurrent, log, running, Retried(i, e, code, answers), log2);
      trace, log := trace + [Retried(i, e, code, answers)], log2;
      running := running[i := a];
    }

    method FindInconclusive() returns (i: nat)
      requires AnyInconclusive(running)
      ensures FirstInconclusive(running, i)
    {
      i := 0;
      while !running[i].inconclusive
        invariant i < |running| && exists j :: i <= j < |running| && running[j].inconclusive
        invariant forall j :: 0 <= j < i ==> !running[j].inconclusive
        decreases |running| - i
      {
        i := i + 1;
      }
    }

    static lemma TrackedAgain(running: seq<Attempt>, i: nat, a: Attempt, log: seq<Event>, family: Family)
      requires Tracked(running, log, family) && i < |running|
      requires a.family == running[i].family && a.index == running[i].index
      requires (a.inconclusive <==> a.result == WeirdServerReply) && (a.connected ==> a.result == Ok)
      ensures Tracked(running[i := a], log, family)
    {
    }

    // ---------- the race

    method Failure() returns (code: Code)
      ensures code == LastFailure(running)
    {
      code := CouldNotConnect;
      for i := 0 to |running|
        invariant code == LastFailure(running[..i])
      {
        assert running[..i + 1][..i] == running[..i];
        if running[i].result != Ok {
          code := running[i].result;
        }
      }
      assert running[..|running|] == running;
    }

    /** Addresses not tried yet. */
    ghost function Untried(a4: nat, a6: nat): nat
      reads this
    {
      (if n4 < a4 then a4 - n4 else 0) + (if More6(a6) then a6 - n6 else 0)
    }

    /** When to be called again, unless another attempt is due or time has run out. */
    method NextCall(a4: nat, a6: nat, clock: Clock, deadline: int, expiry: Option<int>)
      returns (again: bool, outcome: Outcome)
      modifies clock
      ensures old(clock.now) <= clock.now
      ensures clock.moves < old(clock.moves) || (clock.moves == old(clock.moves) && clock.now == old(clock.now))
      ensures again ==> MorePossible(a4, a6) && clock.now - lastStarted >= delay
      ensures !again ==> outcome == if clock.now >= deadline then OutOfTime else Waiting(
                if !MorePossible(a4, a6) then expiry
                else Some(if lastStarted + delay < deadline then lastStarted + delay else deadline))
      ensures !again && clock.now < deadline && MorePossible(a4, a6) ==> clock.now - lastStarted < delay
    {
      var wake := expiry;
      var now := clock.Read();
      var left := if deadline == now then -1 else deadline - now;
      if left < 0 {
        return false, OutOfTime;
      }
      if MorePossible(a4, a6) {
        var wait := delay - (now - lastStarted);
        var next := if left < wait then left else wait;
        if next <= 0 {
          return true, OutOfTime;
        }
        wake := Some(now + next);
      }
      return false, Waiting(wake);
    }

    ghost function Here(): Standing
      reads this
    {
      Standing(running, n4, n6, lastStarted)
    }

    ghost function RulesTo(deadline: int): Rules {
      Rules(addrFamily, hasV6, delay, maxConcurrent, deadline)
    }

    /** Without a winner, the trace alone says where the race stands. */
    lemma StandsAsTold(deadline: int)
      requires Racing() && Traced() && winner == None
      ensures StandingOf(trace, RulesTo(deadline)) == Here()
    {
      hide Replay, Decisions, Tries, LastAt, LogOk, TraceOk, Ongoing, Ballers.Tracked;
    }

    /** A race is won exactly if the network has said of an attempt that it is through. */
    lemma WonIfSaid()
      requires Valid()
      ensures winner.Some? <==> SaysThrough(trace)
      ensures winner.Some? ==> WonByAnswer(trace, winner.value)
    {
      hide Racing, WonLast, WonByAnswer, SaysThrough, TraceOk, Replay;
      if winner.Some? {
        WonIsByAnswer(trace, maxConcurrent, winner);
      } else {
        NobodyMissed(trace, maxConcurrent);
      }
    }

    /** Without a winner the list of attempts is that of a sound trace. */
    lemma ListAsTold()
      requires Traced() && winner == None
      ensures TraceOk(trace, maxConcurrent) && running == Replay(trace, maxConcurrent)
    {
    }

    lemma WonAsTold()
      requires Traced() && winner.Some?
      ensures WonLast(trace, maxConcurrent, winner)
    {
    }

    lemma LogAsTold()
      requires Traced()
      ensures log == Decisions(trace)
    {
    }

    /** A run that ended as it says is a call that did. */
    lemma CallIsOk(told: seq<Step>, before: seq<Event>, outcome: Outcome, a: Answers, t: int, u: int, deadline: int)
      requires Valid() && told <= trace && t <= u && before == Decisions(told)
      requires outcome == AlreadyWon <==> told == trace
      requires outcome == Won || outcome == AlreadyWon || winner == None
      requires Ended(outcome, trace, Here(), RulesTo(deadline), a, t, u) && Timed(log, |before|, t, u)
      ensures CallOk(trace, |told|, |trace|, t, u, outcome, a, RulesTo(deadline))
    {
      hide Decisions, Timed, Told, Racing, WonLast;
      assert trace[..|trace|] == trace && trace[..|told|] == told;
      LogAsTold();
      if winner == None {
        StandsAsTold(deadline);
      }
    }

    ghost predicate Going(from: nat, a4: nat, a6: nat)
      reads this
    {
      Racing() && Traced() && AnsweredSince(from, a4, a6)
    }

    /**
     * With every ongoing attempt just asked: starts or restarts an attempt if one is due, or gives up if there is
     * nothing left; `done` says that one of these happened.
     */
    method DoMore(a4: nat, a6: nat, dnsResolved: bool, ongoing: nat, inconclusive: nat, now: int, ghost deadline: int,
                  ghost lo: int, ghost from: nat)
      returns (done: bool, again: bool, outcome: Outcome, expiry: Option<int>)
      requires Settled() && Going(from, a4, a6) && SetUp(log, from) && winner == None && LastAsked(trace)
      requires ongoing == Ongoing(running) && (inconclusive > 0 <==> AnyInconclusive(running))
      modifies this
      ensures Going(from, a4, a6) && (again || !outcome.SetupFailed? ==> SetUp(log, from)) && winner == None
      ensures old(trace) <= trace && old(log) <= log && Timed(log, |old(log)|, now, now)
      ensures !done ==> unchanged(this) && outcome == OutOfTime
      ensures !done ==> var a, rules := Answers(a4, a6, dnsResolved), RulesTo(deadline);
                        Here().Idle(a, rules, now) && (!MorePossible(a4, a6) ==> expiry == Here().Wake(a, rules))
      ensures done && again ==>
                || Untried(a4, a6) < old(Untried(a4, a6))
                || (Untried(a4, a6) == old(Untried(a4, a6)) && now - old(lastStarted) >= delay && lastStarted == now)
      ensures done && !again ==>
                && Settled() && outcome != AlreadyWon && outcome != Won
                && Ended(outcome, trace, Here(), RulesTo(deadline), Answers(a4, a6, dnsResolved), lo, now)
    {
      hide Racing, Told, LastFailure, AnyInconclusive, Answered, SetUp, WonLast, Ended;
      ghost var a, rules := Answers(a4, a6, dnsResolved), RulesTo(deadline);
      done, again, outcome, expiry := false, false, OutOfTime, None;
      if ongoing == 0 || (MorePossible(a4, a6) && now - lastStarted >= delay) {
        if MorePossible(a4, a6) {
          var code := StartNext(a4, a6, now, ongoing, from);
          EndedOtherwise(trace, Here(), rules, a, lo, now, code, None);
          return true, code == Ok, SetupFailed(code), None;
        } else if inconclusive > 0 {
          var wait := delay - (now - lastStarted);
          if wait <= 0 {
            var code := RestartFirst(now, a4, a6, from);
            EndedOtherwise(trace, Here(), rules, a, lo, now, code, None);
            return true, code == Ok, SetupFailed(code), None;
          }
          expiry := Some(now + wait);
        } else if ongoing == 0 && dnsResolved {
          var code := Failure();
          ListAsTold();
          EndedOtherwise(trace, Here(), rules, a, lo, now, code, None);
          return true, false, Exhausted(code), None;
        }
      }
    }

    /**
     * One pass of the race: evaluates, and starts or restarts an attempt if one is due. It comes again only after
     * an address was tried, the clock has moved, or a restart was used up.
     */
    method Round(a4: nat, a6: nat, dnsResolved: bool, clock: Clock, deadline: int, ghost from: nat)
      returns (again: bool, outcome: Outcome)
      requires Going(from, a4, a6) && SetUp(log, from) && winner == None && delay > 0
      modifies this, clock
      ensures Going(from, a4, a6) && (again || !outcome.SetupFailed? ==> SetUp(log, from))
      ensures again ==> winner == None
      ensures !again ==> Settled() && outcome != AlreadyWon && (outcome == Won <==> winner.Some?)
      ensures old(trace) < trace && trace[|old(trace)|].Asked? && old(log) <= log && old(clock.now) <= clock.now
      ensures Timed(log, |old(log)|, old(clock.now), clock.now)
      ensures again ==>
                || Untried(a4, a6) < old(Untried(a4, a6))
                || (Untried(a4, a6) == old(Untried(a4, a6)) && clock.moves < old(clock.moves))
                || (Untried(a4, a6) == old(Untried(a4, a6)) && clock.moves == old(clock.moves)
                    && old(clock.now - lastStarted) >= delay && clock.now - lastStarted < delay)
      ensures !again ==>
                Ended(outcome, trace, Here(), RulesTo(deadline), Answers(a4, a6, dnsResolved),
                      old(clock.now), clock.now)
    {
      hide Racing, Told, LastFailure, Polled, AnyInconclusive, Answered, SetUp, WonLast, Ended;
      ghost var a, rules := Answers(a4, a6, dnsResolved), RulesTo(deadline);
      var won, ongoing, inconclusive, _ := Evaluate();
      if won {
        WonAsTold();
        EndedOtherwise(trace, Here(), rules, a, old(clock.now), clock.now, Ok, winner);
        return false, Won;
      }
      var now := clock.Read();
      var expiry, done;
      done, again, outcome, expiry := DoMore(a4, a6, dnsResolved, ongoing, inconclusive, now, deadline,
                                             old(clock.now), from);
      if !done {
        again, outcome := NextCall(a4, a6, clock, deadline, expiry);
        if !again {
          EndedIdle(trace, Here(), rules, a, old(clock.now), now, clock.now);
        }
      }
    }

    /** Runs the race on `a4` IPv4 and `a6` IPv6 answers until it is decided or has to wait. It always returns. */
    method Run(a4: nat, a6: nat, dnsResolved: bool, clock: Clock, deadline: int) returns (outcome: Outcome)
      requires Valid() && delay > 0
      modifies this, clock
      ensures Valid() && old(trace) <= trace && old(log) <= log && old(clock.now) <= clock.now
      ensures old(winner) == None ==> |trace| > |old(trace)| && trace[|old(trace)|].Asked?
      ensures Timed(log, |old(log)|, old(clock.now), clock.now)
      ensures AnsweredSince(|old(log)|, a4, a6) && (!outcome.SetupFailed? ==> SetUp(log, |old(log)|))
      ensures outcome == AlreadyWon <==> old(winner).Some?
      ensures old(winner).Some? ==> unchanged(this)
      ensures outcome == Won <==> old(winner) == None && winner.Some?
      ensures winner.Some? <==> SaysThrough(trace)
      ensures Ended(outcome, trace, Here(), RulesTo(deadline), Answers(a4, a6, dnsResolved), old(clock.now), clock.now)
    {
      NothingYet(log, addrFamily, hasV6, a4, a6);
      if winner.Some? {
        WonIfSaid();
        return AlreadyWon;
      }
      hide Racing, Told, LastFailure, Ongoing, AnyInconclusive, Answered, SetUp, Ended, Timed, SaysThrough, WonByAnswer;
      outcome := AlreadyWon;
      ghost var from, before := |log|, clock.now;
      ghost var a, rules := Answers(a4, a6, dnsResolved), RulesTo(deadline);
      var again := true;
      while again
        invariant Going(from, a4, a6) && (again ==> winner == None && SetUp(log, from))
        invariant !again ==> Settled() && outcome != AlreadyWon && (outcome == Won <==> winner.Some?)
        invariant !again && !outcome.SetupFailed? ==> SetUp(log, from)
        invariant old(trace) <= trace && old(log) <= log && old(clock.now) <= clock.now
        invariant Timed(log, from, before, clock.now)
        invariant (again && trace == old(trace)) || (|trace| > |old(trace)| && trace[|old(trace)|].Asked?)
        invariant !again ==> Ended(outcome, trace, Here(), rules, a, before, clock.now)
        decreases again, Untried(a4, a6), clock.moves, if clock.now - lastStarted >= delay then 1 else 0
      {
        ghost var was, mid := log, clock.now;
        again, outcome := Round(a4, a6, dnsResolved, clock, deadline, from);
        TimedOnward(was, log, from, before, mid, clock.now);
        if !again {
          EndedSince(outcome, trace, Here(), rules, a, before, mid, clock.now);
        }
      }
      WonIfSaid();
    }
  }

  /**
   * A whole race, over as many calls as it takes and with answers that may grow in between: one winner at
   * most, which ends it, and each family's addresses started in order, none skipped and none twice. The decisions
   * carry the times at which they were taken, so the attempt delay is one of the clock. Every call ended as it says,
   * from the part of the trace it had come to, and a race that was given up had tried every address. If the answers
   * stay the same, the families are interlaced.
   */
  method Race(b: Ballers, answers: seq<Answers>, clock: Clock, deadline: int)
    returns (outcomes: seq<Outcome>, ghost marks: seq<nat>, ghost cuts: seq<nat>, ghost times: seq<int>)
    requires b.Valid() && b.trace == [] && b.winner == None && b.delay > 0
    modifies b, clock
    ensures b.Valid() && |outcomes| == |answers|
    ensures forall i, j :: 0 <= i < j < |outcomes| && outcomes[i] == Won ==> outcomes[j] == AlreadyWon
    ensures Won in outcomes <==> b.winner.Some?
    ensures b.winner.Some? <==> SaysThrough(b.trace)
    ensures b.winner.Some? ==> WonByAnswer(b.trace, b.winner.value)
    ensures TriedInOrder(b.log) && Paced(b.log, b.delay, b.maxConcurrent) && Capped(b.trace, b.maxConcurrent)
    ensures Timed(b.log, 0, old(clock.now), clock.now) && old(clock.now) <= clock.now
    ensures Calls(b.trace, cuts, times, outcomes, answers, b.RulesTo(deadline))
    ensures times[0] == old(clock.now) && times[|answers|] == clock.now
    ensures GivenUpLate(b.log, outcomes, answers, b.RulesTo(deadline))
    ensures Marked(b.log, marks, answers, b.addrFamily, b.hasV6)
    ensures forall a4, a6 ::
              && b.addrFamily == Inet && b.hasV6
              && (forall n :: 0 <= n < |answers| ==> answers[n].a4 == a4 && answers[n].a6 == a6)
              && AllSetUp(outcomes)
              ==> IsInterlaced(b.log, a4, a6)
  {
    hide Told, AllSetUp, LogOk, Tries, LastAt, LastFamily, Begun, Marked, Answered, SetUp, Paced, IsInterlaced, Timed,
      Calls, GivenUpLate, Ended, SaysThrough, WonByAnswer;
    ghost var start, rules := clock.now, b.RulesTo(deadline);
    outcomes, marks, cuts, times := [], [0], [0], [start];
    NothingMarked(b.addrFamily, b.hasV6, start);
    NoCalls(rules, start);
    EmptyTrace(b);
    for n := 0 to |answers|
      invariant b.Valid() && |outcomes| == n && |marks| == n + 1
      invariant forall i, j :: 0 <= i < j < n && outcomes[i] == Won ==> outcomes[j] == AlreadyWon
      invariant Won in outcomes <==> b.winner.Some?
      invariant Calls(b.trace, cuts, times, outcomes, answers[..n], rules)
      invariant |times| == n + 1 && times[0] == start && times[n] == clock.now
      invariant Marked(b.log, marks, answers[..n], b.addrFamily, b.hasV6)
      invariant Timed(b.log, 0, start, clock.now) && start <= clock.now
      invariant AllSetUp(outcomes) ==> SetUp(b.log, 0)
    {
      var a := answers[n];
      ghost var before, mid, told := b.log, clock.now, b.trace;
      b.LogAsTold();
      var outcome := b.Run(a.a4, a.a6, a.dnsResolved, clock, deadline);
      TimedOnward(before, b.log, 0, start, mid, clock.now);
      MarkedMore(before, marks, answers[..n], b.log, a, b.addrFamily, b.hasV6);
      assert answers[..n + 1] == answers[..n] + [a];
      b.CallIsOk(told, before, outcome, a, mid, clock.now, deadline);
      OneMoreCall(told, cuts, times, outcomes, answers[..n], rules, b.trace, clock.now, outcome, a);
      AllSetUpBefore(outcomes, outcome);
      if SetUp(before, 0) && !outcome.SetupFailed? {
        SetUpOnward(before, b.log);
      }
      outcomes, marks := outcomes + [outcome], marks + [|b.log|];
      cuts, times := cuts + [|b.trace|], times + [clock.now];
    }
    assert answers[..|answers|] == answers;
    LogInOrder(b.log, b.delay, b.maxConcurrent);
    LogPaced(b.log, b.delay, b.maxConcurrent);
    b.LogAsTold();
    b.WonIfSaid();
    CallsGivenUpLate(b.trace, cuts, times, outcomes, answers, rules);
    ToldCapped(b.trace, b.maxConcurrent, b.log, b.running, b.winner);
    forall a4, a6 |
      && b.addrFamily == Inet && b.hasV6
      && (forall n :: 0 <= n < |answers| ==> answers[n].a4 == a4 && answers[n].a6 == a6)
      && AllSetUp(outcomes)
      ensures IsInterlaced(b.log, a4, a6)
    {
      Interlacing(b.log, marks, answers, b.delay, b.maxConcurrent, a4, a6);
    }
  }

  ghost predicate AllSetUp(outcomes: seq<Outcome>) {
    forall n :: 0 <= n < |outcomes| ==> !outcomes[n].SetupFailed?
  }

  lemma AllSetUpBefore(outcomes: seq<Outcome>, outcome: Outcome)
    ensures AllSetUp(outcomes + [outcome]) ==> AllSetUp(outcomes) && !outcome.SetupFailed?
  {
    var all := outcomes + [outcome];
    assert all[|outcomes|] == outcome && forall n :: 0 <= n < |outcomes| ==> all[n] == outcomes[n];
  }

  lemma Interlacing(log: seq<Event>, marks: seq<nat>, answers: seq<Answers>, delay: nat, limit: nat, a4: nat, a6: nat)
    requires LogOk(log, delay, limit) && Marked(log, marks, answers, Inet, true) && SetUp(log, 0)
    requires forall n :: 0 <= n < |answers| ==> answers[n].a4 == a4 && answers[n].a6 == a6
    ensures IsInterlaced(log, a4, a6)
  {
    hide LogOk, Marked, SetUp, Answered, Interlaced;
    MarkedConstant(log, marks, answers, Inet, true, a4, a6);
    StartsInterlaced(log, delay, limit, a4, a6);
  }

  lemma NothingMarked(first: Family, hasV6: bool, now: int)
    ensures Marked([], [0], [], first, hasV6) && SetUp([], 0) && Timed([], 0, now, now)
  {
  }

  lemma EmptyTrace(b: Ballers)
    requires b.Traced() && b.trace == [] && b.winner == None
    ensures b.log == []
  {
  }
}
