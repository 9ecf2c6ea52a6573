/** What happens in a race of connection attempts, and the list of attempts that it makes (cf-ip-happy.c). */
module RaceTrace {
  import opened Common
  import opened AttemptLog

  datatype Code = Ok | CouldNotConnect | WeirdServerReply | TimedOut | Error(n: nat)

  /** One attempt: to the `index`-th address of a family. */
  datatype Attempt = Attempt(family: Family, index: nat, result: Code, connected: bool, inconclusive: bool)
  {
    predicate Ongoing() {
      result == Ok && !connected
    }

    /** Started over, with nothing known yet. */
    function Fresh(): Attempt {
      this.(result := Ok, connected := false, inconclusive := false)
    }

    /** What the network's answer makes of an ongoing attempt. */
    function Hearing(h: Heard): Attempt {
      if h.code == Ok then this.(connected := h.done)
      else this.(result := h.code, inconclusive := h.code == WeirdServerReply)
    }
  }

  /** The network's answer to one more step of an attempt: a code and whether the attempt is through. */
  datatype Heard = Heard(code: Code, done: bool)

  function Ongoing(running: seq<Attempt>): nat {
    if running == [] then 0 else (if running[0].Ongoing() then 1 else 0) + Ongoing(running[1..])
  }

  lemma {:induction false} OngoingAppend(xs: seq<Attempt>, ys: seq<Attempt>)
    ensures Ongoing(xs + ys) == Ongoing(xs) + Ongoing(ys)
  {
    if xs == [] {
      assert xs + ys == ys;
    } else {
      OngoingAppend(xs[1..], ys);
      assert (xs + ys)[1..] == xs[1..] + ys;
    }
  }

  lemma OngoingLast(xs: seq<Attempt>, a: Attempt)
    ensures Ongoing(xs + [a]) == Ongoing(xs) + if a.Ongoing() then 1 else 0
  {
    OngoingAppend(xs, [a]);
    assert Ongoing([a]) == (if a.Ongoing() then 1 else 0) + Ongoing([]);
  }

  /** Each ongoing attempt, in order, hears one of the answers. */
  ghost function Polled(running: seq<Attempt>, heard: seq<Heard>): (r: seq<Attempt>)
    ensures |r| == |running|
  {
    if running == [] then []
    else
      var n, k := |running| - 1, |heard| - 1;
      var a := running[n];
      if a.Ongoing() && heard != [] then Polled(running[..n], heard[..k]) + [a.Hearing(heard[k])]
      else Polled(running[..n], heard) + [a]
  }

  lemma PolledLast(running: seq<Attempt>, heard: seq<Heard>, a: Attempt, more: seq<Heard>)
    requires |more| == if a.Ongoing() then 1 else 0
    ensures Polled(running + [a], heard + more)
         == Polled(running, heard) + [if a.Ongoing() then a.Hearing(more[0]) else a]
  {
    var all, answers := running + [a], heard + more;
    assert all[..|all| - 1] == running;
    if a.Ongoing() {
      assert answers[..|answers| - 1] == heard;
    } else {
      assert answers == heard;
    }
  }

  /** The list without its `excess` oldest ongoing attempts. */
  ghost function WithoutOldest(running: seq<Attempt>, excess: nat): seq<Attempt> {
    if running == [] || excess == 0 then running
    else if running[0].Ongoing() then WithoutOldest(running[1..], excess - 1)
    else [running[0]] + WithoutOldest(running[1..], excess)
  }

  /** The result of the last failed attempt, if any has failed. */
  ghost function LastFailure(running: seq<Attempt>): Code {
    if running == [] then CouldNotConnect
    else
      var a := running[|running| - 1];
      if a.result != Ok then a.result else LastFailure(running[..|running| - 1])
  }

  // ---------- the list of attempts as a function of what has happened

  /**
   * All ongoing attempts were asked; an address was tried; the `i`-th attempt was started over. `code` is how
   * setting the attempt up went.
   */
  datatype Step =
    | Asked(answers: seq<Heard>)
    | Tried(event: Event, code: Code)
    | Retried(i: nat, event: Event, code: Code, answers: seq<Heard>)

  /** How many attempts have to make room for one more. */
  ghost function Excess(running: seq<Attempt>, limit: nat): nat {
    if limit > 0 && Ongoing(running) >= limit then Ongoing(running) - (limit - 1) else 0
  }

  ghost function Pruned(running: seq<Attempt>, limit: nat): seq<Attempt> {
    WithoutOldest(running, Excess(running, limit))
  }

  /** An attempt that was started over; without an answer if that could not be set up. */
  ghost function Taken(a: Attempt, answers: seq<Heard>): Attempt {
    if answers == [] then a.Fresh() else a.Fresh().Hearing(answers[0])
  }

  ghost function After(before: seq<Attempt>, step: Step, limit: nat): seq<Attempt> {
    match step
    case Asked(answers) => Polled(before, answers)
    case Tried(e, _) =>
      if e.Start? && e.ok then Pruned(before, limit) + [Attempt(e.family, e.index, Ok, false, false)]
      else Pruned(before, limit)
    case Retried(i, e, _, answers) => if i < |before| then before[i := Taken(before[i], answers)] else before
  }

  ghost predicate FirstInconclusive(running: seq<Attempt>, i: nat) {
    i < |running| && running[i].inconclusive && forall j :: 0 <= j < i ==> !running[j].inconclusive
  }

  const THROUGH := Heard(Ok, true)

  ghost predicate NoneConnected(running: seq<Attempt>) {
    forall a :: a in running ==> !a.connected
  }

  /**
   * A step after which the race is not won. Everyone ongoing was asked and no one said to be through; the decisions
   * record the numbers of ongoing attempts as they were.
   */
  ghost predicate StepOk(before: seq<Attempt>, step: Step, limit: nat) {
    NoneConnected(before) &&
    match step
    case Asked(answers) => |answers| == Ongoing(before) && THROUGH !in answers
    case Tried(e, code) =>
      && e.Start? && (e.ok <==> code == Ok)
      && e.others == Ongoing(before) && e.cap == Ongoing(Pruned(before, limit)) + 1
    case Retried(i, e, code, answers) =>
      && FirstInconclusive(before, i) && Ongoing(before) == 0 && |answers| == (if code == Ok then 1 else 0)
      && e == Restart(before[i].family, before[i].index, if e.Restart? then e.at else 0, 0)
  }

  ghost function Replay(trace: seq<Step>, limit: nat): seq<Attempt> {
    if trace == [] then [] else After(Replay(trace[..|trace| - 1], limit), trace[|trace| - 1], limit)
  }

  ghost predicate TraceOk(trace: seq<Step>, limit: nat) {
    trace != [] ==>
      && TraceOk(trace[..|trace| - 1], limit)
      && StepOk(Replay(trace[..|trace| - 1], limit), trace[|trace| - 1], limit)
  }

  /** The decisions in a trace: addresses tried, and attempts that could be started over. */
  ghost function Decisions(trace: seq<Step>): seq<Event> {
    if trace == [] then []
    else
      var step := trace[|trace| - 1];
      Decisions(trace[..|trace| - 1])
      + match step
        case Asked(_) => []
        case Tried(e, _) => [e]
        case Retried(_, e, _, answers) => if answers == [] then [] else [e]
  }

  /** The winner is the `i`-th attempt, the first that is through; only it and those before it were asked. */
  ghost predicate FirstThrough(running: seq<Attempt>, heard: seq<Heard>, i: nat, winner: Option<Attempt>) {
    && i < |running| && |heard| == Ongoing(running[..i + 1])
    && var polled := Polled(running[..i + 1], heard);
       winner == Some(polled[i]) && polled[i].connected && forall j :: 0 <= j < i ==> !polled[j].connected
  }

  ghost predicate SomeoneThrough(running: seq<Attempt>, heard: seq<Heard>, winner: Option<Attempt>) {
    exists i: nat :: FirstThrough(running, heard, i, winner)
  }

  /** A race has been won with the last round of answers. */
  ghost predicate WonLast(trace: seq<Step>, limit: nat, winner: Option<Attempt>) {
    && trace != [] && trace[|trace| - 1].Asked? && TraceOk(trace[..|trace| - 1], limit)
    && SomeoneThrough(Replay(trace[..|trace| - 1], limit), trace[|trace| - 1].answers, winner)
  }

  /** The log is that of the trace, and the list of attempts, or the winner, is what the trace makes it. */
  ghost predicate Told(trace: seq<Step>, limit: nat, log: seq<Event>, running: seq<Attempt>, winner: Option<Attempt>) {
    && log == Decisions(trace)
    && (winner == None ==> TraceOk(trace, limit) && running == Replay(trace, limit))
    && (winner.Some? ==> WonLast(trace, limit, winner))
  }

  lemma TellStep(trace: seq<Step>, limit: nat, log: seq<Event>, running: seq<Attempt>, step: Step, log2: seq<Event>)
    requires Told(trace, limit, log, running, None) && StepOk(running, step, limit)
    requires log2 == log + match step
                           case Asked(_) => []
                           case Tried(e, _) => [e]
                           case Retried(_, e, _, answers) => if answers == [] then [] else [e]
    ensures Told(trace + [step], limit, log2, After(running, step, limit), None)
  {
    hide StepOk, After;
    var t := trace + [step];
    assert t[..|t| - 1] == trace;
  }

  lemma TellWon(trace: seq<Step>, limit: nat, log: seq<Event>, running: seq<Attempt>, news: seq<Heard>, i: nat,
                winner: Option<Attempt>)
    requires Told(trace, limit, log, running, None) && FirstThrough(running, news, i, winner) && winner.Some?
    ensures Told(trace + [Asked(news)], limit, log, [], winner)
  {
    hide FirstThrough;
    var t := trace + [Asked(news)];
    assert t[..|t| - 1] == trace;
    assert log + [] == log;
  }

  // ---------- what the network said

  function AnswersOf(step: Step): seq<Heard> {
    if step.Tried? then [] else step.answers
  }

  /** The network said at some point that an attempt is through. */
  ghost predicate SaysThrough(trace: seq<Step>) {
    exists k :: 0 <= k < |trace| && THROUGH in AnswersOf(trace[k])
  }

  /** The network gave this code at some point. */
  ghost predicate SaysCode(trace: seq<Step>, code: Code) {
    exists k, done :: 0 <= k < |trace| && Heard(code, done) in AnswersOf(trace[k])
  }

  /**
   * The last answer of the last round, and no other one of it, said to be through; or the winner had just been
   * started over, and the answer to that did.
   */
  ghost predicate WonByAnswer(trace: seq<Step>, winner: Attempt) {
    && trace != [] && trace[|trace| - 1].Asked?
    && var answers := trace[|trace| - 1].answers;
       || (answers != [] && answers[|answers| - 1] == THROUGH && THROUGH !in answers[..|answers| - 1])
       || (|trace| > 1 && JustRestarted(trace[..|trace| - 1], winner))
  }

  /** The last step started this attempt over, and it was through at once. */
  ghost predicate JustRestarted(trace: seq<Step>, a: Attempt) {
    && trace != []
    && var step := trace[|trace| - 1];
       && step.Retried? && step.answers == [THROUGH]
       && step.event.family == a.family && step.event.index == a.index
  }

  lemma Hears(a: Attempt, h: Heard)
    requires a.Ongoing()
    ensures a.Hearing(h).connected <==> h == THROUGH
    ensures a.Hearing(h).result == h.code
    ensures a.Hearing(h).family == a.family && a.Hearing(h).index == a.index
  {
  }

  /** None is through after asking exactly if none was before, and none of the answers says so. */
  lemma {:induction false} PolledThrough(running: seq<Attempt>, heard: seq<Heard>)
    requires |heard| == Ongoing(running)
    ensures NoneConnected(Polled(running, heard)) <==> NoneConnected(running) && THROUGH !in heard
    decreases |running|
  {
    if running != [] {
      hide Polled, Ongoing, Attempt.Hearing;
      var n := |running| - 1;
      var front, a := running[..n], running[n];
      assert running == front + [a];
      OngoingLast(front, a);
      var before, more := heard, [];
      if a.Ongoing() {
        var k := |heard| - 1;
        before, more := heard[..k], [heard[k]];
        Hears(a, heard[k]);
      }
      assert heard == before + more;
      PolledThrough(front, before);
      PolledLast(front, before, a, more);
      var polled, b := Polled(front, before), if a.Ongoing() then a.Hearing(more[0]) else a;
      ConnectedLast(polled, b);
      ConnectedLast(front, a);
    } else {
      assert Ongoing(running) == 0 && Polled(running, heard) == [];
    }
  }

  lemma ConnectedLast(running: seq<Attempt>, b: Attempt)
    ensures NoneConnected(running + [b]) <==> NoneConnected(running) && !b.connected
  {
    assert b in running + [b] && forall a :: a in running ==> a in running + [b];
  }

  lemma {:induction false} WithoutOldestSome(running: seq<Attempt>, excess: nat)
    ensures forall a :: a in WithoutOldest(running, excess) ==> a in running
  {
    if running != [] && excess > 0 {
      WithoutOldestSome(running[1..], if running[0].Ongoing() then excess - 1 else excess);
    }
  }

  /** An attempt of a race that has not been won is connected only if it was just started over. */
  lemma ConnectedRestart(trace: seq<Step>, limit: nat, a: Attempt)
    requires TraceOk(trace, limit) && a in Replay(trace, limit) && a.connected
    ensures JustRestarted(trace, a)
  {
    var front, step := trace[..|trace| - 1], trace[|trace| - 1];
    var before := Replay(front, limit);
    assert StepOk(before, step, limit) && a in After(before, step, limit);
    hide Replay, TraceOk, Polled, WithoutOldest, Ongoing;
    match step
    case Asked(answers) => PolledThrough(before, answers);
    case Tried(e, _) => WithoutOldestSome(before, Excess(before, limit));
    case Retried(i, e, _, answers) =>
      assert a == Taken(before[i], answers);
      if answers != [] {
        Hears(before[i].Fresh(), answers[0]);
        assert answers == [answers[0]];
      }
  }

  /** As long as a race is not won, no one says to be through, except one that was just started over. */
  lemma {:induction false} NobodyMissed(trace: seq<Step>, limit: nat)
    requires TraceOk(trace, limit)
    ensures SaysThrough(trace) <==> !NoneConnected(Replay(trace, limit))
  {
    if trace != [] {
      hide Polled, WithoutOldest, Ongoing;
      var front, step := trace[..|trace| - 1], trace[|trace| - 1];
      var before := Replay(front, limit);
      NobodyMissed(front, limit);
      SaysMore(front, step);
      assert trace == front + [step];
      match step
      case Asked(answers) => PolledThrough(before, answers);
      case Tried(e, _) => WithoutOldestSome(before, Excess(before, limit));
      case Retried(i, e, _, answers) =>
        var b := Taken(before[i], answers);
        if answers != [] {
          Hears(before[i].Fresh(), answers[0]);
          assert answers == [answers[0]];
        }
        assert Replay(trace, limit)[i] == b;
    }
  }

  lemma SaysMore(trace: seq<Step>, step: Step)
    ensures SaysThrough(trace + [step]) <==> SaysThrough(trace) || THROUGH in AnswersOf(step)
    ensures forall code :: SaysCode(trace, code) ==> SaysCode(trace + [step], code)
    ensures forall h :: h in AnswersOf(step) ==> SaysCode(trace + [step], h.code)
  {
    var t := trace + [step];
    assert t[|trace|] == step && forall k :: 0 <= k < |trace| ==> t[k] == trace[k];
    forall h | h in AnswersOf(step)
      ensures SaysCode(t, h.code)
    {
      assert Heard(h.code, h.done) in AnswersOf(t[|trace|]);
    }
    forall code | SaysCode(trace, code)
      ensures SaysCode(t, code)
    {
      var k, done :| 0 <= k < |trace| && Heard(code, done) in AnswersOf(trace[k]);
      assert Heard(code, done) in AnswersOf(t[k]);
    }
    if SaysThrough(trace) {
      var k :| 0 <= k < |trace| && THROUGH in AnswersOf(trace[k]);
      assert THROUGH in AnswersOf(t[k]);
    }
  }

  /** The first attempt that is through after asking gave the last answer, or was through before. */
  lemma FirstAnswer(running: seq<Attempt>, answers: seq<Heard>, i: nat, winner: Option<Attempt>)
    requires FirstThrough(running, answers, i, winner)
    ensures winner.Some? && winner.value.connected
    ensures || (answers != [] && answers[|answers| - 1] == THROUGH && THROUGH !in answers[..|answers| - 1])
            || winner == Some(running[i])
  {
    hide Polled, Ongoing, Attempt.Hearing;
    var a, before, polled := running[i], running[..i], Polled(running[..i + 1], answers);
    assert running[..i + 1] == before + [a];
    OngoingLast(before, a);
    if a.Ongoing() {
      var k := |answers| - 1;
      Hears(a, answers[k]);
      assert answers == answers[..k] + [answers[k]];
      PolledLast(before, answers[..k], a, [answers[k]]);
      PolledThrough(before, answers[..k]);
      assert forall j :: 0 <= j < i ==> polled[j] == Polled(before, answers[..k])[j];
    } else {
      PolledLast(before, answers, a, []);
      assert answers + [] == answers;
    }
  }

  /** A race is won by an answer of the network. */
  lemma WonIsByAnswer(trace: seq<Step>, limit: nat, winner: Option<Attempt>)
    requires WonLast(trace, limit, winner)
    ensures winner.Some? && winner.value.connected && WonByAnswer(trace, winner.value) && SaysThrough(trace)
  {
    hide Replay, TraceOk, FirstThrough, NoneConnected, JustRestarted;
    var front, answers := trace[..|trace| - 1], trace[|trace| - 1].answers;
    var running := Replay(front, limit);
    var i: nat :| FirstThrough(running, answers, i, winner);
    assert trace == front + [Asked(answers)];
    SaysMore(front, Asked(answers));
    FirstAnswer(running, answers, i, winner);
    WinnerIsOne(running, answers, i, winner);
    if winner == Some(running[i]) {
      ConnectedRestart(front, limit, running[i]);
      NobodyMissed(front, limit);
      SomeConnected(running, running[i]);
      NonEmpty(front, running[i]);
    }
  }

  lemma WinnerIsOne(running: seq<Attempt>, answers: seq<Heard>, i: nat, winner: Option<Attempt>)
    requires FirstThrough(running, answers, i, winner)
    ensures i < |running|
  {
  }

  lemma SomeConnected(running: seq<Attempt>, a: Attempt)
    requires a in running && a.connected
    ensures !NoneConnected(running)
  {
  }

  lemma NonEmpty(trace: seq<Step>, a: Attempt)
    requires JustRestarted(trace, a)
    ensures trace != []
  {
  }

  /** Asking leaves an attempt as it is or with the code that it was answered. */
  lemma {:induction false} PolledCodes(running: seq<Attempt>, heard: seq<Heard>, b: Attempt)
    requires |heard| == Ongoing(running) && b in Polled(running, heard)
    ensures b in running || exists h :: h in heard && h.code == b.result
    decreases |running|
  {
    hide Polled, Ongoing, Attempt.Hearing;
    if running != [] {
      var n := |running| - 1;
      var front, a := running[..n], running[n];
      assert running == front + [a];
      OngoingLast(front, a);
      var before, more := heard, [];
      if a.Ongoing() {
        var k := |heard| - 1;
        before, more := heard[..k], [heard[k]];
        Hears(a, heard[k]);
        assert heard[k] in heard;
      }
      assert heard == before + more;
      PolledLast(front, before, a, more);
      var polled := Polled(front, before);
      if b in polled {
        PolledCodes(front, before, b);
      }
    } else {
      NonePolled(heard);
    }
  }

  lemma NonePolled(heard: seq<Heard>)
    ensures Polled([], heard) == []
  {
  }

  /** Every failure of an attempt is a code that the network gave. */
  lemma {:induction false} ResultsSaid(trace: seq<Step>, limit: nat, a: Attempt)
    requires TraceOk(trace, limit) && a in Replay(trace, limit) && a.result != Ok
    ensures SaysCode(trace, a.result)
  {
    var front, step := trace[..|trace| - 1], trace[|trace| - 1];
    var before := Replay(front, limit);
    assert StepOk(before, step, limit) && a in After(before, step, limit);
    assert trace == front + [step];
    SaysMore(front, step);
    if a in before {
      ResultsSaid(front, limit, a);
    } else {
      hide Replay, TraceOk, Polled, WithoutOldest, Ongoing, SaysCode;
      match step
      case Asked(answers) =>
        PolledCodes(before, answers, a);
        var h :| h in answers && h.code == a.result;
        assert h in AnswersOf(step);
      case Tried(e, _) => WithoutOldestSome(before, Excess(before, limit));
      case Retried(i, e, _, answers) =>
        assert a == Taken(before[i], answers);
        if answers != [] {
          Hears(before[i].Fresh(), answers[0]);
          assert answers[0] in AnswersOf(step);
        }
    }
  }

  /** The code of a failed race: of the last attempt that failed; a fixed one if none did. */
  lemma {:induction false} LastFailureIs(running: seq<Attempt>)
    ensures var code := LastFailure(running);
            || (code == CouldNotConnect && forall a :: a in running ==> a.result == Ok)
            || (exists i :: 0 <= i < |running| && running[i].result == code != Ok
                            && forall j :: i < j < |running| ==> running[j].result == Ok)
  {
    if running != [] {
      var front := running[..|running| - 1];
      LastFailureIs(front);
      assert running == front + [running[|running| - 1]];
    }
  }

  /** A failed race reports a code that the network gave, unless it has no attempt left. */
  ghost predicate FailureSaid(trace: seq<Step>, running: seq<Attempt>, code: Code) {
    if running == [] then code == CouldNotConnect else code != Ok && SaysCode(trace, code)
  }

  lemma LastFailureSaid(trace: seq<Step>, limit: nat)
    requires TraceOk(trace, limit) && NoneConnected(Replay(trace, limit)) && Ongoing(Replay(trace, limit)) == 0
    ensures FailureSaid(trace, Replay(trace, limit), LastFailure(Replay(trace, limit)))
  {
    hide Replay, TraceOk, SaysCode, LastFailure;
    var running := Replay(trace, limit);
    LastFailureIs(running);
    if running == [] {
      NoFailure();
    } else {
      var a := running[|running| - 1];
      assert a in running;
      NotOngoing(running, a);
      var i :| 0 <= i < |running| && running[i].result == LastFailure(running) != Ok;
      ResultsSaid(trace, limit, running[i]);
    }
  }

  lemma NoFailure()
    ensures LastFailure([]) == CouldNotConnect
  {
  }

  lemma {:induction false} NotOngoing(running: seq<Attempt>, a: Attempt)
    requires Ongoing(running) == 0 && a in running
    ensures !a.Ongoing()
  {
    assert running == [running[0]] + running[1..];
    if a != running[0] {
      NotOngoing(running[1..], a);
    }
  }

  /** What is dropped are the first `excess` ongoing attempts: all before some point, and nothing from there on. */
  lemma {:induction false} OldestAreDropped(running: seq<Attempt>, excess: nat) returns (k: nat)
    requires excess <= Ongoing(running)
    ensures k <= |running| && Ongoing(running[..k]) == excess
    ensures WithoutOldest(running, excess) == Decided(running[..k]) + running[k..]
  {
    if excess == 0 {
      k := 0;
      assert running[..0] == [] && running[0..] == running;
    } else {
      var a := running[0];
      k := OldestAreDropped(running[1..], if a.Ongoing() then excess - 1 else excess);
      assert running[..k + 1][1..] == running[1..][..k] && running[1..][k..] == running[k + 1..];
      k := k + 1;
    }
  }

  /** The attempts that are not ongoing. */
  ghost function Decided(running: seq<Attempt>): seq<Attempt> {
    if running == [] then [] else (if running[0].Ongoing() then [] else [running[0]]) + Decided(running[1..])
  }

  // ---------- the cap

  lemma {:induction false} PolledOngoing(running: seq<Attempt>, heard: seq<Heard>)
    ensures Ongoing(Polled(running, heard)) <= Ongoing(running)
  {
    if running != [] {
      var n, k := |running| - 1, |heard| - 1;
      var a := running[n];
      assert running == running[..n] + [a];
      OngoingLast(running[..n], a);
      if a.Ongoing() && heard != [] {
        PolledOngoing(running[..n], heard[..k]);
        OngoingLast(Polled(running[..n], heard[..k]), a.Hearing(heard[k]));
      } else {
        PolledOngoing(running[..n], heard);
        OngoingLast(Polled(running[..n], heard), a);
      }
    }
  }

  lemma {:induction false} WithoutOldestOngoing(running: seq<Attempt>, excess: nat)
    requires excess <= Ongoing(running)
    ensures Ongoing(WithoutOldest(running, excess)) == Ongoing(running) - excess
  {
    if running != [] && excess > 0 {
      if running[0].Ongoing() {
        WithoutOldestOngoing(running[1..], excess - 1);
      } else {
        WithoutOldestOngoing(running[1..], excess);
        OngoingAppend([running[0]], WithoutOldest(running[1..], excess));
        assert Ongoing([running[0]]) == 0 + Ongoing([]);
      }
    }
  }

  lemma OneMoreOngoing(running: seq<Attempt>, i: nat, a: Attempt)
    requires i < |running|
    ensures Ongoing(running[i := a]) <= Ongoing(running) + 1
  {
    var front, back := running[..i], running[i + 1..];
    assert running == front + [running[i]] + back && running[i := a] == front + [a] + back;
    OngoingAppend(front + [running[i]], back);
    OngoingAppend(front + [a], back);
    OngoingLast(front, running[i]);
    OngoingLast(front, a);
  }

  /** Whatever happens in a race, no more attempts than the limit are ongoing. */
  lemma {:induction false} CapKept(trace: seq<Step>, limit: nat)
    requires TraceOk(trace, limit) && limit > 0
    ensures Ongoing(Replay(trace, limit)) <= limit
  {
    hide Polled, WithoutOldest;
    if trace != [] {
      var front, step := trace[..|trace| - 1], trace[|trace| - 1];
      CapKept(front, limit);
      var before := Replay(front, limit);
      match step
      case Asked(answers) => PolledOngoing(before, answers);
      case Tried(e, _) =>
        WithoutOldestOngoing(before, Excess(before, limit));
        OngoingLast(Pruned(before, limit), Attempt(e.family, e.index, Ok, false, false));
      case Retried(i, e, _, answers) => OneMoreOngoing(before, i, Taken(before[i], answers));
    }
  }

  lemma {:induction false} TraceOkPrefix(trace: seq<Step>, limit: nat, i: nat)
    requires TraceOk(trace, limit) && i <= |trace|
    ensures TraceOk(trace[..i], limit)
  {
    if i == |trace| {
      assert trace[..i] == trace;
    } else {
      TraceOkPrefix(trace[..|trace| - 1], limit, i);
      assert trace[..|trace| - 1][..i] == trace[..i];
    }
  }

  /** At every point of a race. */
  lemma CapAlways(trace: seq<Step>, limit: nat, i: nat)
    requires TraceOk(trace, limit) && limit > 0 && i <= |trace|
    ensures Ongoing(Replay(trace[..i], limit)) <= limit
  {
    TraceOkPrefix(trace, limit, i);
    CapKept(trace[..i], limit);
  }

  /** At no point before the last step of a race are more attempts ongoing than the limit allows. */
  ghost predicate Capped(trace: seq<Step>, limit: nat) {
    forall i :: 0 <= i < |trace| && limit > 0 ==> Ongoing(Replay(trace[..i], limit)) <= limit
  }

  lemma ToldCapped(trace: seq<Step>, limit: nat, log: seq<Event>, running: seq<Attempt>, winner: Option<Attempt>)
    requires Told(trace, limit, log, running, winner)
    ensures Capped(trace, limit)
  {
    forall i | 0 <= i < |trace| && limit > 0
      ensures Ongoing(Replay(trace[..i], limit)) <= limit
    {
      var front := trace[..|trace| - 1];
      assert trace[..i] == front[..i];
      CapAlways(front, limit, i);
    }
  }

  // ---------- how the calls of a race end

  /** What one run of the race comes to. */
  datatype Outcome =
    | AlreadyWon
    | Won
    | Waiting(wake: Option<int>)
    | SetupFailed(code: Code)
    | OutOfTime
    | Exhausted(code: Code)

  /** What is fixed for a race. */
  datatype Rules = Rules(first: Family, hasV6: bool, delay: nat, limit: nat, deadline: int)

  ghost predicate AnyInconclusive(running: seq<Attempt>) {
    exists a :: a in running && a.inconclusive
  }

  /** Where a race stands: its attempts, how many addresses of either kind it has taken, and its last start. */
  datatype Standing = Standing(running: seq<Attempt>, n4: nat, n6: nat, lastStarted: int)
  {
    ghost predicate More(a: Answers, hasV6: bool) {
      n4 < a.a4 || (hasV6 && n6 < a.a6)
    }

    /** Every attempt has failed for good, and no address is left or can still come. */
    ghost predicate Spent(a: Answers, hasV6: bool) {
      Ongoing(running) == 0 && !AnyInconclusive(running) && !More(a, hasV6) && a.dnsResolved
    }

    /** At time `t` there is nothing to start, to start over or to give up. */
    ghost predicate Idle(a: Answers, rules: Rules, t: int) {
      && !Spent(a, rules.hasV6)
      && (More(a, rules.hasV6) ==> Ongoing(running) > 0)
      && (More(a, rules.hasV6) || (Ongoing(running) == 0 && AnyInconclusive(running)) ==> t - lastStarted < rules.delay)
    }

    /** When there will be something to start, or to start over. */
    ghost function Wake(a: Answers, rules: Rules): Option<int> {
      var due := lastStarted + rules.delay;
      if More(a, rules.hasV6) then Some(if due < rules.deadline then due else rules.deadline)
      else if Ongoing(running) == 0 && AnyInconclusive(running) then Some(due)
      else None
    }
  }

  ghost predicate LastAsked(trace: seq<Step>) {
    trace != [] && trace[|trace| - 1].Asked?
  }

  ghost predicate LastFailedToSetUp(trace: seq<Step>, code: Code) {
    && code != Ok && trace != []
    && var step := trace[|trace| - 1];
       !step.Asked? && step.code == code
  }

  ghost predicate IdleSince(s: Standing, a: Answers, rules: Rules, lo: int, now: int) {
    exists t :: lo <= t <= now && s.Idle(a, rules, t)
  }

  /** Why a call of the race that began at `lo` ended at `now`, and when the next one is due. */
  ghost predicate Ended(outcome: Outcome, trace: seq<Step>, s: Standing, rules: Rules, a: Answers, lo: int, now: int) {
    match outcome
    case AlreadyWon => true
    case Won => exists winner :: WonLast(trace, rules.limit, Some(winner)) && WonByAnswer(trace, winner)
    case SetupFailed(code) => LastFailedToSetUp(trace, code)
    case Exhausted(code) =>
      && LastAsked(trace) && s.Spent(a, rules.hasV6)
      && code == LastFailure(s.running) && FailureSaid(trace, s.running, code)
    case OutOfTime => LastAsked(trace) && now >= rules.deadline && IdleSince(s, a, rules, lo, now)
    case Waiting(wake) =>
      && LastAsked(trace) && now < rules.deadline && IdleSince(s, a, rules, lo, now)
      && wake == s.Wake(a, rules) && (s.More(a, rules.hasV6) ==> wake.Some? && now < wake.value)
  }

  lemma EndedSince(outcome: Outcome, trace: seq<Step>, s: Standing, rules: Rules, a: Answers, lo: int, lo2: int,
                   now: int)
    requires Ended(outcome, trace, s, rules, a, lo2, now) && lo <= lo2
    ensures Ended(outcome, trace, s, rules, a, lo, now)
  {
  }

  lemma EndedIdle(trace: seq<Step>, s: Standing, rules: Rules, a: Answers, lo: int, t: int, now: int)
    requires LastAsked(trace) && s.Idle(a, rules, t) && lo <= t <= now
    requires s.More(a, rules.hasV6) && now < rules.deadline ==> now - s.lastStarted < rules.delay
    ensures Ended(if now >= rules.deadline then OutOfTime else Waiting(s.Wake(a, rules)), trace, s, rules, a, lo, now)
  {
  }

  lemma EndedOtherwise(trace: seq<Step>, s: Standing, rules: Rules, a: Answers, lo: int, now: int, code: Code,
                       winner: Option<Attempt>)
    ensures WonLast(trace, rules.limit, winner) ==> Ended(Won, trace, s, rules, a, lo, now)
    ensures LastFailedToSetUp(trace, code) ==> Ended(SetupFailed(code), trace, s, rules, a, lo, now)
    ensures LastAsked(trace) && s.Spent(a, rules.hasV6) && code == LastFailure(s.running)
            && TraceOk(trace, rules.limit) && s.running == Replay(trace, rules.limit) && NoneConnected(s.running) ==>
              Ended(Exhausted(code), trace, s, rules, a, lo, now)
  {
    hide WonLast, WonByAnswer, TraceOk, Replay, NoneConnected, FailureSaid;
    if WonLast(trace, rules.limit, winner) {
      WonIsByAnswer(trace, rules.limit, winner);
    }
    if TraceOk(trace, rules.limit) && s.running == Replay(trace, rules.limit) && NoneConnected(s.running)
       && s.Spent(a, rules.hasV6) {
      LastFailureSaid(trace, rules.limit);
    }
  }

  lemma {:induction false} SomeOngoing(running: seq<Attempt>)
    ensures Ongoing(running) > 0 <==> exists r :: r in running && r.result == Ok && !r.connected
  {
    if running != [] {
      SomeOngoing(running[1..]);
      assert running == [running[0]] + running[1..];
    }
  }

  /**
   * With an address left, a race waits beside a pending attempt for the delay after the last start, or for the
   * deadline if that is earlier; without one, for a pending attempt, for the delay before an inconclusive attempt is
   * started over, or for more addresses.
   */
  lemma WaitsFor(wake: Option<int>, trace: seq<Step>, s: Standing, rules: Rules, a: Answers, lo: int, now: int)
    requires Ended(Waiting(wake), trace, s, rules, a, lo, now)
    ensures var left := s.n4 < a.a4 || (rules.hasV6 && s.n6 < a.a6);
            var pending := exists r :: r in s.running && r.result == Ok && !r.connected;
            var due := s.lastStarted + rules.delay;
            && now < rules.deadline
            && (left ==> pending && lo < due && now < due && wake == Some(if due < rules.deadline then due
                                                                           else rules.deadline))
            && (!left && !pending ==>
                  if exists r :: r in s.running && r.inconclusive then lo < due && wake == Some(due)
                  else !a.dnsResolved && wake == None)
            && (!left && pending ==> wake == None)
  {
    hide Ongoing, WonLast;
    SomeOngoing(s.running);
  }

  /** A race is given up when every attempt has failed for good and no address is left or can still come. */
  lemma GivenUpWhen(code: Code, trace: seq<Step>, s: Standing, rules: Rules, a: Answers, lo: int, now: int)
    requires Ended(Exhausted(code), trace, s, rules, a, lo, now)
    ensures forall r :: r in s.running ==> (r.result != Ok || r.connected) && !r.inconclusive
    ensures a.a4 <= s.n4 && (rules.hasV6 ==> a.a6 <= s.n6) && a.dnsResolved
  {
    hide Ongoing, LastFailure, FailureSaid;
    SomeOngoing(s.running);
  }

  /** Nothing becomes due before the time to wake, and then something does; without one, nothing ever does. */
  lemma WokenInTime(s: Standing, a: Answers, rules: Rules, now: int, t: int)
    requires s.Idle(a, rules, now) && now <= t
    ensures s.Wake(a, rules) == None ==> s.Idle(a, rules, t)
    ensures s.Wake(a, rules).Some? && t < rules.deadline ==> (s.Idle(a, rules, t) <==> t < s.Wake(a, rules).value)
  {
  }

  /** Where a race without a winner stands, from its trace alone. */
  ghost function StandingOf(trace: seq<Step>, rules: Rules): Standing {
    var log := Decisions(trace);
    Standing(Replay(trace, rules.limit), Tries(log, rules.first), Tries(log, Inet6), LastAt(log))
  }

  /**
   * A call took the trace from `c` to `d` between the times `t` and `u`, in which its decisions were taken, and ended
   * as it says; only after a win nothing happens.
   */
  ghost predicate CallOk(trace: seq<Step>, c: nat, d: nat, t: int, u: int, outcome: Outcome, a: Answers, rules: Rules) {
    && c <= d <= |trace| && t <= u && (outcome == AlreadyWon <==> c == d)
    && Ended(outcome, trace[..d], StandingOf(trace[..d], rules), rules, a, t, u)
    && Timed(Decisions(trace[..d]), |Decisions(trace[..c])|, t, u)
  }

  /** All calls of a race, one after the other. */
  ghost predicate Calls(trace: seq<Step>, cuts: seq<nat>, times: seq<int>, outcomes: seq<Outcome>,
                        answers: seq<Answers>, rules: Rules) {
    && |outcomes| == |answers| && |cuts| == |times| == |answers| + 1 && cuts[0] == 0 && cuts[|answers|] == |trace|
    && forall n :: 0 <= n < |answers| ==>
         CallOk(trace, cuts[n], cuts[n + 1], times[n], times[n + 1], outcomes[n], answers[n], rules)
  }

  lemma NoCalls(rules: Rules, now: int)
    ensures Calls([], [0], [now], [], [], rules)
  {
  }

  lemma OneMoreCall(trace: seq<Step>, cuts: seq<nat>, times: seq<int>, outcomes: seq<Outcome>, answers: seq<Answers>,
                    rules: Rules, trace2: seq<Step>, u: int, outcome: Outcome, a: Answers)
    requires Calls(trace, cuts, times, outcomes, answers, rules) && trace <= trace2
    requires CallOk(trace2, |trace|, |trace2|, times[|answers|], u, outcome, a, rules)
    ensures Calls(trace2, cuts + [|trace2|], times + [u], outcomes + [outcome], answers + [a], rules)
  {
    hide Ended, StandingOf, Decisions, Timed;
    forall n | 0 <= n < |answers|
      ensures CallOk(trace2, cuts[n], cuts[n + 1], times[n], times[n + 1], outcomes[n], answers[n], rules)
    {
      assert trace2[..cuts[n]] == trace[..cuts[n]] && trace2[..cuts[n + 1]] == trace[..cuts[n + 1]];
    }
  }

  lemma {:induction false} DecisionsPrefix(trace: seq<Step>, i: nat)
    requires i <= |trace|
    ensures Decisions(trace[..i]) <= Decisions(trace)
  {
    if i == |trace| {
      assert trace[..i] == trace;
    } else {
      DecisionsPrefix(trace[..|trace| - 1], i);
      assert trace[..|trace| - 1][..i] == trace[..i];
    }
  }

  /** A race is given up only after every address at hand was tried. */
  ghost predicate GivenUpLate(log: seq<Event>, outcomes: seq<Outcome>, answers: seq<Answers>, rules: Rules) {
    forall n :: 0 <= n < |outcomes| && n < |answers| && outcomes[n].Exhausted? ==>
      && TriedUpTo(log, rules.first, answers[n].a4) && (rules.hasV6 ==> TriedUpTo(log, Inet6, answers[n].a6))
  }

  lemma CallsGivenUpLate(trace: seq<Step>, cuts: seq<nat>, times: seq<int>, outcomes: seq<Outcome>,
                         answers: seq<Answers>, rules: Rules)
    requires Calls(trace, cuts, times, outcomes, answers, rules) && TriedInOrder(Decisions(trace))
    ensures GivenUpLate(Decisions(trace), outcomes, answers, rules)
  {
    hide Tries, AttemptLog.Tried, Timed, LastFailure;
    var log := Decisions(trace);
    forall n | 0 <= n < |outcomes| && outcomes[n].Exhausted?
      ensures TriedUpTo(log, rules.first, answers[n].a4) && (rules.hasV6 ==> TriedUpTo(log, Inet6, answers[n].a6))
    {
      assert CallOk(trace, cuts[n], cuts[n + 1], times[n], times[n + 1], outcomes[n], answers[n], rules);
      var front := Decisions(trace[..cuts[n + 1]]);
      DecisionsPrefix(trace, cuts[n + 1]);
      assert log[..|front|] == front;
      TriesMonotone(log, |front|, rules.first);
      TriesMonotone(log, |front|, Inet6);
    }
  }
}
