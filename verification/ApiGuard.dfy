/** The guards around libcurl's API calls and callbacks (api.c, api.h). */
module ApiGuard {
  // ---------- the property tables

  datatype EasyFn = EasyFn(killed: bool, recurse: bool, noEventCb: bool, noCacheLock: bool)

  datatype MultiFn = MultiFn(killed: bool, recurse: bool, allowNotify: bool, noCacheLock: bool)

  const EASY_CLEANUP := 0
  const EASY_PAUSE := 5
  const EASY_PERFORM := 7
  const EASY_SETOPT := 11
  const MULTI_CLEANUP := 2

  const EASY_FNS: seq<EasyFn> := [
    EasyFn(true,  false, false, false), // easy_cleanup
    EasyFn(false, true,  false, false), // easy_duphandle
    EasyFn(false, true,  false, false), // easy_getinfo
    EasyFn(false, true,  false, false), // easy_header
    EasyFn(false, true,  false, false), // easy_nextheader
    EasyFn(false, true,  true,  false), // easy_pause
    EasyFn(false, false, false, true),  // easy_perform_ev
    EasyFn(false, false, false, true),  // easy_perform
    EasyFn(false, false, false, true),  // easy_recv
    EasyFn(false, false, false, false), // easy_reset
    EasyFn(false, false, false, true),  // easy_send
    EasyFn(false, true,  false, false), // easy_setopt
    EasyFn(false, false, false, true),  // easy_ssls_export
    EasyFn(false, false, false, true),  // easy_ssls_import
    EasyFn(false, false, false, true),  // easy_upkeep
    EasyFn(false, true,  false, true),  // ws_recv
    EasyFn(false, true,  false, true),  // ws_send
    EasyFn(false, true,  false, false)  // ws_start_frame
  ]

  const MULTI_FNS: seq<MultiFn> := [
    MultiFn(false, false, true,  false), // multi_add_handle
    MultiFn(false, true,  true,  false), // multi_assign
    MultiFn(true,  false, false, true),  // multi_cleanup
    MultiFn(false, false, true,  false), // multi_fdset
    MultiFn(false, true,  true,  false), // multi_get_handles
    MultiFn(false, true,  true,  false), // multi_get_offt
    MultiFn(false, true,  true,  false), // multi_info_read
    MultiFn(false, true,  true,  false), // multi_notify_disable
    MultiFn(false, true,  true,  false), // multi_notify_enable
    MultiFn(false, false, false, true),  // multi_perform
    MultiFn(false, false, true,  false), // multi_poll
    MultiFn(false, false, true,  false), // multi_remove_handle
    MultiFn(false, false, true,  false), // multi_setopt
    MultiFn(false, false, false, true),  // multi_socket_action
    MultiFn(false, false, false, true),  // multi_socket_all
    MultiFn(false, false, false, true),  // multi_socket
    MultiFn(false, false, true,  true),  // multi_timeout
    MultiFn(false, false, true,  false), // multi_wait
    MultiFn(false, false, true,  false)  // multi_waitfds
  ]

  // callbacks are numbered from 16 * 1024; the last four belong to the multi handle
  const CALLBACK_START := 0x4000
  const NOTIFY_CB := CALLBACK_START + 22
  const SOCKET_CB := CALLBACK_START + 24
  const TIMER_CB := CALLBACK_START + 25
  const CALLBACK_LAST := CALLBACK_START + 26

  const EASY_MAX_RECURSION := 7
  const MULTI_MAX_RECURSION := 15

  predicate IsEventCb(fn: int) {
    fn == SOCKET_CB || fn == TIMER_CB
  }

  datatype Code = Ok | BadArgument | BadHandle | Recursive

  // ---------- what may be entered

  ghost predicate InEventCb(multiCalls: seq<int>) {
    exists i :: 0 <= i < |multiCalls| && IsEventCb(multiCalls[i])
  }

  /** An easy call may join the calls in progress on its handle and on the handle's multi. */
  ghost predicate EasyAdmitted(fn: int, easyCalls: seq<int>, multiCalls: seq<int>) {
    && 0 <= fn < |EASY_FNS|
    && (EASY_FNS[fn].recurse || (easyCalls == [] && multiCalls == []))
    && (EASY_FNS[fn].noEventCb ==> !InEventCb(multiCalls))
    && |easyCalls| < EASY_MAX_RECURSION
  }

  ghost predicate MultiAdmitted(fn: int, multiCalls: seq<int>) {
    && 0 <= fn < |MULTI_FNS|
    && (MULTI_FNS[fn].recurse || multiCalls == [] || (MULTI_FNS[fn].allowNotify && NOTIFY_CB in multiCalls))
    && |multiCalls| < MULTI_MAX_RECURSION
  }

  ghost predicate CallbackAdmitted(fn: int, multiCalls: seq<int>) {
    CALLBACK_START <= fn < CALLBACK_LAST && fn !in multiCalls && |multiCalls| < MULTI_MAX_RECURSION
  }

  // ---------- what the tables come to

  // the easy calls that may be made during others; ws_recv, ws_send and ws_start_frame are the last three
  const EASY_REENTRANT: set<int> := {1, 2, 3, 4, EASY_PAUSE, EASY_SETOPT, 15, 16, 17}

  // the easy calls that may not be made with the TLS session cache locked
  const EASY_UNLOCKED: set<int> := {6, EASY_PERFORM, 8, 10, 12, 13, 14, 15, 16}

  // the multi calls that may be made during others
  const MULTI_REENTRANT: set<int> := {1, 4, 5, 6, 7, 8}

  // the multi calls that not even a notify callback may make: cleanup, perform and the socket actions
  const MULTI_OUTERMOST: set<int> := {MULTI_CLEANUP, 9, 13, 14, 15}

  const MULTI_UNLOCKED: set<int> := {MULTI_CLEANUP, 9, 13, 14, 15, 16}

  /**
   * When an easy call is admitted: with nothing in progress on its handle and the multi handle unless it is one of
   * those that may be made during others; pausing not within the socket and timer callbacks.
   */
  lemma EasyAdmittedExactly(fn: int, easyCalls: seq<int>, multiCalls: seq<int>)
    ensures EasyAdmitted(fn, easyCalls, multiCalls) <==>
            && 0 <= fn < 18 && |easyCalls| < 7
            && (fn in EASY_REENTRANT || (easyCalls == [] && multiCalls == []))
            && (fn == EASY_PAUSE ==> SOCKET_CB !in multiCalls && TIMER_CB !in multiCalls)
    ensures 0 <= fn < 18 ==>
              (EASY_FNS[fn].killed <==> fn == EASY_CLEANUP) && (EASY_FNS[fn].noCacheLock <==> fn in EASY_UNLOCKED)
  {
    EventCbs(multiCalls);
  }

  lemma EventCbs(multiCalls: seq<int>)
    ensures InEventCb(multiCalls) <==> SOCKET_CB in multiCalls || TIMER_CB in multiCalls
  {
    if InEventCb(multiCalls) {
      var i :| 0 <= i < |multiCalls| && IsEventCb(multiCalls[i]);
      assert multiCalls[i] in multiCalls;
    }
  }

  /** When a multi call is admitted: by itself, if it may be made during others, or under a notify callback. */
  lemma MultiAdmittedExactly(fn: int, multiCalls: seq<int>)
    ensures MultiAdmitted(fn, multiCalls) <==>
            && 0 <= fn < 19 && |multiCalls| < 15
            && (fn in MULTI_REENTRANT || multiCalls == [] || (NOTIFY_CB in multiCalls && fn !in MULTI_OUTERMOST))
    ensures 0 <= fn < 19 ==>
              (MULTI_FNS[fn].killed <==> fn == MULTI_CLEANUP) && (MULTI_FNS[fn].noCacheLock <==> fn in MULTI_UNLOCKED)
  {
  }

  // ---------- handles

  /** The calls in progress on a handle, innermost last. */
  class CallStack {
    const calls: array<int>
    var count: nat

    ghost predicate Valid()
      reads this
    {
      count <= calls.Length
    }

    ghost function View(): (s: seq<int>)
      requires Valid()
      reads this, calls
      ensures |s| == count
    {
      calls[..count]
    }

    constructor (size: nat)
      ensures Valid() && View() == [] && fresh(calls) && calls.Length == size
    {
      calls := new int[size];
      count := 0;
    }

    method Push(fn: int)
      requires Valid() && count < calls.Length
      modifies this, calls
      ensures Valid() && View() == old(View()) + [fn]
    {
      calls[count] := fn;
      count := count + 1;
    }
  }

  class Multi {
    var good: bool // has its magic number
    const stack: CallStack

    ghost predicate Valid()
      reads this, stack
    {
      stack.Valid() && stack.calls.Length == MULTI_MAX_RECURSION
    }

    constructor ()
      ensures Valid() && good && stack.View() == [] && fresh(stack) && fresh(stack.calls)
    {
      good := true;
      stack := new CallStack(MULTI_MAX_RECURSION);
    }
  }

  class Easy {
    var good: bool
    var added: bool // has an id in a multi handle
    var multi: Multi?
    const stack: CallStack

    ghost predicate Valid()
      reads this, stack
    {
      stack.Valid() && stack.calls.Length == EASY_MAX_RECURSION
    }

    constructor ()
      ensures Valid() && good && !added && multi == null && stack.View() == [] && fresh(stack) && fresh(stack.calls)
    {
      good, added, multi := true, false, null;
      stack := new CallStack(EASY_MAX_RECURSION);
    }
  }

  ghost function Calls(multi: Multi?): seq<int>
    requires multi != null ==> multi.stack.Valid()
    reads if multi == null then {} else {multi.stack, multi.stack.calls}
  {
    if multi == null then [] else multi.stack.View()
  }

  method EapiInEventCb(data: Easy) returns (r: bool)
    requires data.multi != null ==> data.multi.Valid()
    ensures r == InEventCb(Calls(data.multi))
  {
    var multi := data.multi;
    if multi != null {
      for i := 0 to multi.stack.count
        invariant forall j :: 0 <= j < i ==> !IsEventCb(multi.stack.View()[j])
      {
        var fn := multi.stack.calls[i];
        assert fn == multi.stack.View()[i];
        if fn >= CALLBACK_START && fn < CALLBACK_LAST && IsEventCb(fn) {
          return true;
        }
      }
    }
    return false;
  }

  method MapiInNotifyCb(multi: Multi) returns (r: bool)
    requires multi.Valid()
    ensures r == (NOTIFY_CB in multi.stack.View())
  {
    for i := 0 to multi.stack.count
      invariant forall j :: 0 <= j < i ==> multi.stack.View()[j] != NOTIFY_CB
    {
      assert multi.stack.calls[i] == multi.stack.View()[i];
      if multi.stack.calls[i] == NOTIFY_CB {
        return true;
      }
    }
    return false;
  }

  // ---------- entering and leaving

  /** What leaving needs: how deep the call was entered, and its handle unless the call ends the handle's life. */
  datatype EasyGuard = EasyGuard(depth: nat, data: Easy?)

  datatype MultiGuard = MultiGuard(depth: nat, multi: Multi?)

  /** The handle is alive, and it and its multi handle, if any, know of each other. */
  ghost predicate Sound(data: Easy?, knows: bool)
    reads data, if data == null then null else data.multi
  {
    && data != null && data.good
    && (if data.added then data.multi != null && data.multi.good && knows else data.multi == null)
  }

  /** `knows`: the multi handle has `data` under its id; `locked`: this thread holds the TLS session cache. */
  method EapiEnter(data: Easy?, fn: int, knows: bool, locked: bool) returns (guard: EasyGuard, result: Code)
    requires data != null ==> data.Valid() && (data.multi != null ==> data.multi.Valid())
    modifies if data == null then {} else {data.stack, data.stack.calls}
    ensures data != null ==> data.Valid()
    ensures result.Ok? <==> Sound(data, knows) && EasyAdmitted(fn, old(data.stack.View()), old(Calls(data.multi)))
                            && !(EASY_FNS[fn].noCacheLock && locked)
    ensures result.BadArgument? <==> !Sound(data, knows) || !(0 <= fn < |EASY_FNS|)
    ensures !result.BadHandle?
    ensures data != null ==>
              data.stack.View() == if result.Ok? then old(data.stack.View()) + [fn] else old(data.stack.View())
    ensures guard == if !result.Ok? then EasyGuard(0, guard.data)
                     else EasyGuard(|old(data.stack.View())| + 1, if EASY_FNS[fn].killed then null else data)
  {
    guard := EasyGuard(0, null);
    if data == null || !data.good {
      return guard, BadArgument;
    }
    if data.added {
      if data.multi != null && data.multi.good {
        if !knows {
          return guard, BadArgument;
        }
      } else {
        return guard, BadArgument;
      }
    } else if data.multi != null {
      return guard, BadArgument;
    }
    if fn < 0 || fn >= |EASY_FNS| {
      return guard, BadArgument;
    }
    var props := EASY_FNS[fn];
    if !props.recurse {
      if data.stack.count > 0 {
        return guard, Recursive;
      }
      if data.multi != null && data.multi.stack.count > 0 {
        return guard, Recursive;
      }
    }
    if props.noEventCb {
      var inEventCb := EapiInEventCb(data);
      if inEventCb {
        return guard, Recursive;
      }
    }
    if props.noCacheLock && locked {
      return guard, Recursive;
    }
    if data.stack.count >= EASY_MAX_RECURSION {
      return guard, Recursive;
    }
    data.stack.Push(fn);
    return EasyGuard(data.stack.count, if props.killed then null else data), Ok;
  }

  /** Takes the handle back to the depth it was entered at, whatever was left behind since. */
  method EapiLeave(guard: EasyGuard)
    requires guard.data != null ==> guard.data.Valid()
    modifies if guard.data == null then {} else {guard.data.stack}
    ensures guard.data != null ==>
              && guard.data.Valid()
              && guard.data.stack.View()
              == if guard.data.good && 0 < guard.depth <= |old(guard.data.stack.View())|
                 then old(guard.data.stack.View())[..guard.depth - 1] else old(guard.data.stack.View())
  {
    if guard.depth > 0 {
      if guard.data != null && guard.data.good {
        if guard.depth > guard.data.stack.count {
        } else {
          guard.data.stack.count := guard.depth - 1;
        }
      }
    }
  }

  /** `locked`: this thread holds the TLS session cache of the multi handle. */
  method MapiEnter(multi: Multi?, fn: int, locked: bool) returns (guard: MultiGuard, result: Code)
    requires multi != null ==> multi.Valid()
    modifies if multi == null then {} else {multi.stack, multi.stack.calls}
    ensures multi != null ==> multi.Valid()
    ensures result.BadHandle? <==> multi == null || !multi.good
    ensures result.BadArgument? <==> multi != null && multi.good && !(0 <= fn < |MULTI_FNS|)
    ensures result.Ok? <==> multi != null && multi.good && MultiAdmitted(fn, old(Calls(multi)))
                            && !(MULTI_FNS[fn].noCacheLock && locked)
    ensures Calls(multi) == if result.Ok? then old(Calls(multi)) + [fn] else old(Calls(multi))
    ensures guard == if !result.Ok? then MultiGuard(0, guard.multi)
                     else MultiGuard(|old(Calls(multi))| + 1, if MULTI_FNS[fn].killed then null else multi)
  {
    guard := MultiGuard(0, null);
    if multi == null || !multi.good {
      return guard, BadHandle;
    }
    if fn < 0 || fn >= |MULTI_FNS| {
      return guard, BadArgument;
    }
    var props := MULTI_FNS[fn];
    var inNotifyCb := MapiInNotifyCb(multi);
    if props.allowNotify && inNotifyCb {
    } else if !props.recurse && multi.stack.count > 0 {
      return guard, Recursive;
    }
    if props.noCacheLock && locked {
      return guard, Recursive;
    }
    if multi.stack.count >= MULTI_MAX_RECURSION {
      return guard, Recursive;
    }
    multi.stack.Push(fn);
    return MultiGuard(multi.stack.count, if props.killed then null else multi), Ok;
  }

  method MapiLeave(guard: MultiGuard)
    requires guard.multi != null ==> guard.multi.Valid()
    modifies if guard.multi == null then {} else {guard.multi.stack}
    ensures guard.multi != null ==>
              && guard.multi.Valid()
              && guard.multi.stack.View()
              == if guard.multi.good && 0 < guard.depth <= |old(guard.multi.stack.View())|
                 then old(guard.multi.stack.View())[..guard.depth - 1] else old(guard.multi.stack.View())
  {
    if guard.depth > 0 {
      if guard.multi != null && guard.multi.good {
        if guard.depth > guard.multi.stack.count {
        } else {
          guard.multi.stack.count := guard.depth - 1;
        }
      }
    }
  }

  /** The multi handle that a callback is recorded on. */
  function Target(data: Easy?, multi: Multi?): Multi?
    reads data
  {
    if multi != null then multi else if data != null then data.multi else null
  }

  /** Records a callback; one that cannot be recorded has a guard of depth 0, and still takes place. */
  method CbapiEnter(data: Easy?, multi: Multi?, fn: int) returns (guard: MultiGuard)
    requires Target(data, multi) != null ==> Target(data, multi).Valid()
    modifies var m := Target(data, multi); if m == null then {} else {m.stack, m.stack.calls}
    ensures Target(data, multi) != null ==> Target(data, multi).Valid()
    ensures var m := Target(data, multi);
            if m != null && CallbackAdmitted(fn, old(Calls(Target(data, multi))))
            then guard == MultiGuard(|old(Calls(Target(data, multi)))| + 1, m)
              && Calls(m) == old(Calls(Target(data, multi))) + [fn]
            else guard.depth == 0 && Calls(m) == old(Calls(Target(data, multi)))
  {
    guard := MultiGuard(0, null);
    var m := multi;
    if m == null {
      m := if data != null then data.multi else null;
    }
    if m == null {
      return;
    }
    if fn >= CALLBACK_LAST || fn < CALLBACK_START {
      return;
    }
    var i := m.stack.count;
    while i > 0
      invariant 0 <= i <= m.stack.count
      invariant fn !in m.stack.View()[i..]
    {
      assert m.stack.calls[i - 1] == m.stack.View()[i - 1];
      if m.stack.calls[i - 1] == fn {
        return;
      }
      i := i - 1;
    }
    if m.stack.count >= MULTI_MAX_RECURSION {
      return;
    }
    m.stack.Push(fn);
    return MultiGuard(m.stack.count, m);
  }
}
