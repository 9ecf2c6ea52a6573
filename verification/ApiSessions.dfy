/** Whole trees of nested API calls and callbacks, on any number of handles, under the guards of api.c. */
module ApiSessions {
  import opened Common
  import opened ApiGuard

  /** The call stack of one handle. */
  datatype Slot = EasyOf(e: nat) | MultiOf(m: nat)

  /** A call in progress, on the handle that it is recorded on. */
  datatype Frame = Frame(on: Slot, fn: int)

  /** An easy handle as the guards see it: its `home` is the multi handle that it belongs to. */
  datatype Handle = Handle(good: bool, added: bool, home: Option<nat>)
  {
    ghost predicate SoundFor(knows: bool) {
      good && if added then home.Some? && knows else home == None
    }
  }

  /** The easy handles, and how many multi handles there are. An index beyond them is the null pointer. */
  datatype World = World(easies: seq<Handle>, multis: nat)

  /** An API call or a callback, and what the program does inside it. */
  datatype Node =
    | ToEasy(e: nat, fn: int, knows: bool, locked: bool, inner: seq<Node>)
    | ToMulti(m: nat, fn: int, locked: bool, inner: seq<Node>)
    | Callback(e: nat, m: nat, fn: int, inner: seq<Node>)

  /** The calls in progress on one handle. */
  ghost function Part(frames: seq<Frame>, s: Slot): seq<int> {
    if frames == [] then []
    else
      var f := frames[|frames| - 1];
      Part(frames[..|frames| - 1], s) + if f.on == s then [f.fn] else []
  }

  /** The calls in progress on the multi handle of an easy handle. */
  ghost function HomePart(w: World, frames: seq<Frame>, e: nat): seq<int> {
    if e < |w.easies| && w.easies[e].home.Some? then Part(frames, MultiOf(w.easies[e].home.value)) else []
  }

  ghost predicate Admitted(w: World, frames: seq<Frame>, f: Frame) {
    match f.on
    case EasyOf(e) => EasyAdmitted(f.fn, Part(frames, f.on), HomePart(w, frames, e))
    case MultiOf(_) => MultiAdmitted(f.fn, Part(frames, f.on)) || CallbackAdmitted(f.fn, Part(frames, f.on))
  }

  /** Each call in progress was admitted among those that were in progress before it. */
  ghost predicate FramesOk(w: World, frames: seq<Frame>) {
    frames == []
    || (var before := frames[..|frames| - 1];
        FramesOk(w, before) && Admitted(w, before, frames[|frames| - 1]))
  }

  lemma Pushed(w: World, frames: seq<Frame>, f: Frame)
    ensures forall s :: Part(frames + [f], s) == if f.on == s then Part(frames, s) + [f.fn] else Part(frames, s)
    ensures FramesOk(w, frames + [f]) <==> FramesOk(w, frames) && Admitted(w, frames, f)
  {
    var all := frames + [f];
    assert all[..|all| - 1] == frames && all[|all| - 1] == f;
  }

  // ---------- what is in progress at any one time

  /** No callback is recorded twice at a time on a multi handle, and all stacks stay within their arrays. */
  lemma {:induction false} CallbackOnce(w: World, frames: seq<Frame>, s: Slot)
    requires FramesOk(w, frames)
    ensures var p := Part(frames, s);
            s.MultiOf? ==> forall i, j :: 0 <= i < j < |p| && p[i] == p[j] ==> p[i] < CALLBACK_START
    ensures |Part(frames, s)| <= if s.EasyOf? then EASY_MAX_RECURSION else MULTI_MAX_RECURSION
  {
    if frames != [] {
      hide FramesOk, Part;
      var before, f := frames[..|frames| - 1], frames[|frames| - 1];
      assert frames == before + [f];
      Pushed(w, before, f);
      CallbackOnce(w, before, s);
    }
  }

  /** Above the bottom of an easy handle's stack there are only calls that may be made during others. */
  lemma {:induction false} EasyAboveBottom(w: World, frames: seq<Frame>, e: nat)
    requires FramesOk(w, frames)
    ensures EasyStackOk(Part(frames, EasyOf(e)))
  {
    if frames != [] {
      hide FramesOk, Part, EasyAdmitted;
      var before, f := frames[..|frames| - 1], frames[|frames| - 1];
      assert frames == before + [f];
      Pushed(w, before, f);
      EasyAboveBottom(w, before, e);
      EasyAdmittedExactly(f.fn, Part(before, f.on), if f.on.EasyOf? then HomePart(w, before, f.on.e) else []);
    }
  }

  ghost predicate EasyStackOk(p: seq<int>) {
    forall i :: 0 <= i < |p| ==> 0 <= p[i] < |EASY_FNS| && (i > 0 ==> p[i] in EASY_REENTRANT)
  }

  /**
   * Above the bottom of a multi handle's stack there are callbacks, calls that may be made during others, and calls
   * allowed in a notify callback that have one below them.
   */
  lemma {:induction false} MultiAboveBottom(w: World, frames: seq<Frame>, m: nat)
    requires FramesOk(w, frames)
    ensures MultiStackOk(Part(frames, MultiOf(m)))
  {
    if frames != [] {
      hide FramesOk, Part, MultiStackOk, MayBeAbove, MultiAdmitted, CallbackAdmitted;
      var before, f := frames[..|frames| - 1], frames[|frames| - 1];
      assert frames == before + [f];
      Pushed(w, before, f);
      MultiAboveBottom(w, before, m);
      MultiStackMore(Part(before, MultiOf(m)), f.fn);
      if f.on == MultiOf(m) {
        AdmittedAbove(f.fn, Part(before, f.on));
      }
    }
  }

  ghost predicate MultiStackOk(p: seq<int>) {
    forall i :: 0 < i < |p| ==> MayBeAbove(p[i], p[..i])
  }

  ghost predicate MayBeAbove(fn: int, below: seq<int>) {
    || CALLBACK_START <= fn < CALLBACK_LAST
    || (0 <= fn < |MULTI_FNS| && (fn in MULTI_REENTRANT || (NOTIFY_CB in below && fn !in MULTI_OUTERMOST)))
  }

  lemma AdmittedAbove(fn: int, p: seq<int>)
    requires MultiAdmitted(fn, p) || CallbackAdmitted(fn, p)
    ensures p == [] || MayBeAbove(fn, p)
  {
    hide MultiAdmitted;
    MultiAdmittedExactly(fn, p);
  }

  lemma MultiStackMore(p: seq<int>, fn: int)
    requires MultiStackOk(p)
    ensures MultiStackOk(p + [fn]) <==> p == [] || MayBeAbove(fn, p)
  {
    hide MayBeAbove;
    var q := p + [fn];
    assert q[..|p|] == p && q[|p|] == fn;
    forall i | 0 < i < |p|
      ensures MayBeAbove(q[i], q[..i])
    {
      assert q[i] == p[i] && q[..i] == p[..i];
    }
  }

  lemma {:induction false} AdmittedThen(w: World, frames: seq<Frame>, i: nat)
    requires FramesOk(w, frames) && i < |frames|
    ensures Admitted(w, frames[..i], frames[i])
  {
    if i < |frames| - 1 {
      AdmittedThen(w, frames[..|frames| - 1], i);
      assert frames[..|frames| - 1][..i] == frames[..i];
    }
  }

  /**
   * An easy call that may not be made during others is the outermost on its handle and on the handle's multi handle;
   * such a multi call is the outermost on its multi handle, or, where the table allows it, is made under a notify
   * callback.
   */
  lemma OutermostCalls(w: World, frames: seq<Frame>, i: nat)
    requires FramesOk(w, frames) && i < |frames|
    ensures var f, p := frames[i], Part(frames[..i], frames[i].on);
            if f.on.EasyOf? then
              && 0 <= f.fn < |EASY_FNS|
              && (f.fn !in EASY_REENTRANT ==> p == [] && HomePart(w, frames[..i], f.on.e) == [])
            else
              0 <= f.fn < |MULTI_FNS| && f.fn !in MULTI_REENTRANT ==>
                p == [] || (NOTIFY_CB in p && f.fn !in MULTI_OUTERMOST)
  {
    hide FramesOk, Part, EasyAdmitted, MultiAdmitted;
    AdmittedThen(w, frames, i);
    var f, p := frames[i], Part(frames[..i], frames[i].on);
    EasyAdmittedExactly(f.fn, p, if f.on.EasyOf? then HomePart(w, frames[..i], f.on.e) else []);
    MultiAdmittedExactly(f.fn, p);
  }

  /** Nothing is paused in an event callback of its multi handle. */
  lemma NoPauseInEventCb(w: World, frames: seq<Frame>, i: nat, e: nat)
    requires FramesOk(w, frames) && i < |frames| && frames[i] == Frame(EasyOf(e), EASY_PAUSE)
    ensures SOCKET_CB !in HomePart(w, frames[..i], e) && TIMER_CB !in HomePart(w, frames[..i], e)
  {
    hide FramesOk, Part;
    AdmittedThen(w, frames, i);
  }

  // ---------- what is played

  /** The guards let the call in; a callback always takes place. */
  ghost predicate LetIn(w: World, frames: seq<Frame>, node: Node) {
    match node
    case ToEasy(e, fn, knows, locked, _) =>
      && e < |w.easies| && w.easies[e].SoundFor(knows)
      && EasyAdmitted(fn, Part(frames, EasyOf(e)), HomePart(w, frames, e))
      && !(EASY_FNS[fn].noCacheLock && locked)
    case ToMulti(m, fn, locked, _) =>
      m < w.multis && MultiAdmitted(fn, Part(frames, MultiOf(m))) && !(MULTI_FNS[fn].noCacheLock && locked)
    case Callback(_, _, _, _) => true
  }

  /** The multi handle that a callback is recorded on. */
  ghost function Recorder(w: World, e: nat, m: nat): Option<nat> {
    if m < w.multis then Some(m) else if e < |w.easies| then w.easies[e].home else None
  }

  /** What is in progress inside a call or callback. */
  ghost function Inside(w: World, frames: seq<Frame>, node: Node): seq<Frame> {
    match node
    case ToEasy(e, fn, _, _, _) => frames + [Frame(EasyOf(e), fn)]
    case ToMulti(m, fn, _, _) => frames + [Frame(MultiOf(m), fn)]
    case Callback(e, m, fn, _) =>
      var r := Recorder(w, e, m);
      if r.Some? && CallbackAdmitted(fn, Part(frames, MultiOf(r.value)))
      then frames + [Frame(MultiOf(r.value), fn)] else frames
  }

  /** A call or callback that takes place, with what is in progress inside it. */
  datatype Step = Step(node: Node, inside: seq<Frame>)

  /** All that takes place of a tree, in order: nothing of a call that is not let in. */
  ghost function Plays(w: World, frames: seq<Frame>, node: Node): seq<Step>
    decreases node
  {
    if LetIn(w, frames, node) then
      var inside := Inside(w, frames, node);
      [Step(node, inside)] + PlaysAll(w, inside, node.inner)
    else []
  }

  ghost function PlaysAll(w: World, frames: seq<Frame>, nodes: seq<Node>): seq<Step>
    decreases nodes
  {
    if nodes == [] then [] else Plays(w, frames, nodes[0]) + PlaysAll(w, frames, nodes[1..])
  }

  /** Wherever a tree is played, at every point of it each call in progress was admitted among the earlier ones. */
  lemma {:induction false} PlayedSoundly(w: World, frames: seq<Frame>, node: Node)
    requires FramesOk(w, frames)
    ensures forall s :: s in Plays(w, frames, node) ==> FramesOk(w, s.inside) && frames <= s.inside
    decreases node
  {
    hide FramesOk, Part;
    if LetIn(w, frames, node) {
      var inside := Inside(w, frames, node);
      if inside != frames {
        Pushed(w, frames, inside[|inside| - 1]);
      }
      AllPlayedSoundly(w, inside, node.inner);
    }
  }

  lemma {:induction false} AllPlayedSoundly(w: World, frames: seq<Frame>, nodes: seq<Node>)
    requires FramesOk(w, frames)
    ensures forall s :: s in PlaysAll(w, frames, nodes) ==> FramesOk(w, s.inside) && frames <= s.inside
    decreases nodes
  {
    hide FramesOk, Part;
    if nodes != [] {
      PlayedSoundly(w, frames, nodes[0]);
      AllPlayedSoundly(w, frames, nodes[1..]);
    }
  }

  /**
   * Inside a callback of a multi handle, or of an easy handle that belongs to one, its id is on that multi handle's
   * stack, unless it is no callback's or all places of the stack are taken.
   */
  lemma CallbackRecorded(w: World, frames: seq<Frame>, node: Node, m: nat)
    requires node.Callback? && if node.m < w.multis then node.m == m
                               else node.e < |w.easies| && w.easies[node.e].home == Some(m)
    ensures node.fn in Part(Inside(w, frames, node), MultiOf(m)) <==>
            || node.fn in Part(frames, MultiOf(m))
            || (0x4000 <= node.fn < 0x401a && |Part(frames, MultiOf(m))| < 15)
  {
    hide Part;
    Pushed(w, frames, Frame(MultiOf(m), node.fn));
  }

  /** An easy call that takes place was admitted among what was in progress then, whatever that began with. */
  lemma {:induction false} PlayedEasily(w: World, frames: seq<Frame>, node: Node, s: Step)
    requires s in Plays(w, frames, node) && s.node.ToEasy?
    ensures s.inside != [] && var before := s.inside[..|s.inside| - 1];
            && (frames <= before)
            && EasyAdmitted(s.node.fn, Part(before, EasyOf(s.node.e)), HomePart(w, before, s.node.e))
    decreases node
  {
    hide Part, EasyAdmitted, HomePart;
    var inside := Inside(w, frames, node);
    if s == Step(node, inside) {
      assert inside[..|inside| - 1] == frames;
    } else {
      AllPlayedEasily(w, inside, node.inner, s);
    }
  }

  lemma {:induction false} AllPlayedEasily(w: World, frames: seq<Frame>, nodes: seq<Node>, s: Step)
    requires s in PlaysAll(w, frames, nodes) && s.node.ToEasy?
    ensures s.inside != [] && var before := s.inside[..|s.inside| - 1];
            && (frames <= before)
            && EasyAdmitted(s.node.fn, Part(before, EasyOf(s.node.e)), HomePart(w, before, s.node.e))
    decreases nodes
  {
    hide Part, EasyAdmitted, HomePart;
    if s in Plays(w, frames, nodes[0]) {
      PlayedEasily(w, frames, nodes[0], s);
    } else {
      AllPlayedEasily(w, frames, nodes[1..], s);
    }
  }

  lemma {:induction false} PartGrows(frames: seq<Frame>, more: seq<Frame>, s: Slot)
    requires frames <= more
    ensures Part(frames, s) <= Part(more, s)
  {
    if frames != more {
      var before := more[..|more| - 1];
      assert frames <= before;
      PartGrows(frames, before, s);
    }
  }

  /**
   * However deep inside a socket or timer callback on the stack of a multi handle, no pause of a handle that belongs
   * to it takes place.
   */
  lemma NeverPausedInEventCb(w: World, frames: seq<Frame>, node: Node, m: nat, s: Step)
    requires node.Callback? && node.fn in {SOCKET_CB, TIMER_CB} && node.fn in Part(Inside(w, frames, node), MultiOf(m))
    requires s in Plays(w, frames, node) && s.node.ToEasy?
    requires s.node.e < |w.easies| && w.easies[s.node.e].home == Some(m)
    ensures s.node.fn != EASY_PAUSE
  {
    hide Part, EasyAdmitted;
    var inside := Inside(w, frames, node);
    AllPlayedEasily(w, inside, node.inner, s);
    var before := s.inside[..|s.inside| - 1];
    PartGrows(inside, before, MultiOf(m));
    EasyAdmittedExactly(s.node.fn, Part(before, EasyOf(s.node.e)), HomePart(w, before, s.node.e));
  }

  /**
   * A handle's life can be ended, in any state, exactly when nothing is in progress on its own stack; for an easy
   * handle also nothing on its multi handle's, and for a multi handle the TLS session cache must not be held.
   */
  lemma CleanupAdmitted(w: World, frames: seq<Frame>, e: nat, m: nat, knows: bool, locked: bool, inner: seq<Node>)
    requires e < |w.easies| && w.easies[e].SoundFor(knows) && m < w.multis
    ensures LetIn(w, frames, ToEasy(e, EASY_CLEANUP, knows, locked, inner))
            <==> Part(frames, EasyOf(e)) == [] && HomePart(w, frames, e) == []
    ensures LetIn(w, frames, ToMulti(m, MULTI_CLEANUP, locked, inner)) <==> Part(frames, MultiOf(m)) == [] && !locked
  {
    hide Part;
  }

  /** So a multi handle's life can be ended inside a call on an easy handle of it. */
  lemma MultiCleanupBesideEasyCall(w: World, e: nat, m: nat)
    requires e < |w.easies| && w.easies[e].SoundFor(true) && w.easies[e].home == Some(m) && m < w.multis
    ensures var end := ToMulti(m, MULTI_CLEANUP, false, []);
            var call := ToEasy(e, EASY_SETOPT, true, false, [end]);
            var inside := [Frame(EasyOf(e), EASY_SETOPT)];
            Plays(w, [], call) == [Step(call, inside), Step(end, inside + [Frame(MultiOf(m), MULTI_CLEANUP)])]
  {
    var end := ToMulti(m, MULTI_CLEANUP, false, []);
    var inside := [Frame(EasyOf(e), EASY_SETOPT)];
    Pushed(w, [], inside[0]);
    assert [] + inside == inside;
    CleanupAdmitted(w, inside, e, m, true, false, []);
    assert PlaysAll(w, inside, [end]) == Plays(w, inside, end) + PlaysAll(w, inside, []);
    assert Plays(w, inside, end) == [Step(end, inside + [Frame(MultiOf(m), MULTI_CLEANUP)])];
  }

  /** And a transfer on one easy handle takes place inside a transfer on another one. */
  lemma PerformInPerform(w: World, e: nat, d: nat)
    requires e != d && e < |w.easies| && d < |w.easies|
    requires w.easies[e] == w.easies[d] == Handle(true, false, None)
    ensures var second := ToEasy(d, EASY_PERFORM, false, false, []);
            var first := ToEasy(e, EASY_PERFORM, false, false, [second]);
            var inside := [Frame(EasyOf(e), EASY_PERFORM)];
            Plays(w, [], first) == [Step(first, inside), Step(second, inside + [Frame(EasyOf(d), EASY_PERFORM)])]
  {
    var second := ToEasy(d, EASY_PERFORM, false, false, []);
    var inside := [Frame(EasyOf(e), EASY_PERFORM)];
    Pushed(w, [], inside[0]);
    assert [] + inside == inside;
    assert PlaysAll(w, inside, [second]) == Plays(w, inside, second) + PlaysAll(w, inside, []);
    assert Plays(w, inside, second) == [Step(second, inside + [Frame(EasyOf(d), EASY_PERFORM)])];
  }

  // ---------- programs

  /** No call of the tree ends the life of a handle. */
  ghost predicate NoKill(node: Node)
    decreases node
  {
    && (node.ToEasy? && 0 <= node.fn < |EASY_FNS| ==> !EASY_FNS[node.fn].killed)
    && (node.ToMulti? && 0 <= node.fn < |MULTI_FNS| ==> !MULTI_FNS[node.fn].killed)
    && forall n :: n in node.inner ==> NoKill(n)
  }

  /** A program using any easy handles and the multi handles they belong to. */
  class Session {
    const easies: seq<Easy>
    const multis: seq<Multi>
    ghost const world: World
    ghost const stacks: set<CallStack>
    ghost const cells: set<array<int>>
    ghost var ongoing: seq<Frame>
    ghost var played: seq<Step>

    ghost predicate Has(s: Slot) {
      if s.EasyOf? then s.e < |easies| else s.m < |multis|
    }

    ghost function StackOf(s: Slot): CallStack
      requires Has(s)
    {
      if s.EasyOf? then easies[s.e].stack else multis[s.m].stack
    }

    /** Every handle has a stack of its own. */
    ghost predicate Apart() {
      && (forall s :: Has(s) ==> StackOf(s) in stacks && StackOf(s).calls in cells
                                 && StackOf(s).calls.Length == if s.EasyOf? then EASY_MAX_RECURSION
                                                               else MULTI_MAX_RECURSION)
      && forall s, t :: Has(s) && Has(t) && s != t ==> StackOf(s) != StackOf(t) && StackOf(s).calls != StackOf(t).calls
    }

    /** The world is what the handles are. */
    ghost predicate Known()
      requires |world.easies| == |easies|
      reads easies, multis
    {
      && (forall m :: 0 <= m < |multis| ==> multis[m].good)
      && forall e :: 0 <= e < |easies| ==>
           var h := world.easies[e];
           && h.good == easies[e].good && h.added == easies[e].added && (h.home.Some? <==> easies[e].multi != null)
           && (h.home.Some? ==> h.home.value < |multis| && easies[e].multi == multis[h.home.value])
    }

    /** Every stack holds the calls in progress on its handle. */
    ghost predicate Holds(frames: seq<Frame>)
      reads stacks, cells
    {
      Apart() && forall s :: Has(s) ==> StackOf(s).Valid() && StackOf(s).View() == Part(frames, s)
    }

    ghost predicate Valid()
      reads this, easies, multis, stacks, cells
    {
      |world.easies| == |easies| && world.multis == |multis| && Known() && Holds(ongoing)
    }

    /** Handles with nothing in progress, each with a stack of its own; `homes` says where the easy ones belong. */
    constructor (easies: seq<Easy>, multis: seq<Multi>, ghost homes: seq<Option<nat>>)
      requires forall e :: 0 <= e < |easies| ==> easies[e].Valid() && easies[e].stack.View() == []
      requires forall m :: 0 <= m < |multis| ==> multis[m].Valid() && multis[m].stack.View() == [] && multis[m].good
      requires forall e, d :: 0 <= e < d < |easies| ==>
                 easies[e].stack != easies[d].stack && easies[e].stack.calls != easies[d].stack.calls
      requires forall m, n :: 0 <= m < n < |multis| ==>
                 multis[m].stack != multis[n].stack && multis[m].stack.calls != multis[n].stack.calls
      requires forall e, m :: 0 <= e < |easies| && 0 <= m < |multis| ==>
                 easies[e].stack != multis[m].stack && easies[e].stack.calls != multis[m].stack.calls
      requires |homes| == |easies| && forall e :: 0 <= e < |easies| ==>
                 && (homes[e].Some? <==> easies[e].multi != null)
                 && (homes[e].Some? ==> homes[e].value < |multis| && easies[e].multi == multis[homes[e].value])
      ensures Valid() && ongoing == [] && played == [] && this.easies == easies && this.multis == multis
    {
      this.easies, this.multis := easies, multis;
      world := World(seq(|easies|, i requires 0 <= i < |easies| reads easies =>
                                   Handle(easies[i].good, easies[i].added, homes[i])), |multis|);
      stacks := (set e: Easy | e in easies :: e.stack) + (set m: Multi | m in multis :: m.stack);
      cells := (set e: Easy | e in easies :: e.stack.calls) + (set m: Multi | m in multis :: m.stack.calls);
      ongoing, played := [], [];
      new;
      assert Apart();
      hide Session.Apart;
      assert Holds([]);
    }

    function EasyAt(e: nat): (data: Easy?)
      ensures data == null <==> e >= |easies|
    {
      if e < |easies| then easies[e] else null
    }

    function MultiAt(m: nat): (multi: Multi?)
      ensures multi == null <==> m >= |multis|
    {
      if m < |multis| then multis[m] else null
    }

    /** What the guards are given for an easy handle. */
    lemma EasyIs(e: nat)
      requires Valid() && e < |easies|
      ensures var data := easies[e];
              && data.Valid() && (data.multi != null ==> data.multi.Valid())
              && data.stack.View() == Part(ongoing, EasyOf(e)) && Calls(data.multi) == HomePart(world, ongoing, e)
              && (forall knows :: ApiGuard.Sound(data, knows) <==> world.easies[e].SoundFor(knows))
    {
      hide Part;
      assert Has(EasyOf(e));
      if easies[e].multi != null {
        assert Has(MultiOf(world.easies[e].home.value));
      }
    }

    lemma MultiIs(m: nat)
      requires Valid() && m < |multis|
      ensures multis[m].Valid() && multis[m].good && Calls(multis[m]) == Part(ongoing, MultiOf(m))
    {
      hide Part;
      assert Has(MultiOf(m));
    }

    lemma RecorderIs(e: nat, m: nat)
      requires Valid()
      ensures var multi, r := Target(EasyAt(e), MultiAt(m)), Recorder(world, e, m);
              if r == None then multi == null
              else r.value < |multis| && multi == multis[r.value] && multi.Valid() && multi.good
                   && Calls(multi) == Part(ongoing, MultiOf(r.value))
    {
      hide Part;
      var r := Recorder(world, e, m);
      if r.Some? {
        MultiIs(r.value);
      }
    }

    // ---------- one guard at a time

    method EnterEasy(node: Node) returns (guard: EasyGuard, result: Code)
      requires node.ToEasy? && Valid()
      modifies stacks, cells
      ensures Known() && Holds(if result.Ok? then Inside(world, ongoing, node) else ongoing)
      ensures result.Ok? <==> LetIn(world, ongoing, node)
      ensures result.Ok? ==>
                && node.e < |easies| && easies[node.e].good && 0 <= node.fn < |EASY_FNS|
                && guard == EasyGuard(|Part(ongoing, EasyOf(node.e))| + 1,
                                      if EASY_FNS[node.fn].killed then null else easies[node.e])
    {
      hide EasyAdmitted, Part, HomePart, Known;
      Pushed(world, ongoing, Frame(EasyOf(node.e), node.fn));
      if node.e < |easies| {
        EasyIs(node.e);
      }
      guard, result := EapiEnter(EasyAt(node.e), node.fn, node.knows, node.locked);
    }

    method LeaveEasy(guard: EasyGuard, ghost e: nat, ghost frames: seq<Frame>, ghost f: Frame)
      requires e < |easies| && easies[e].good && f.on == EasyOf(e) && Holds(frames + [f])
      requires guard == EasyGuard(|Part(frames, f.on)| + 1, easies[e])
      modifies stacks
      ensures Holds(frames)
    {
      hide Part;
      Pushed(world, frames, f);
      assert Has(f.on);
      EapiLeave(guard);
    }

    method EnterMulti(node: Node) returns (guard: MultiGuard, result: Code)
      requires node.ToMulti? && Valid()
      modifies stacks, cells
      ensures Known() && Holds(if result.Ok? then Inside(world, ongoing, node) else ongoing)
      ensures result.Ok? <==> LetIn(world, ongoing, node)
      ensures result.Ok? ==>
                && node.m < |multis| && 0 <= node.fn < |MULTI_FNS|
                && guard == MultiGuard(|Part(ongoing, MultiOf(node.m))| + 1,
                                       if MULTI_FNS[node.fn].killed then null else multis[node.m])
    {
      hide MultiAdmitted, Part, HomePart, Known;
      Pushed(world, ongoing, Frame(MultiOf(node.m), node.fn));
      if node.m < |multis| {
        MultiIs(node.m);
      }
      guard, result := MapiEnter(MultiAt(node.m), node.fn, node.locked);
    }

    method LeaveMulti(guard: MultiGuard, ghost m: nat, ghost frames: seq<Frame>, ghost f: Frame)
      requires m < |multis| && multis[m].good && f.on == MultiOf(m) && Holds(frames + [f])
      requires guard == MultiGuard(|Part(frames, f.on)| + 1, multis[m])
      modifies stacks
      ensures Holds(frames)
    {
      hide Part;
      Pushed(world, frames, f);
      assert Has(f.on);
      MapiLeave(guard);
    }

    /** A callback is recorded if its guard has a depth, and otherwise nothing changes. */
    method EnterCallback(node: Node) returns (guard: MultiGuard)
      requires node.Callback? && Valid()
      modifies stacks, cells
      ensures Known() && Holds(Inside(world, ongoing, node))
      ensures var r := Recorder(world, node.e, node.m);
              if guard.depth > 0 then
                && r.Some? && r.value < |multis|
                && Inside(world, ongoing, node) == ongoing + [Frame(MultiOf(r.value), node.fn)]
                && guard == MultiGuard(|Part(ongoing, MultiOf(r.value))| + 1, multis[r.value])
              else Inside(world, ongoing, node) == ongoing
    {
      hide CallbackAdmitted, Part, HomePart, Known, Recorder, Target;
      ghost var r := Recorder(world, node.e, node.m);
      if r.Some? {
        Pushed(world, ongoing, Frame(MultiOf(r.value), node.fn));
      }
      RecorderIs(node.e, node.m);
      guard := CbapiEnter(EasyAt(node.e), MultiAt(node.m), node.fn);
    }

    // ---------- whole trees

    method PlayEasy(node: Node) returns (result: Code)
      requires node.ToEasy? && Valid() && NoKill(node)
      modifies this, stacks, cells
      ensures Valid() && ongoing == old(ongoing)
      ensures played == old(played) + Plays(world, old(ongoing), node)
      ensures result.Ok? <==> LetIn(world, old(ongoing), node)
      decreases node, 0
    {
      hide LetIn, Part, Known, Session.Holds, Plays, PlaysAll;
      PlaysInside(world, ongoing, node, played);
      var guard;
      guard, result := EnterEasy(node);
      if result.Ok? {
        Enter(node);
        PlayAll(node.inner);
        LeaveEasy(guard, node.e, old(ongoing), Frame(EasyOf(node.e), node.fn));
        ongoing := old(ongoing);
      }
    }

    method PlayMulti(node: Node) returns (result: Code)
      requires node.ToMulti? && Valid() && NoKill(node)
      modifies this, stacks, cells
      ensures Valid() && ongoing == old(ongoing)
      ensures played == old(played) + Plays(world, old(ongoing), node)
      ensures result.Ok? <==> LetIn(world, old(ongoing), node)
      decreases node, 0
    {
      hide LetIn, Part, Session.Holds, Plays, PlaysAll;
      PlaysInside(world, ongoing, node, played);
      var guard;
      guard, result := EnterMulti(node);
      if result.Ok? {
        Enter(node);
        PlayAll(node.inner);
        LeaveMulti(guard, node.m, old(ongoing), Frame(MultiOf(node.m), node.fn));
        ongoing := old(ongoing);
      }
    }

    method PlayCallback(node: Node)
      requires node.Callback? && Valid() && NoKill(node)
      modifies this, stacks, cells
      ensures Valid() && ongoing == old(ongoing)
      ensures played == old(played) + Plays(world, old(ongoing), node)
      decreases node, 0
    {
      hide Inside, Recorder, Part, Session.Holds, Plays, PlaysAll;
      PlaysInside(world, ongoing, node, played);
      ghost var r := Recorder(world, node.e, node.m);
      var guard := EnterCallback(node);
      Enter(node);
      PlayAll(node.inner);
      if guard.depth > 0 {
        LeaveMulti(guard, r.value, old(ongoing), Frame(MultiOf(r.value), node.fn));
      }
      ongoing := old(ongoing);
    }

    ghost method Enter(node: Node)
      modifies this
      ensures ongoing == Inside(world, old(ongoing), node) && played == old(played) + [Step(node, ongoing)]
    {
      ongoing := Inside(world, ongoing, node);
      played := played + [Step(node, ongoing)];
    }

    /**
     * Whatever is called inside a call, and whether the guards let it in or not: all stacks are afterwards what they
     * were. What takes place are exactly the callbacks, and the calls that are let in, down the whole tree.
     */
    method Play(node: Node) returns (result: Code)
      requires Valid() && NoKill(node)
      modifies this, stacks, cells
      ensures Valid() && ongoing == old(ongoing)
      ensures forall s :: Has(s) ==> StackOf(s).View() == old(StackOf(s).View())
      ensures played == old(played) + Plays(world, old(ongoing), node)
      ensures result.Ok? <==> LetIn(world, old(ongoing), node)
      decreases node, 1
    {
      hide Part, Known, Plays, EasyAdmitted, MultiAdmitted;
      match node
      case ToEasy(_, _, _, _, _) => result := PlayEasy(node);
      case ToMulti(_, _, _, _) => result := PlayMulti(node);
      case Callback(_, _, _, _) =>
        PlayCallback(node);
        result := Ok;
    }

    method PlayAll(nodes: seq<Node>)
      requires Valid() && (forall n :: n in nodes ==> NoKill(n))
      modifies this, stacks, cells
      ensures Valid() && ongoing == old(ongoing)
      ensures played == old(played) + PlaysAll(world, old(ongoing), nodes)
      decreases nodes
    {
      hide Known, Part, Plays, Session.Holds;
      if nodes != [] {
        ghost var before := played;
        var _ := Play(nodes[0]);
        PlayAll(nodes[1..]);
        Regroup(before, Plays(world, ongoing, nodes[0]), PlaysAll(world, ongoing, nodes[1..]));
      }
    }

    /** A whole program: at every point of it each call in progress was admitted among the earlier ones. */
    method Run(nodes: seq<Node>)
      requires Valid() && ongoing == [] && played == [] && (forall n :: n in nodes ==> NoKill(n))
      modifies this, stacks, cells
      ensures Valid() && ongoing == [] && played == PlaysAll(world, [], nodes)
      ensures forall s :: s in played ==> FramesOk(world, s.inside)
    {
      PlayAll(nodes);
      AllPlayedSoundly(world, [], nodes);
    }
  }

  lemma PlaysInside(w: World, frames: seq<Frame>, node: Node, before: seq<Step>)
    ensures var inside := Inside(w, frames, node);
            before + Plays(w, frames, node)
            == if LetIn(w, frames, node)
               then before + [Step(node, inside)] + PlaysAll(w, inside, node.inner) else before
  {
    var inside := Inside(w, frames, node);
    if LetIn(w, frames, node) {
      Regroup(before, [Step(node, inside)], PlaysAll(w, inside, node.inner));
    }
  }
}
