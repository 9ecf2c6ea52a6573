/** Whole runs of byte queue operations against the one sequence of bytes they stand for. */
module BufRuns {
  import opened Common
  import opened Chunks
  import opened BufQueues
  import opened BufTransfers

  datatype Op =
    | WriteOp(bytes: seq<Byte>)
    | ReadOp(len: nat)
    | SkipOp(amount: nat)
    | PeekOp
    | PeekAtOp(offset: nat)
    | LenOp
    | ResetOp
    | SipOp(maxLen: nat)

  /** What the caller sees: a result code, a number, and bytes. */
  datatype Reply = Reply(code: Code, n: nat, bytes: seq<Byte>)

  /** A queue as its user sees it: the queued bytes, and how many more it takes in under a hard limit. */
  datatype View = View(bytes: seq<Byte>, room: nat)

  datatype Limits = Limits(soft: bool, capacity: nat)

  /** What an operation brings about outside the queue: allocations that are refused, and answers of the reader. */
  datatype Seen = Seen(refusals: nat, sayings: seq<Saying>)

  const NOTHING := Seen(0, [])

  /** The FIFO specification of one operation, on nothing but the two views and what is seen. */
  ghost predicate Explains(lim: Limits, before: View, op: Op, r: Reply, seen: Seen, after: View) {
    match op
    case WriteOp(bytes) =>
      && r.n <= |bytes| && after.bytes == before.bytes + bytes[..r.n]
      && (!lim.soft ==> before.room == after.room + r.n)
      && seen == NOTHING.(refusals := if r.code == OutOfMemory then 1 else 0)
      && if r.code == OutOfMemory then r.n < |bytes| && (!lim.soft ==> r.n < before.room)
         else
           && r.n == (if lim.soft then |bytes| else Min(|bytes|, before.room))
           && r.code == (if r.n == 0 && bytes != [] then Again else Ok)
    case SipOp(maxLen) =>
      && after.bytes == before.bytes + r.bytes && (!lim.soft ==> before.room == after.room + |r.bytes|)
      && (if r.code == Ok then r.n == |r.bytes| && (maxLen != 0 ==> r.n <= maxLen) else r.bytes == [])
      && seen.refusals <= 1
      && if seen.refusals == 1 || (!lim.soft && before.room == 0)
         then seen.sayings == [] && r.n == 0 && RefusalCode(lim, seen.refusals == 1, r.code)
         else
           && |seen.sayings| == 1 && seen.sayings[0].code == r.code && seen.sayings[0].n == r.n
           && 0 < seen.sayings[0].space && (maxLen != 0 ==> seen.sayings[0].space <= maxLen)
    case _ => seen == NOTHING && Quiet(lim, before, op, r, after)
  }

  /** Without room a sip would block; a refused chunk may say so too, but only under a soft limit. */
  ghost predicate RefusalCode(lim: Limits, refused: bool, code: Code) {
    if !refused then code == Again else if lim.soft then code in {OutOfMemory, Again} else code == OutOfMemory
  }

  /** The operations that neither allocate nor read. */
  ghost predicate Quiet(lim: Limits, before: View, op: Op, r: Reply, after: View)
    requires !op.WriteOp? && !op.SipOp?
  {
    match op
    case ReadOp(len) =>
      && r.n == |r.bytes| == Min(len, |before.bytes|) && before.bytes == r.bytes + after.bytes
      && r.code == (if r.n == 0 then Again else Ok) && NoLoss(lim, before, after)
    case SkipOp(amount) =>
      after.bytes == before.bytes[Min(amount, |before.bytes|)..] && NoLoss(lim, before, after)
    case PeekOp =>
      && after.bytes == before.bytes && r.bytes <= before.bytes
      && (r.bytes == [] <==> before.bytes == []) && NoLoss(lim, before, after)
    case PeekAtOp(offset) =>
      && after == before && (r.bytes == [] <==> offset >= |before.bytes|)
      && (offset < |before.bytes| ==> r.bytes <= before.bytes[offset..])
    case LenOp => after == before && r.n == |before.bytes|
    case ResetOp => after == View([], lim.capacity)
  }

  /** Taking bytes out never costs room. */
  ghost predicate NoLoss(lim: Limits, before: View, after: View) {
    lim.soft || before.room <= after.room
  }

  /** `states` are the views between the operations of a run. */
  ghost predicate Run(lim: Limits, states: seq<View>, ops: seq<Op>, replies: seq<Reply>, seens: seq<Seen>) {
    && |states| == |ops| + 1 && |replies| == |seens| == |ops|
    && forall i :: 0 <= i < |ops| ==> Explains(lim, states[i], ops[i], replies[i], seens[i], states[i + 1])
  }

  /** A hard limit is kept at every point. */
  ghost predicate WithinCapacity(lim: Limits, states: seq<View>) {
    forall i :: 0 <= i < |states| && !lim.soft ==> |states[i].bytes| + states[i].room <= lim.capacity
  }

  /** The bytes an operation adds at the end. */
  ghost function Entered(op: Op, r: Reply): seq<Byte> {
    match op
    case WriteOp(bytes) => if r.n <= |bytes| then bytes[..r.n] else []
    case SipOp(_) => r.bytes
    case _ => []
  }

  /** The bytes an operation takes away from the front. */
  ghost function Left(before: seq<Byte>, op: Op): seq<Byte> {
    match op
    case ReadOp(len) => before[..Min(len, |before|)]
    case SkipOp(amount) => before[..Min(amount, |before|)]
    case ResetOp => before
    case _ => []
  }

  /** The bytes an operation takes from the reader. */
  ghost function Sipped(op: Op, r: Reply): seq<Byte> {
    if op.SipOp? then r.bytes else []
  }

  ghost function AllSipped(ops: seq<Op>, replies: seq<Reply>): seq<Byte>
    requires |ops| == |replies|
  {
    var n := |ops| - 1;
    if n < 0 then [] else AllSipped(ops[..n], replies[..n]) + Sipped(ops[n], replies[n])
  }

  lemma SippedMore(ops: seq<Op>, replies: seq<Reply>, op: Op, r: Reply)
    requires |ops| == |replies|
    ensures AllSipped(ops + [op], replies + [r]) == AllSipped(ops, replies) + Sipped(op, r)
  {
    assert (ops + [op])[..|ops|] == ops && (replies + [r])[..|ops|] == replies;
  }

  ghost function Refusals(seens: seq<Seen>): nat {
    if seens == [] then 0 else Refusals(seens[..|seens| - 1]) + seens[|seens| - 1].refusals
  }

  ghost function Sayings(seens: seq<Seen>): seq<Saying> {
    if seens == [] then [] else Sayings(seens[..|seens| - 1]) + seens[|seens| - 1].sayings
  }

  lemma SeenMore(seens: seq<Seen>, seen: Seen)
    ensures Refusals(seens + [seen]) == Refusals(seens) + seen.refusals
    ensures Sayings(seens + [seen]) == Sayings(seens) + seen.sayings
  {
    assert (seens + [seen])[..|seens|] == seens;
  }

  ghost function AllEntered(ops: seq<Op>, replies: seq<Reply>): seq<Byte>
    requires |ops| == |replies|
  {
    if ops == [] then [] else Entered(ops[0], replies[0]) + AllEntered(ops[1..], replies[1..])
  }

  ghost function AllLeft(states: seq<View>, ops: seq<Op>): seq<Byte>
    requires |states| == |ops| + 1
  {
    if ops == [] then [] else Left(states[0].bytes, ops[0]) + AllLeft(states[1..], ops[1..])
  }

  /** First in, first out: over any run, what left and then what is queued is what was queued and then what entered. */
  lemma {:induction false} FifoOverRuns(lim: Limits, states: seq<View>, ops: seq<Op>, replies: seq<Reply>,
                                        seens: seq<Seen>)
    requires Run(lim, states, ops, replies, seens)
    ensures AllLeft(states, ops) + states[|ops|].bytes == states[0].bytes + AllEntered(ops, replies)
  {
    hide Explains, Left, Entered;
    if ops != [] {
      var rest := AllEntered(ops[1..], replies[1..]);
      var first, last := states[0].bytes, states[|ops|].bytes;
      assert Explains(lim, states[0], ops[0], replies[0], seens[0], states[1]);
      assert Run(lim, states[1..], ops[1..], replies[1..], seens[1..]) by {
        forall i | 0 <= i < |ops[1..]|
          ensures Explains(lim, states[1..][i], ops[1..][i], replies[1..][i], seens[1..][i], states[1..][i + 1])
        {
          assert Explains(lim, states[i + 1], ops[i + 1], replies[i + 1], seens[i + 1], states[i + 2]);
        }
      }
      FifoOverRuns(lim, states[1..], ops[1..], replies[1..], seens[1..]);
      OneStep(lim, states[0], ops[0], replies[0], seens[0], states[1]);
      calc {
        AllLeft(states, ops) + last;
        Left(first, ops[0]) + (AllLeft(states[1..], ops[1..]) + last);
        Left(first, ops[0]) + (states[1].bytes + rest);
        (Left(first, ops[0]) + states[1].bytes) + rest;
        (first + Entered(ops[0], replies[0])) + rest;
      }
    }
  }

  lemma OneStep(lim: Limits, before: View, op: Op, r: Reply, seen: Seen, after: View)
    requires Explains(lim, before, op, r, seen, after)
    ensures Left(before.bytes, op) + after.bytes == before.bytes + Entered(op, r)
  {
  }

  ghost function ViewOf(q: BufQueue): View
    reads q, q.mem
  {
    View(q.Contents(), q.Room())
  }

  ghost function LimitsOf(q: BufQueue): Limits {
    Limits(q.softLimit, q.maxChunks * q.chunkSize)
  }

  /** What a reader has produced and said. */
  datatype Fed = Fed(produced: seq<Byte>, sayings: seq<Saying>)

  ghost function FedBy(src: Source): Fed
    reads src
  {
    Fed(src.produced, src.sayings)
  }

  method Perform(q: BufQueue, src: Source, op: Op) returns (r: Reply, ghost seen: Seen)
    requires q.Valid()
    modifies q, q.pool, q.mem, src
    ensures q.Valid() && q.Rest() == old(q.Rest())
    ensures Explains(LimitsOf(q), old(ViewOf(q)), op, r, seen, ViewOf(q))
    ensures q.mem.refusals == old(q.mem.refusals) + seen.refusals
    ensures FedBy(src) == Fed(old(src.produced) + Sipped(op, r), old(src.sayings) + seen.sayings)
  {
    hide BufQueue.Valid, BufQueue.Contents, BufQueue.Rest, BufQueue.Room, Explains;
    seen := NOTHING;
    match op
    case WriteOp(bytes) =>
      r := Put(q, bytes);
      seen := NOTHING.(refusals := if r.code == OutOfMemory then 1 else 0);
    case ReadOp(_) => r := Remove(q, op);
    case SkipOp(_) => r := Remove(q, op);
    case ResetOp => r := Remove(q, op);
    case PeekOp => r := Look(q, op);
    case PeekAtOp(_) => r := Look(q, op);
    case LenOp => r := Look(q, op);
    case SipOp(maxLen) => r, seen := Sip(q, src, maxLen);
  }

  method Put(q: BufQueue, bytes: seq<Byte>) returns (r: Reply)
    requires q.Valid()
    modifies q, q.pool, q.mem
    ensures q.Valid() && q.Rest() == old(q.Rest())
    ensures var seen := NOTHING.(refusals := if r.code == OutOfMemory then 1 else 0);
            && Explains(LimitsOf(q), old(ViewOf(q)), WriteOp(bytes), r, seen, ViewOf(q))
            && q.mem.refusals == old(q.mem.refusals) + seen.refusals
  {
    hide BufQueue.Valid, BufQueue.Contents, BufQueue.Rest, BufQueue.Room;
    var code, n := q.Write(bytes);
    r := Reply(code, n, []);
  }

  method Remove(q: BufQueue, op: Op) returns (r: Reply)
    requires q.Valid() && (op.ReadOp? || op.SkipOp? || op.ResetOp?)
    modifies q, q.pool, q.mem`cells
    ensures q.Valid() && q.Rest() == old(q.Rest())
    ensures Explains(LimitsOf(q), old(ViewOf(q)), op, r, NOTHING, ViewOf(q))
  {
    hide BufQueue.Valid, BufQueue.Contents, BufQueue.Rest, BufQueue.Room;
    match op
    case ReadOp(len) =>
      var buf := new Byte[len](_ => 0);
      var code, n := q.Read(buf, len);
      r := Reply(code, n, buf[..n]);
    case SkipOp(amount) =>
      q.Skip(amount);
      r := Reply(Ok, 0, []);
    case ResetOp =>
      q.Reset();
      r := Reply(Ok, 0, []);
  }

  method Look(q: BufQueue, op: Op) returns (r: Reply)
    requires q.Valid() && (op.PeekOp? || op.PeekAtOp? || op.LenOp?)
    modifies q, q.pool, q.mem`cells
    ensures q.Valid() && q.Rest() == old(q.Rest())
    ensures Explains(LimitsOf(q), old(ViewOf(q)), op, r, NOTHING, ViewOf(q))
  {
    hide BufQueue.Valid, BufQueue.Contents, BufQueue.Rest, BufQueue.Room, Shows;
    match op
    case PeekOp =>
      var found, p, at, len := q.Peek();
      if found {
        Shown(q.mem.cells, p, at, len, q.Contents());
      }
      r := Reply(Ok, len, if found then q.mem.cells[p].data[at..at + len] else []);
    case PeekAtOp(offset) =>
      var found, p, at, len := q.PeekAt(offset);
      if found {
        Shown(q.mem.cells, p, at, len, q.Contents()[offset..]);
      }
      r := Reply(Ok, len, if found then q.mem.cells[p].data[at..at + len] else []);
    case LenOp =>
      var n := q.Len();
      r := Reply(Ok, n, []);
  }

  method Sip(q: BufQueue, src: Source, maxLen: nat) returns (r: Reply, ghost seen: Seen)
    requires q.Valid()
    modifies q, q.pool, q.mem, src
    ensures q.Valid() && q.Rest() == old(q.Rest())
    ensures Explains(LimitsOf(q), old(ViewOf(q)), SipOp(maxLen), r, seen, ViewOf(q))
    ensures q.mem.refusals == old(q.mem.refusals) + seen.refusals
    ensures FedBy(src) == Fed(old(src.produced) + r.bytes, old(src.sayings) + seen.sayings)
  {
    hide BufQueue.Valid, BufQueue.Contents, BufQueue.Rest, BufQueue.Room;
    var len := q.Len();
    var code, n := Sipn(q, maxLen, src);
    ghost var got: seq<Byte> :| |got| == (if code == Ok then n else 0)
                                && src.produced == old(src.produced) + got && q.Contents() == old(q.Contents()) + got;
    var bytes := Tail(q, len, if code == Ok then n else 0);
    assert (old(q.Contents()) + got)[len..] == got;
    r := Reply(code, n, bytes);
    seen := Seen(q.mem.refusals - old(q.mem.refusals), src.sayings[|old(src.sayings)|..]);
  }

  /** The `n` queued bytes from `offset` on, put together from the pieces that `PeekAt` shows. */
  method Tail(q: BufQueue, offset: nat, n: nat) returns (bytes: seq<Byte>)
    requires q.Valid() && offset + n == |q.Contents()|
    ensures bytes == q.Contents()[offset..]
  {
    bytes := [];
    while |bytes| < n
      invariant |bytes| <= n && bytes == q.Contents()[offset..offset + |bytes|]
    {
      var found, p, at, len := q.PeekAt(offset + |bytes|);
      assert q.Contents()[offset + |bytes|..][..len] == q.Contents()[offset + |bytes|..offset + |bytes| + len];
      bytes := bytes + q.mem.cells[p].data[at..at + len];
    }
  }

  /** So far: a run of the specification up to the view `now`, with all that the reader has done since `start`. */
  ghost predicate Along(lim: Limits, states: seq<View>, ops: seq<Op>, replies: seq<Reply>, seens: seq<Seen>, now: View,
                        start: Fed, fed: Fed) {
    && Run(lim, states, ops, replies, seens) && WithinCapacity(lim, states) && states[|ops|] == now
    && fed == Fed(start.produced + AllSipped(ops, replies), start.sayings + Sayings(seens))
  }

  lemma AlongMore(lim: Limits, states: seq<View>, ops: seq<Op>, replies: seq<Reply>, seens: seq<Seen>, now: View,
                  start: Fed, fed: Fed, op: Op, r: Reply, seen: Seen, now2: View)
    requires Along(lim, states, ops, replies, seens, now, start, fed) && Explains(lim, now, op, r, seen, now2)
    requires WithinCapacity(lim, [now2])
    ensures Along(lim, states + [now2], ops + [op], replies + [r], seens + [seen], now2, start,
                  Fed(fed.produced + Sipped(op, r), fed.sayings + seen.sayings))
    ensures (states + [now2])[0] == states[0]
  {
    hide Explains, AllSipped, Sipped, Sayings;
    SippedMore(ops, replies, op, r);
    SeenMore(seens, seen);
    Regroup(start.produced, AllSipped(ops, replies), Sipped(op, r));
    Regroup(start.sayings, Sayings(seens), seen.sayings);
  }

  lemma AlongNothing(lim: Limits, now: View, start: Fed)
    requires WithinCapacity(lim, [now])
    ensures Along(lim, [now], [], [], [], now, start, start)
  {
  }

  lemma AlongFifo(lim: Limits, states: seq<View>, ops: seq<Op>, replies: seq<Reply>, seens: seq<Seen>, now: View,
                  start: Fed, fed: Fed)
    requires Along(lim, states, ops, replies, seens, now, start, fed)
    ensures Run(lim, states, ops, replies, seens) && WithinCapacity(lim, states) && states[|ops|] == now
    ensures fed == Fed(start.produced + AllSipped(ops, replies), start.sayings + Sayings(seens))
    ensures AllLeft(states, ops) + now.bytes == states[0].bytes + AllEntered(ops, replies)
  {
    FifoOverRuns(lim, states, ops, replies, seens);
  }

  /** Every run of the queue is a run of the specification, from any valid queue. */
  method PerformAll(q: BufQueue, src: Source, ops: seq<Op>)
    returns (replies: seq<Reply>, ghost seens: seq<Seen>, ghost states: seq<View>)
    requires q.Valid()
    modifies q, q.pool, q.mem, src
    ensures q.Valid() && q.Rest() == old(q.Rest())
    ensures Run(LimitsOf(q), states, ops, replies, seens) && WithinCapacity(LimitsOf(q), states)
    ensures states[0] == old(ViewOf(q)) && states[|ops|] == ViewOf(q)
    ensures AllLeft(states, ops) + q.Contents() == old(q.Contents()) + AllEntered(ops, replies)
    ensures FedBy(src) == Fed(old(src.produced) + AllSipped(ops, replies), old(src.sayings) + Sayings(seens))
    ensures q.mem.refusals == old(q.mem.refusals) + Refusals(seens)
  {
    hide BufQueue.Valid, BufQueue.Contents, BufQueue.Rest, BufQueue.Room, Explains, AllLeft, AllEntered, Along;
    replies, seens, states := [], [], [ViewOf(q)];
    Fits(q);
    AlongNothing(LimitsOf(q), ViewOf(q), FedBy(src));
    for i := 0 to |ops|
      invariant q.Valid() && q.Rest() == old(q.Rest())
      invariant Along(LimitsOf(q), states, ops[..i], replies, seens, ViewOf(q), old(FedBy(src)), FedBy(src))
      invariant |states| > 0 && states[0] == old(ViewOf(q))
      invariant q.mem.refusals == old(q.mem.refusals) + Refusals(seens)
    {
      var r;
      ghost var seen, before, fed := NOTHING, ViewOf(q), FedBy(src);
      r, seen := Perform(q, src, ops[i]);
      Fits(q);
      SeenMore(seens, seen);
      AlongMore(LimitsOf(q), states, ops[..i], replies, seens, before, old(FedBy(src)), fed, ops[i], r, seen,
                ViewOf(q));
      assert ops[..i + 1] == ops[..i] + [ops[i]];
      replies, seens, states := replies + [r], seens + [seen], states + [ViewOf(q)];
    }
    assert ops[..|ops|] == ops;
    AlongFifo(LimitsOf(q), states, ops, replies, seens, ViewOf(q), old(FedBy(src)), FedBy(src));
  }

  lemma Fits(q: BufQueue)
    requires q.Valid()
    ensures WithinCapacity(LimitsOf(q), [ViewOf(q)])
  {
    hide BufQueue.Valid, BufQueue.Contents, BufQueue.Room;
    if !q.softLimit {
      q.Capacity();
    }
  }

  // ---------- two queues on one pool

  /** The queues share memory and pool but no chunk. */
  ghost predicate Share(q1: BufQueue, q2: BufQueue)
    reads q1, q2
  {
    && q1 != q2 && q1.mem == q2.mem && q1.pool == q2.pool
    && Disjoint(q1.heads + q1.spares, q2.heads + q2.spares)
  }

  /** What is in none of the lists is in the memory, in no pooled chunk, and nothing else is. */
  lemma RestIs(l: Lists)
    ensures forall c :: c in l.Rest() <==> c in l.m && c !in l.heads && c !in l.spares && c !in l.pooled
    ensures forall c :: c in l.Rest() ==> l.Rest()[c] == l.m[c]
  {
  }

  /** The lists of `l` are in the part `rest` of the memory, which is the same in `l2` and not pooled there. */
  lemma Undisturbed(l: Lists, l2: Lists, size: nat, rest: Heap)
    requires l.Ok(size) && l2 == l.(pooled := l2.pooled, m := l2.m)
    requires forall c :: c in l.heads + l.spares ==> c in rest && c in l.m && rest[c] == l.m[c]
    requires forall c :: c in rest ==> c in l2.m && l2.m[c] == rest[c] && c !in l2.pooled
    ensures l2.Ok(size) && BytesOf(l2.heads, l2.m) == BytesOf(l.heads, l.m) && Agree(l.heads, l.m, l2.m)
  {
    hide Packed, BytesOf, IsList;
    ListElsewhere(l.heads, l.m, l2.m, l.head, size);
    ListElsewhere(l.spares, l.m, l2.m, l.spare, size);
  }

  lemma OutOfReach(q1: BufQueue, q2: BufQueue)
    requires q1.Valid() && q2.Valid() && Share(q1, q2)
    ensures forall c :: c in q2.heads + q2.spares ==>
                          c in q1.Rest() && c in q2.mem.cells && q1.Rest()[c] == q2.mem.cells[c]
  {
    hide Packed, IsList;
    ListNodes(q2.heads, q2.mem.cells, q2.head, q2.chunkSize);
    ListNodes(q2.spares, q2.mem.cells, q2.spare, q2.chunkSize);
    RestIs(q1.Ls());
  }

  /** An operation on one queue leaves the other one on the pool as it is. */
  method PerformBeside(q1: BufQueue, q2: BufQueue, src: Source, op: Op) returns (r: Reply, ghost seen: Seen)
    requires q1.Valid() && q2.Valid() && Share(q1, q2)
    modifies q1, q1.pool, q1.mem, src
    ensures q1.Valid() && q2.Valid() && Share(q1, q2) && ViewOf(q2) == old(ViewOf(q2))
    ensures Explains(LimitsOf(q1), old(ViewOf(q1)), op, r, seen, ViewOf(q1))
    ensures q1.mem.refusals == old(q1.mem.refusals) + seen.refusals
    ensures FedBy(src) == Fed(old(src.produced) + Sipped(op, r), old(src.sayings) + seen.sayings)
  {
    hide Packed, BytesOf, IsList, Explains, Lists.Rest;
    ghost var l, rest := q2.Ls(), q1.Rest();
    OutOfReach(q1, q2);
    r, seen := Perform(q1, src, op);
    RestIs(q1.Ls());
    Undisturbed(l, q2.Ls(), q2.chunkSize, rest);
  }

  /** An operation on the first or on the second of two queues. */
  datatype Turn = Turn(first: bool, op: Op)

  /** What one of the queues is asked to do, in order. */
  ghost function OpsOf(turns: seq<Turn>, first: bool): seq<Op> {
    if turns == [] then []
    else
      var t := turns[|turns| - 1];
      var ops := OpsOf(turns[..|turns| - 1], first);
      if t.first == first then ops + [t.op] else ops
  }

  lemma NoTurns()
    ensures OpsOf([], true) == OpsOf([], false) == []
  {
  }

  lemma OneMoreTurn(turns: seq<Turn>, i: nat, first: bool)
    requires i < |turns|
    ensures OpsOf(turns[..i + 1], first)
         == if turns[i].first == first then OpsOf(turns[..i], first) + [turns[i].op] else OpsOf(turns[..i], first)
  {
    assert turns[..i + 1][..i] == turns[..i];
  }

  /**
   * Operations on two queues that share a pool, in any order, and each with its own reader: to its user each queue
   * is the only one there is. Only the memory that they share can refuse a chunk to either.
   */
  method RunBoth(q1: BufQueue, q2: BufQueue, src1: Source, src2: Source, turns: seq<Turn>)
    returns (replies1: seq<Reply>, replies2: seq<Reply>, ghost seens1: seq<Seen>, ghost seens2: seq<Seen>,
             ghost states1: seq<View>, ghost states2: seq<View>)
    requires q1.Valid() && q2.Valid() && Share(q1, q2) && src1 != src2
    modifies q1, q2, q1.pool, q1.mem, src1, src2
    ensures q1.Valid() && q2.Valid() && Share(q1, q2)
    ensures Along(LimitsOf(q1), states1, OpsOf(turns, true), replies1, seens1, ViewOf(q1),
                  old(FedBy(src1)), FedBy(src1))
    ensures Along(LimitsOf(q2), states2, OpsOf(turns, false), replies2, seens2, ViewOf(q2),
                  old(FedBy(src2)), FedBy(src2))
    ensures states1[0] == old(ViewOf(q1)) && states2[0] == old(ViewOf(q2))
    ensures q1.mem.refusals == old(q1.mem.refusals) + Refusals(seens1) + Refusals(seens2)
    ensures AllLeft(states1, OpsOf(turns, true)) + q1.Contents()
         == old(q1.Contents()) + AllEntered(OpsOf(turns, true), replies1)
    ensures AllLeft(states2, OpsOf(turns, false)) + q2.Contents()
         == old(q2.Contents()) + AllEntered(OpsOf(turns, false), replies2)
  {
    hide BufQueue.Valid, BufQueue.Contents, BufQueue.Room, Explains, OpsOf, Share, Along, AllLeft, AllEntered;
    replies1, replies2, seens1, seens2, states1, states2 := [], [], [], [], [ViewOf(q1)], [ViewOf(q2)];
    Fits(q1);
    Fits(q2);
    NoTurns();
    AlongNothing(LimitsOf(q1), ViewOf(q1), FedBy(src1));
    AlongNothing(LimitsOf(q2), ViewOf(q2), FedBy(src2));
    for i := 0 to |turns|
      invariant q1.Valid() && q2.Valid() && Share(q1, q2)
      invariant Along(LimitsOf(q1), states1, OpsOf(turns[..i], true), replies1, seens1, ViewOf(q1),
                      old(FedBy(src1)), FedBy(src1))
      invariant Along(LimitsOf(q2), states2, OpsOf(turns[..i], false), replies2, seens2, ViewOf(q2),
                      old(FedBy(src2)), FedBy(src2))
      invariant |states1| > 0 && states1[0] == old(ViewOf(q1)) && |states2| > 0 && states2[0] == old(ViewOf(q2))
      invariant q1.mem.refusals == old(q1.mem.refusals) + Refusals(seens1) + Refusals(seens2)
    {
      var op, r := turns[i].op, Reply(Ok, 0, []);
      ghost var seen;
      OneMoreTurn(turns, i, true);
      OneMoreTurn(turns, i, false);
      if turns[i].first {
        ghost var before, fed := ViewOf(q1), FedBy(src1);
        r, seen := PerformBeside(q1, q2, src1, op);
        Fits(q1);
        AlongMore(LimitsOf(q1), states1, OpsOf(turns[..i], true), replies1, seens1, before, old(FedBy(src1)), fed,
                  op, r, seen, ViewOf(q1));
        SeenMore(seens1, seen);
        replies1, seens1, states1 := replies1 + [r], seens1 + [seen], states1 + [ViewOf(q1)];
      } else {
        ghost var before, fed := ViewOf(q2), FedBy(src2);
        ShareBack(q1, q2);
        r, seen := PerformBeside(q2, q1, src2, op);
        ShareBack(q2, q1);
        Fits(q2);
        AlongMore(LimitsOf(q2), states2, OpsOf(turns[..i], false), replies2, seens2, before, old(FedBy(src2)), fed,
                  op, r, seen, ViewOf(q2));
        SeenMore(seens2, seen);
        replies2, seens2, states2 := replies2 + [r], seens2 + [seen], states2 + [ViewOf(q2)];
      }
    }
    assert turns[..|turns|] == turns;
    AlongFifo(LimitsOf(q1), states1, OpsOf(turns, true), replies1, seens1, ViewOf(q1), old(FedBy(src1)), FedBy(src1));
    AlongFifo(LimitsOf(q2), states2, OpsOf(turns, false), replies2, seens2, ViewOf(q2), old(FedBy(src2)), FedBy(src2));
  }

  lemma ShareBack(q1: BufQueue, q2: BufQueue)
    requires Share(q1, q2)
    ensures Share(q2, q1)
  {
    forall c | c in q2.heads + q2.spares
      ensures c !in q1.heads + q1.spares
    {
    }
  }

  /** In particular, whatever runs on one queue, the other one stays as it is. */
  method RunBeside(q1: BufQueue, q2: BufQueue, src: Source, ops: seq<Op>) returns (replies: seq<Reply>)
    requires q1.Valid() && q2.Valid() && Share(q1, q2)
    modifies q1, q1.pool, q1.mem, src
    ensures q1.Valid() && q2.Valid() && Share(q1, q2)
    ensures q2.Contents() == old(q2.Contents())
  {
    hide Packed, BytesOf, IsList, Lists.Rest;
    ghost var l, rest := q2.Ls(), q1.Rest();
    OutOfReach(q1, q2);
    ghost var seens, states;
    replies, seens, states := PerformAll(q1, src, ops);
    RestIs(q1.Ls());
    Undisturbed(l, q2.Ls(), q2.chunkSize, rest);
  }
}
