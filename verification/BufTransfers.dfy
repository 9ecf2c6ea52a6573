/** Moving bytes between a byte queue and callbacks: pass, write_pass, sipn and slurp (bufq.c). */
module BufTransfers {
  import opened Common
  import opened Chunks
  import opened BufQueues

  /**
   * Any writer callback: it takes at most what it is offered. On an error it takes nothing, but the number it
   * leaves behind may be any.
   */
  class Sink {
    ghost var taken: seq<Byte>
    // how often it was called, and what it said and took the last time
    ghost var calls: nat
    ghost var said: Code
    ghost var took: nat
    ghost var offered: seq<Byte>
    ghost var passes: seq<bool> // of each pass, whether the queue was full when it began

    /** The last call was blocked, or took nothing. */
    ghost predicate Blocked()
      reads this
    {
      said == Again || (said == Ok && took == 0)
    }

    method Write(buf: seq<Byte>) returns (code: Code, n: nat)
      modifies this
      ensures code != OutOfMemory && (code == Ok ==> n <= |buf|)
      ensures taken == if code == Ok && n > 0 then old(taken) + buf[..n] else old(taken)
      ensures calls == old(calls) + 1 && said == code && took == n && offered == buf && passes == old(passes)
    {
      code, n := *, *;
      if code == OutOfMemory || (code == Ok && n > |buf|) {
        code := Again;
      }
      if code == Ok {
        taken := taken + buf[..n];
      }
      calls, said, took, offered := calls + 1, code, n, buf;
    }
  }

  /** One answer of a reader: its code, the number it left, and the space that it was offered. */
  datatype Saying = Saying(code: Code, n: nat, space: nat)

  /**
   * Any reader callback: it may overwrite the whole space it is offered, but what it says it read is
   * at most that. On an error the number it leaves behind may be any, and counts for nothing. An endless one never
   * runs dry; any other produces at most `left` bytes from here on.
   */
  class Source {
    const endless: bool
    var left: nat
    ghost var produced: seq<Byte>
    // how often it was called, and what it said and gave the last time
    ghost var calls: nat
    ghost var said: Code
    ghost var gave: nat
    ghost var sayings: seq<Saying> // all of them

    method Read(space: nat) returns (code: Code, n: nat, region: seq<Byte>)
      modifies this
      ensures |region| == space && code != OutOfMemory && (code == Ok ==> n <= space)
      ensures produced == if code == Ok then old(produced) + region[..n] else old(produced)
      ensures !endless ==> left + (if code == Ok then n else 0) <= old(left)
      ensures calls == old(calls) + 1 && said == code && gave == n
      ensures sayings == old(sayings) + [Saying(code, n, space)]
    {
      code, n, region := *, *, *;
      if |region| != space {
        region := seq(space, _ => 0);
      }
      if code == OutOfMemory || (code == Ok && (n > space || (n > left && !endless))) {
        code := Again;
      }
      if code == Ok {
        produced := produced + region[..n];
        left := if n <= left then left - n else 0;
      }
      calls, said, gave, sayings := calls + 1, code, n, sayings + [Saying(code, n, space)];
    }
  }

  /** Hands queued bytes to the writer until it blocks or fails, or the queue is empty. */
  method Pass(q: BufQueue, sink: Sink) returns (code: Code, n: nat)
    requires q.Valid()
    modifies q, q.pool, q.mem`cells, sink
    ensures q.Valid() && q.Rest() == old(q.Rest())
    ensures sink.taken + q.Contents() == old(sink.taken) + old(q.Contents())
    ensures |sink.taken| == |old(sink.taken)| + n
    ensures code != OutOfMemory && (code == Again ==> n == 0)
    ensures code == Ok && n == 0 ==> old(q.Contents()) == []
    ensures sink.calls > old(sink.calls) <==> old(q.Contents()) != []
    ensures old(sink.calls) <= sink.calls
    ensures code == Ok ==> q.Contents() == [] || sink.Blocked()
    ensures code == Again ==> sink.calls > old(sink.calls) && sink.Blocked()
    ensures code.Failed? ==> sink.calls > old(sink.calls) && sink.said == code
    ensures sink.passes == old(sink.passes) + [old(q.Full())]
  {
    hide BufQueue.Valid, BufQueue.Contents, BufQueue.Rest, BufQueue.Room, BufQueue.Full;
    hide Shows, ToChunkEnd, Together;
    sink.passes := sink.passes + [q.Full()];
    n, code := 0, Ok;
    ghost var total := sink.taken + q.Contents();
    Start(sink.taken, q.Contents());
    var found, p, at, len := q.Peek();
    while found
      invariant q.Valid() && q.Rest() == old(q.Rest()) && code == Ok
      invariant Together(sink.taken, q.Contents(), total) && |sink.taken| == |old(sink.taken)| + n
      invariant found <==> q.Contents() != []
      invariant found ==> Shows(q.mem.cells, p, at, len, q.Contents()) && ToChunkEnd(q.mem.cells, p, at, len)
      invariant sink.passes == old(sink.passes) + [old(q.Full())]
      invariant n == 0 ==> q.Contents() == old(q.Contents()) && sink.calls == old(sink.calls)
      invariant n > 0 ==> sink.calls > old(sink.calls) && old(q.Contents()) != []
      decreases |q.Contents()|
    {
      var k;
      code, k := PassPiece(q, p, at, len, sink, total);
      if code != Ok {
        if code == Again && n > 0 {
          code := Ok;
        }
        break;
      }
      if k == 0 {
        if n == 0 {
          code := Again;
        }
        break;
      }
      n := n + k;
      found, p, at, len := q.Peek();
    }
    Finish(sink.taken, q.Contents(), total);
  }

  /** Offers the writer the first piece, and drops what it took. */
  method PassPiece(q: BufQueue, p: Ptr, at: nat, len: nat, sink: Sink, ghost total: seq<Byte>)
    returns (code: Code, k: nat)
    requires q.Valid() && Shows(q.mem.cells, p, at, len, q.Contents()) && ToChunkEnd(q.mem.cells, p, at, len)
    requires Together(sink.taken, q.Contents(), total)
    modifies q, q.pool, q.mem`cells, sink
    ensures q.Valid() && q.Rest() == old(q.Rest()) && Together(sink.taken, q.Contents(), total)
    ensures sink.calls == old(sink.calls) + 1 && sink.said == code && sink.took == k && code != OutOfMemory
    ensures sink.passes == old(sink.passes)
    ensures sink.offered == old(q.mem.cells[p].data[at..at + len])
    ensures if code == Ok && k > 0
            then |sink.taken| == |old(sink.taken)| + k && |q.Contents()| < |old(q.Contents())|
            else sink.taken == old(sink.taken) && q.Contents() == old(q.Contents())
  {
    hide BufQueue.Valid, BufQueue.Contents, BufQueue.Rest, BufQueue.Room, Shows, ToChunkEnd, Together;
    ghost var before, all := sink.taken, q.Contents();
    Shown(q.mem.cells, p, at, len, all);
    var piece := q.mem.cells[p].data[at..at + len];
    code, k := sink.Write(piece);
    if code == Ok && k > 0 {
      MovedOver(before, all, piece, k, total);
      q.Skip(k);
    }
  }

  /** What the sink has and what is queued make up `total`. */
  ghost predicate Together(taken: seq<Byte>, queued: seq<Byte>, total: seq<Byte>) {
    taken + queued == total
  }

  lemma Start(taken: seq<Byte>, queued: seq<Byte>)
    ensures Together(taken, queued, taken + queued)
  {
  }

  lemma Finish(taken: seq<Byte>, queued: seq<Byte>, total: seq<Byte>)
    requires Together(taken, queued, total)
    ensures taken + queued == total
  {
  }

  lemma Shown(m: Heap, p: Ptr, at: nat, len: nat, bytes: seq<Byte>)
    requires Shows(m, p, at, len, bytes)
    ensures p in m && at + len <= |m[p].data| && 0 < len && m[p].data[at..at + len] <= bytes
  {
  }

  lemma MovedOver(taken: seq<Byte>, queued: seq<Byte>, piece: seq<Byte>, k: nat, total: seq<Byte>)
    requires piece <= queued && k <= |piece| && Together(taken, queued, total)
    ensures Min(k, |queued|) == k && Together(taken + piece[..k], queued[k..], total)
  {
    assert piece[..k] == queued[..k];
  }

  /** Passes on what is queued if the queue is full, and does nothing otherwise. */
  method MakeRoom(q: BufQueue, sink: Sink) returns (code: Code)
    requires q.Valid()
    modifies q, q.pool, q.mem`cells, sink
    ensures q.Valid() && q.Rest() == old(q.Rest())
    ensures sink.taken + q.Contents() == old(sink.taken) + old(q.Contents())
    ensures code != OutOfMemory && old(sink.calls) <= sink.calls
    ensures code.Failed? ==> sink.calls > old(sink.calls) && sink.said == code
    ensures code == Again || (code == Ok && !q.softLimit && q.Room() == 0) ==>
              sink.calls > old(sink.calls) && sink.Blocked()
    ensures sink.passes == old(sink.passes) + if old(q.Full()) then [true] else []
    ensures !old(q.Full()) ==>
              code == Ok && unchanged(sink) && q.Contents() == old(q.Contents()) && q.Room() == old(q.Room())
  {
    hide BufQueue.Valid, BufQueue.Contents, BufQueue.Rest, BufQueue.Room, BufQueue.IsFull, BufQueue.Full;
    code := Ok;
    q.FullIffNoRoom();
    if q.IsFull() {
      if q.Contents() == [] {
        q.EmptyHasRoom();
      }
      var passed;
      code, passed := Pass(q, sink);
      if q.Contents() == [] {
        q.EmptyHasRoom();
      }
    }
  }

  /** Since `before`, passes began only on a full queue. */
  ghost predicate OnlyWhenFull(before: seq<bool>, now: seq<bool>) {
    before <= now && forall k :: |before| <= k < |now| ==> now[k]
  }

  lemma OneMorePass(before: seq<bool>, now: seq<bool>, full: bool)
    ensures OnlyWhenFull(before, before)
    ensures OnlyWhenFull(before, now) ==> OnlyWhenFull(before, now + if full then [true] else [])
    ensures OnlyWhenFull(before, now) && full ==> before != now + [true]
  {
  }

  /** A hard-limited queue has room for `buf`; one with a soft limit takes anything as long as it is not full. */
  ghost predicate Fits(q: BufQueue, buf: seq<Byte>)
    reads q, q.mem
  {
    if q.softLimit then !q.Full() else |buf| <= q.Room()
  }

  /** Queues `buf`, passing on what is queued whenever the queue is full, and only then. */
  method WritePass(q: BufQueue, buf: seq<Byte>, sink: Sink) returns (code: Code, w: nat)
    requires q.Valid()
    modifies q, q.pool, q.mem, sink
    ensures q.Valid() && q.Rest() == old(q.Rest()) && w <= |buf|
    ensures code != OutOfMemory ==>
              sink.taken + q.Contents() == old(sink.taken) + old(q.Contents()) + buf[..w]
    ensures code == OutOfMemory ==>
              exists m :: w <= m <= |buf| &&
                sink.taken + q.Contents() == old(sink.taken) + old(q.Contents()) + buf[..m]
    ensures q.mem.refusals == old(q.mem.refusals) + if code == OutOfMemory then 1 else 0
    ensures code == Again ==> w == 0 && buf != []
    ensures code == Ok && w == 0 ==> buf == []
    ensures code.Failed? ==> sink.calls > old(sink.calls) && sink.said == code
    ensures code in {Ok, Again} && w < |buf| ==> sink.calls > old(sink.calls) && sink.Blocked()
    ensures OnlyWhenFull(old(sink.passes), sink.passes)
    ensures sink.passes == old(sink.passes) ==> unchanged(sink)
    ensures old(Fits(q, buf)) ==>
              unchanged(sink) && (code != OutOfMemory ==>
                                    code == Ok && w == |buf| && q.Contents() == old(q.Contents()) + buf)
  {
    w, code := 0, Ok;
    hide BufQueue.Valid, BufQueue.Contents, BufQueue.Rest, BufQueue.Room, BufQueue.Full, Sink.Blocked;
    hide OnlyWhenFull, Accounted, Queued, Fits;
    ghost var start, was, fits := sink.taken + q.Contents(), q.Contents(), Fits(q, buf);
    FittingIsNotFull(q, buf);
    OneMorePass(sink.passes, sink.passes, false);
    NothingYet(sink.taken, was, buf);
    while w < |buf|
      invariant q.Valid() && q.Rest() == old(q.Rest()) && w <= |buf| && code == Ok
      invariant Accounted(sink.taken, q.Contents(), start, buf, w)
      invariant q.mem.refusals == old(q.mem.refusals) && old(sink.calls) <= sink.calls
      invariant OnlyWhenFull(old(sink.passes), sink.passes)
      invariant sink.passes == old(sink.passes) ==> unchanged(sink)
      invariant fits ==> unchanged(sink) && Queued(q.Contents(), was, buf, w)
      invariant fits ==> (w == 0 && Takes(q, |buf|) && !q.Full()) || w == |buf|
    {
      var roomy, n;
      roomy, code, n := PassAndWrite(q, buf, w, sink, start, was, old(sink.passes));
      Account(sink.taken, q.Contents(), start, was, buf, w + n);
      if !roomy {
        if code != Again {
          return;
        }
        break;
      }
      if code != Ok {
        if code == Again && w > 0 {
          code := Ok;
        }
        return;
      } else if n == 0 {
        break;
      }
      w := w + n;
    }
    Account(sink.taken, q.Contents(), start, was, buf, w);
    code := if w == 0 && buf != [] then Again else Ok;
  }

  /** One turn: makes room if the queue is full, and then, if it is `roomy`, queues more of `buf`. */
  method PassAndWrite(q: BufQueue, buf: seq<Byte>, w: nat, sink: Sink, ghost start: seq<Byte>, ghost was: seq<Byte>,
                      ghost passes: seq<bool>)
    returns (roomy: bool, code: Code, n: nat)
    requires q.Valid() && w < |buf| && OnlyWhenFull(passes, sink.passes)
    requires Accounted(sink.taken, q.Contents(), start, buf, w)
    modifies q, q.pool, q.mem, sink
    ensures q.Valid() && q.Rest() == old(q.Rest()) && w + n <= |buf|
    ensures Accounted(sink.taken, q.Contents(), start, buf, w + n) && OnlyWhenFull(passes, sink.passes)
    ensures sink.passes == old(sink.passes) + (if old(q.Full()) then [true] else [])
    ensures if old(q.Full()) then sink.passes != passes && old(sink.calls) <= sink.calls else roomy && unchanged(sink)
    ensures q.mem.refusals == old(q.mem.refusals) + if code == OutOfMemory then 1 else 0
    ensures !roomy ==> code != Ok && code != OutOfMemory && n == 0
    ensures roomy ==> code in {Ok, Again, OutOfMemory} && (code == Again ==> n == 0)
    ensures code.Failed? ==> sink.calls > old(sink.calls) && sink.said == code
    ensures code == Again || (code == Ok && n == 0) ==> sink.calls > old(sink.calls) && sink.Blocked()
    ensures old(Queued(q.Contents(), was, buf, w) && Takes(q, |buf| - w) && !q.Full()) ==>
              Queued(q.Contents(), was, buf, w + n) && (code != OutOfMemory ==> code == Ok && w + n == |buf|)
  {
    hide BufQueue.Valid, BufQueue.Contents, BufQueue.Rest, BufQueue.Room, BufQueue.Full, Sink.Blocked;
    hide OnlyWhenFull, Accounted, Queued;
    ghost var taken, before := sink.taken, q.Contents();
    q.FullIffNoRoom();
    OneMorePass(passes, sink.passes, q.Full());
    n := 0;
    code := MakeRoom(q, sink);
    PassedOn(taken, before, sink.taken, q.Contents(), start, buf, w);
    roomy := code == Ok;
    if roomy {
      ghost var queued := q.Contents();
      code, n := q.Write(buf[w..]);
      Wrote(sink.taken, queued, q.Contents(), start, was, buf, w, n);
    }
  }

  /** What the sink has and what is queued are `start` and the first `w` bytes of `buf`. */
  ghost predicate Accounted(taken: seq<Byte>, queued: seq<Byte>, start: seq<Byte>, buf: seq<Byte>, w: nat) {
    w <= |buf| && taken + queued == start + buf[..w]
  }

  ghost predicate Queued(queued: seq<Byte>, was: seq<Byte>, buf: seq<Byte>, w: nat) {
    w <= |buf| && queued == was + buf[..w]
  }

  lemma NothingYet(taken: seq<Byte>, was: seq<Byte>, buf: seq<Byte>)
    ensures Accounted(taken, was, taken + was, buf, 0) && Queued(was, was, buf, 0)
  {
  }

  lemma PassedOn(taken: seq<Byte>, queued: seq<Byte>, taken2: seq<Byte>, queued2: seq<Byte>, start: seq<Byte>,
                 buf: seq<Byte>, w: nat)
    requires Accounted(taken, queued, start, buf, w) && taken2 + queued2 == taken + queued
    ensures Accounted(taken2, queued2, start, buf, w)
  {
  }

  lemma Wrote(taken: seq<Byte>, queued: seq<Byte>, queued2: seq<Byte>, start: seq<Byte>, was: seq<Byte>,
              buf: seq<Byte>, w: nat, n: nat)
    requires w + n <= |buf| && queued2 == queued + buf[w..][..n]
    ensures Accounted(taken, queued, start, buf, w) ==> Accounted(taken, queued2, start, buf, w + n)
    ensures Queued(queued, was, buf, w) ==> Queued(queued2, was, buf, w + n)
  {
    SliceMore(buf, w, n);
    Regroup(taken, queued, buf[w..][..n]);
    Regroup(start, buf[..w], buf[w..][..n]);
    Regroup(was, buf[..w], buf[w..][..n]);
  }

  lemma Account(taken: seq<Byte>, queued: seq<Byte>, start: seq<Byte>, was: seq<Byte>, buf: seq<Byte>, w: nat)
    requires w <= |buf|
    ensures Accounted(taken, queued, start, buf, w) ==> taken + queued == start + buf[..w]
    ensures Queued(queued, was, buf, w) && w == |buf| ==> queued == was + buf
  {
    assert buf[..|buf|] == buf;
  }

  /** A write of `n` bytes is not cut short. */
  ghost predicate Takes(q: BufQueue, n: nat)
    reads q, q.mem
  {
    q.softLimit || n <= q.Room()
  }

  lemma FittingIsNotFull(q: BufQueue, buf: seq<Byte>)
    requires q.Valid()
    ensures Fits(q, buf) && buf != [] ==> Takes(q, |buf|) && !q.Full()
  {
    hide BufQueue.Valid, BufQueue.Room, BufQueue.Full;
    q.FullIffNoRoom();
  }

  /** The space that a sip offers: the room of the tail or of a new chunk, no more than `maxLen` unless that is 0. */
  ghost function Offer(maxLen: nat, q: BufQueue, room: nat): nat {
    var space := if room > 0 then room else q.chunkSize;
    if maxLen != 0 && maxLen < space then maxLen else space
  }

  /** The same `n` bytes were added to what the reader produced and to what the queue holds. */
  ghost predicate Moved(produced: seq<Byte>, held: seq<Byte>, produced2: seq<Byte>, held2: seq<Byte>, n: nat) {
    exists got: seq<Byte> :: |got| == n && produced2 == produced + got && held2 == held + got
  }

  lemma MovedNone(p: seq<Byte>, c: seq<Byte>)
    ensures Moved(p, c, p, c, 0)
  {
    assert p == p + [] && c == c + [];
  }

  lemma MovedOn(p: seq<Byte>, c: seq<Byte>, p2: seq<Byte>, c2: seq<Byte>, n: nat, p3: seq<Byte>, c3: seq<Byte>, k: nat)
    requires Moved(p, c, p2, c2, n) && Moved(p2, c2, p3, c3, k)
    ensures Moved(p, c, p3, c3, n + k)
  {
    var got :| |got| == n && p2 == p + got && c2 == c + got;
    var got2 :| |got2| == k && p3 == p2 + got2 && c3 == c2 + got2;
    assert p3 == p + (got + got2) && c3 == c + (got + got2);
  }

  /** Reads once, at most `maxLen` bytes unless that is 0, into the free space of the tail. */
  method Sipn(q: BufQueue, maxLen: nat, src: Source) returns (code: Code, n: nat)
    requires q.Valid()
    modifies q, q.pool, q.mem, src
    ensures q.Valid() && q.Rest() == old(q.Rest())
    ensures var got := if code == Ok then n else 0;
            Moved(old(src.produced), old(q.Contents()), src.produced, q.Contents(), got)
    ensures maxLen != 0 && code == Ok ==> n <= maxLen
    ensures !q.softLimit ==> q.Room() == old(q.Room()) - if code == Ok then n else 0
    ensures !src.endless ==> src.left + (if code == Ok then n else 0) <= old(src.left)
    ensures code == OutOfMemory ==> q.mem.refusals != old(q.mem.refusals)
    ensures q.mem.refusals != old(q.mem.refusals) ==>
              && q.mem.refusals == old(q.mem.refusals) + 1
              && code == (if old(q.chunkCount) < q.maxChunks then OutOfMemory else Again)
              && q.chunkCount == old(q.chunkCount) && (q.chunkCount >= q.maxChunks ==> q.softLimit)
    ensures if q.mem.refusals != old(q.mem.refusals) || (!q.softLimit && old(q.Room()) == 0)
            then src.calls == old(src.calls) && code in {Again, OutOfMemory} && n == 0
            else src.calls == old(src.calls) + 1 && code == src.said && n == src.gave
    ensures var space := Offer(maxLen, q, old(q.TailRoom()));
            if src.calls == old(src.calls) then src.sayings == old(src.sayings)
            else
              && src.sayings == old(src.sayings) + [Saying(code, n, space)] && space > 0
              && (code == Ok && q.TailRoom() == 0 ==> n == space)
  {
    hide Packed, BytesOf, IsList, Disjoint, Lists.Rest, BufQueue.Rest, BufQueue.Contents, BufQueue.Room;
    n := 0;
    ghost var room := q.TailRoom();
    var tail := q.GetNonFullTail();
    if tail == NULL {
      MovedNone(src.produced, q.Contents());
      code := if q.chunkCount < q.maxChunks then OutOfMemory else Again;
      return;
    }
    q.TailAllocated();
    var c := q.mem.cells[tail];
    var space := |c.data| - c.wOff;
    if maxLen != 0 && space > maxLen {
      space := maxLen;
    }
    assert space == Offer(maxLen, q, room) && space > 0;
    hide Offer;
    var region;
    code, n, region := src.Read(space);
    q.FillTail(region, if code == Ok then n else 0);
  }

  /** One chunk of one byte under a soft limit, with a byte in it: the queue is at its maximum and its tail is full. */
  method OneByte(mem: Memory) returns (q: BufQueue, stored: bool)
    modifies mem
    ensures fresh(q) && q.Valid() && q.softLimit && q.mem == mem && q.pool == null && q.maxChunks == 1
    ensures stored ==> q.chunkCount == 1 && q.spares == [] && q.TailRoom() == 0 && mem.refusals == old(mem.refusals)
    ensures !stored ==> mem.refusals != old(mem.refusals)
  {
    hide BufQueue.Rest;
    q := new BufQueue(mem, null, 1, 1, true, false);
    stored := false;
    var tail := q.GetNonFullTail();
    if tail != NULL {
      assert q.heads == [tail];
      var k := q.AppendToTail([0]);
      assert q.chunkCount == 1 && q.spares == [] && q.TailRoom() == 0;
      stored := true;
    }
  }

  /** At its soft limit, a chunk refused to that queue is reported as "would block", without a call of the reader. */
  method RefusedAtSoftLimit(mem: Memory, src: Source) returns (q: BufQueue, stored: bool, code: Code)
    modifies mem, src
    ensures q.Valid() && q.softLimit && q.maxChunks == 1
    ensures !stored ==> mem.refusals != old(mem.refusals)
    ensures stored && mem.refusals != old(mem.refusals) ==>
              code == Again && src.calls == old(src.calls) && q.chunkCount == q.maxChunks
  {
    hide *;
    q, stored := OneByte(mem);
    code := Ok;
    if stored {
      var n;
      code, n := Sipn(q, 0, src);
    }
  }

  /** The answers since `was` were all successes that used the space offered. */
  ghost predicate AllFilled(was: seq<Saying>, now: seq<Saying>) {
    was <= now && forall k :: |was| <= k < |now| ==> now[k].code == Ok && now[k].n == now[k].space
  }

  /** All but the last of them were: after any other answer there is no further call. */
  ghost predicate FilledButLast(was: seq<Saying>, now: seq<Saying>) {
    was <= now && forall k :: |was| <= k < |now| - 1 ==> now[k].code == Ok && now[k].n == now[k].space
  }

  lemma SaidMore(was: seq<Saying>, now: seq<Saying>, next: seq<Saying>, said: Saying)
    requires AllFilled(was, now) && (next == now || next == now + [said])
    ensures FilledButLast(was, next)
    ensures next == now || (said.code == Ok && said.n == said.space) ==> AllFilled(was, next)
  {
  }

  /** Reads until the reader blocks, fails, ends or reads short, the queue is full, or `maxLen` is reached. */
  method Slurpn(q: BufQueue, maxLen: nat, src: Source) returns (code: Code, n: nat)
    requires q.Valid()
    requires maxLen != 0 || !q.softLimit || !src.endless
    modifies q, q.pool, q.mem, src
    ensures q.Valid() && q.Rest() == old(q.Rest())
    ensures Moved(old(src.produced), old(q.Contents()), src.produced, q.Contents(), n)
    ensures maxLen != 0 ==> n <= maxLen
    ensures !q.softLimit ==> q.Room() == old(q.Room()) - n
    ensures code == OutOfMemory <==> q.mem.refusals != old(q.mem.refusals) && q.chunkCount < q.maxChunks
    ensures code == Again <==>
              n == 0 && code != OutOfMemory && (src.calls == old(src.calls) || src.said == Again)
    ensures src.calls == old(src.calls) ==>
              n == 0 && (q.mem.refusals != old(q.mem.refusals) || (!q.softLimit && old(q.Room()) == 0))
    ensures code.Failed? ==> src.calls > old(src.calls) && src.said == code
    ensures code == Ok ==>
              || (maxLen != 0 && n == maxLen) || q.TailRoom() > 0 || src.said == Again || src.gave == 0
              || (!q.softLimit && q.Room() == 0) || q.mem.refusals != old(q.mem.refusals)
    ensures FilledButLast(old(src.sayings), src.sayings)
  {
    assert AllFilled(src.sayings, src.sayings);
    hide AllFilled, FilledButLast, Moved, Offer, BufQueue.Valid, BufQueue.Contents, BufQueue.Rest, BufQueue.Room;
    n := 0;
    var more := maxLen;
    MovedNone(src.produced, q.Contents());
    while true
      invariant q.Valid() && q.Rest() == old(q.Rest())
      invariant Moved(old(src.produced), old(q.Contents()), src.produced, q.Contents(), n)
      invariant !q.softLimit ==> q.Room() == old(q.Room()) - n
      invariant maxLen != 0 ==> 0 < more && n + more == maxLen
      invariant maxLen == 0 ==> more == 0
      invariant q.mem.refusals == old(q.mem.refusals)
      invariant src.calls >= old(src.calls) && (n > 0 <==> src.calls > old(src.calls))
      invariant AllFilled(old(src.sayings), src.sayings)
      decreases if maxLen != 0 then more else if !q.softLimit then q.Room() else src.left
    {
      ghost var said, space := src.sayings, Offer(more, q, q.TailRoom());
      ghost var produced, held := src.produced, q.Contents();
      var k;
      code, k := Sipn(q, more, src);
      SaidMore(old(src.sayings), said, src.sayings, Saying(code, k, space));
      MovedOn(old(src.produced), old(q.Contents()), produced, held, n,
        src.produced, q.Contents(), if code == Ok then k else 0);
      if code != Ok {
        if n > 0 && code == Again {
          code := Ok;
        }
        return;
      } else if k == 0 {
        return;
      }
      n := n + k;
      if maxLen != 0 {
        more := more - k;
        if more == 0 {
          return;
        }
      }
      q.TailAllocated();
      if q.tail != NULL && !q.mem.cells[q.tail].IsFull() {
        return;
      }
    }
  }
}
