/** The chunked byte queue (bufq.c): a FIFO of bytes over linked chunks, spares and a shared pool. */
module BufQueues {
  import opened Common
  import opened Chunks

  datatype Code = Ok | Again | OutOfMemory | Failed(error: nat)

  /** The lists of a queue, the nodes of its pool, and the memory, as one value. */
  datatype Lists = Lists(heads: seq<Ptr>, head: Ptr, spares: seq<Ptr>, spare: Ptr, pooled: seq<Ptr>, m: Heap)
  {
    /** Heads and spares are sound lists; they and the nodes of the pool are all different. */
    ghost predicate ListsOk(size: nat) {
      && size > 0
      && IsList(heads, m, head, size) && IsList(spares, m, spare, size)
      && Disjoint(heads, spares) && Disjoint(heads, pooled) && Disjoint(spares, pooled)
    }

    ghost predicate Ok(size: nat) {
      ListsOk(size) && Packed(heads, m)
    }

    /** Only the first chunk may have been read empty. */
    ghost predicate PackedAfterFirst() {
      heads != [] ==>
        && head in m && m[head].Tidy() && (|heads| > 1 ==> m[head].Filled() || m[head].IsEmpty())
        && Packed(heads[1..], m)
    }

    /** What still fits behind the last chunk, and into as many new ones as a hard limit leaves. */
    ghost function Room(size: nat, max: nat): nat {
      LastRoom() + Times(max - |heads|, size)
    }

    ghost function LastRoom(): nat {
      if heads == [] then 0
      else
        var t := heads[|heads| - 1];
        if t in m && m[t].wOff <= |m[t].data| then |m[t].data| - m[t].wOff else 0
    }

    ghost function Refs(): set<Ptr> {
      set c | c in heads + spares + pooled
    }

    /** The memory that is none of this queue's business. */
    ghost function Rest(): Heap {
      m - Refs()
    }

    /** The blank chunk `p` is in none of the lists. */
    ghost predicate Loose(p: Ptr, size: nat) {
      p != NULL && p in m && p !in Refs() && m[p].Ok(size) && m[p] == m[p].Reset()
    }

    /** `p` has been taken out of the lists `was`, or is new; nothing else has changed. */
    ghost predicate Took(p: Ptr, was: Lists, size: nat) {
      && Ok(size) && Loose(p, size) && heads == was.heads && head == was.head
      && BytesOf(heads, m) == BytesOf(heads, was.m) && Agree(heads, was.m, m)
      && Rest() - {p} == was.Rest()
    }
  }

  lemma FirstNode(cs: seq<Ptr>, m: Heap, first: Ptr, size: nat)
    requires IsList(cs, m, first, size) && (cs != [] || first != NULL)
    ensures cs != [] && first == cs[0] && first != NULL && first in m && m[first].Ok(size) && first !in cs[1..]
    ensures IsList(cs[1..], m, m[first].next, size)
  {
  }

  lemma TookSpare(l: Lists, size: nat)
    requires l.Ok(size) && l.spares != []
    ensures var p := l.spare;
            && p in l.m
            && var l2 := l.(spares := l.spares[1..], spare := l.m[p].next, m := l.m[p := l.m[p].Reset()]);
            && l2.Took(p, l, size) && Agree(l.pooled, l.m, l2.m)
  {
    hide Packed, BytesOf, IsList;
    var p := l.spare;
    FirstNode(l.spares, l.m, p, size);
    var m2 := l.m[p := l.m[p].Reset()];
    assert l.spares == [p] + l.spares[1..];
    ListElsewhere(l.heads, l.m, m2, l.head, size);
    ListElsewhere(l.spares[1..], l.m, m2, l.m[p].next, size);
  }

  lemma TookOther(l: Lists, size: nat, p: Ptr, pooled2: seq<Ptr>, cell: Chunk)
    requires l.Ok(size) && p != NULL && cell.Ok(size) && cell == cell.Reset()
    requires if l.pooled != [] then pooled2 == l.pooled[1..] && p == l.pooled[0] && p !in pooled2
             else pooled2 == [] && p !in l.m
    ensures l.(pooled := pooled2, m := l.m[p := cell]).Took(p, l, size)
  {
    hide IsList, Packed, BytesOf;
    var m2 := l.m[p := cell];
    if l.pooled != [] {
      assert l.pooled == [p] + pooled2;
    } else {
      ListNodes(l.heads, l.m, l.head, size);
      ListNodes(l.spares, l.m, l.spare, size);
    }
    ListElsewhere(l.heads, l.m, m2, l.head, size);
    ListElsewhere(l.spares, l.m, m2, l.spare, size);
  }

  /** `p` becomes the new tail behind the full chunk `t`, or the only chunk. */
  ghost function Linked(l: Lists, p: Ptr): Lists {
    if l.heads == [] then l.(heads := [p], head := p)
    else
      var t := l.heads[|l.heads| - 1];
      l.(heads := l.heads + [p], m := if t in l.m then l.m[t := l.m[t].(next := p)] else l.m)
  }

  lemma TailNode(l: Lists, size: nat)
    requires l.Ok(size) && l.heads != []
    ensures var k := |l.heads| - 1;
            var t := l.heads[k];
            && t != NULL && t in l.m && t !in l.heads[..k] && t !in l.spares && t !in l.pooled
            && l.m[t].next == NULL && l.m[t].Tidy() && l.m[t].Ok(size)
  {
    var k := |l.heads| - 1;
    assert l.heads == l.heads[..k] + [l.heads[k]];
    ListLastNode(l.heads[..k], l.heads[k], l.m, l.head, size);
  }

  lemma LinkedRefs(l: Lists, p: Ptr)
    ensures forall c :: c in Linked(l, p).Refs() <==> c in l.Refs() || c == p
  {
    assert Linked(l, p).heads == l.heads + [p];
  }

  lemma LinkedOk(l: Lists, p: Ptr, size: nat)
    requires l.Ok(size) && l.Loose(p, size)
    requires l.heads != [] ==> var t := l.heads[|l.heads| - 1]; t in l.m && l.m[t].IsFull()
    ensures Linked(l, p).Ok(size)
    ensures BytesOf(Linked(l, p).heads, Linked(l, p).m) == BytesOf(l.heads, l.m)
    ensures Agree(l.pooled, l.m, Linked(l, p).m)
  {
    if l.heads != [] {
      var k := |l.heads| - 1;
      var t := l.heads[k];
      TailNode(l, size);
      assert l.heads == l.heads[..k] + [t];
      ListLink(l.heads[..k], t, p, l.m, l.head, size);
      ListElsewhere(l.spares, l.m, Linked(l, p).m, l.spare, size);
    }
  }

  lemma LinkedRest(l: Lists, p: Ptr, size: nat)
    requires l.Ok(size)
    ensures Linked(l, p).Rest() == l.Rest() - {p}
  {
    LinkedRefs(l, p);
    if l.heads != [] {
      assert l.heads[|l.heads| - 1] in l.Refs();
    }
  }

  lemma SameRest(l: Lists, c: Ptr, cell: Chunk)
    requires c in l.heads
    ensures l.(m := l.m[c := cell]).Rest() == l.Rest()
  {
    assert c in l.Refs();
  }

  lemma TailSetHeads(l: Lists, size: nat, cell: Chunk)
    requires l.Ok(size) && l.heads != [] && cell.Ok(size) && cell.Tidy() && cell.next == NULL
    ensures var t := l.heads[|l.heads| - 1];
            t in l.m && IsList(l.heads, l.m[t := cell], l.head, size) && Packed(l.heads, l.m[t := cell])
  {
    hide IsList, Packed;
    var k := |l.heads| - 1;
    TailNode(l, size);
    assert l.heads == l.heads[..k] + [l.heads[k]];
    ListSetLast(l.heads[..k], l.heads[k], l.m, l.head, size, cell);
  }

  /** The tail gets new content. */
  lemma TailSet(l: Lists, size: nat, cell: Chunk)
    requires l.Ok(size) && l.heads != [] && cell.Ok(size) && cell.Tidy() && cell.next == NULL
    ensures var t := l.heads[|l.heads| - 1];
            var l2 := l.(m := l.m[t := cell]);
            t in l.m && l2.Ok(size) && l2.Rest() == l.Rest() && Agree(l.pooled, l.m, l2.m)
  {
    hide IsList, Packed, Lists.Rest, Lists.Refs;
    var t := l.heads[|l.heads| - 1];
    TailNode(l, size);
    TailSetHeads(l, size, cell);
    ListElsewhere(l.spares, l.m, l.m[t := cell], l.spare, size);
    SameRest(l, t, cell);
  }

  lemma TailSetBytes(l: Lists, size: nat, cell: Chunk, more: seq<Byte>)
    requires l.Ok(size) && l.heads != []
    requires var t := l.heads[|l.heads| - 1]; t in l.m && cell.Bytes() == l.m[t].Bytes() + more
    ensures BytesOf(l.heads, l.m[l.heads[|l.heads| - 1] := cell]) == BytesOf(l.heads, l.m) + more
  {
    hide *;
    var k := |l.heads| - 1;
    var t := l.heads[k];
    var front := l.heads[..k];
    TailNode(l, size);
    assert l.heads == front + [t];
    calc {
      BytesOf(front + [t], l.m[t := cell]);
      { BytesOfLast(front, t, l.m[t := cell]); }
      BytesOf(front, l.m[t := cell]) + cell.Bytes();
      { BytesElsewhere(front, t, l.m, cell); }
      BytesOf(front, l.m) + (l.m[t].Bytes() + more);
      { BytesOfLast(front, t, l.m); }
      BytesOf(front + [t], l.m) + more;
    }
  }

  /** Up to `k` bytes are taken out of the first chunk. */
  lemma HeadTake(l: Lists, size: nat, k: nat)
    requires l.Ok(size) && l.heads != []
    ensures var l2 := l.(m := l.m[l.head := l.m[l.head].Take(k)]);
            l2.ListsOk(size) && l2.PackedAfterFirst() && l2.Rest() == l.Rest() && Agree(l.pooled, l.m, l2.m)
  {
    hide BytesOf, Lists.Rest;
    var m2 := l.m[l.head := l.m[l.head].Take(k)];
    assert l.heads == [l.head] + l.heads[1..];
    ListElsewhere(l.heads[1..], l.m, m2, l.m[l.head].next, size);
    ListElsewhere(l.spares, l.m, m2, l.spare, size);
    SameRest(l, l.head, l.m[l.head].Take(k));
  }

  lemma HeadTakeBytes(l: Lists, size: nat, k: nat)
    requires l.Ok(size) && l.heads != []
    ensures var first := l.m[l.head].Bytes();
            && first <= BytesOf(l.heads, l.m)
            && BytesOf(l.heads, l.m[l.head := l.m[l.head].Take(k)]) == BytesOf(l.heads, l.m)[Min(k, |first|)..]
  {
    hide Packed, BytesOf, Chunk.Bytes, Chunk.Take, Disjoint;
    var cell := l.m[l.head].Take(k);
    var first, rest := l.m[l.head].Bytes(), BytesOf(l.heads[1..], l.m);
    FirstOfBytes(l.heads, l.m);
    FirstOfBytes(l.heads, l.m[l.head := cell]);
    ListElsewhere(l.heads[1..], l.m, l.m[l.head := cell], l.m[l.head].next, size);
    DropFirst(first, rest, Min(k, |first|));
  }

  lemma DropFirst(first: seq<Byte>, rest: seq<Byte>, n: nat)
    requires n <= |first|
    ensures (first + rest)[n..] == first[n..] + rest && first <= first + rest
  {
  }

  lemma PrefixOff(all: seq<Byte>, first: seq<Byte>, n: nat)
    requires first <= all && n <= |first|
    ensures all == first[..n] + all[n..]
  {
  }

  lemma SliceOff(all: seq<Byte>, n: nat, bytes: seq<Byte>, rest: seq<Byte>)
    requires n <= |all| && all[n..] == bytes + rest
    ensures n + |bytes| <= |all| && all[..n + |bytes|] == all[..n] + bytes && all[n + |bytes|..] == rest
  {
    assert all == all[..n] + (bytes + rest);
  }

  lemma SliceLater(s: seq<Byte>, t: seq<Byte>, n: nat, k: nat)
    requires n + k <= |s| == |t| && s[n..] == t[n..]
    ensures s[n + k..] == t[n + k..]
  {
    assert s[n + k..] == s[n..][k..] && t[n + k..] == t[n..][k..];
  }

  /** What becomes of the unlinked chunk: it joins the spares or the pool, or it is freed. */
  ghost predicate PutAway(l: Lists, l2: Lists)
    requires l.heads != [] && l.head in l.m
  {
    var c := l.head;
    && l2.heads == l.heads[1..] && l2.head == l.m[c].next
    && (|| (l2.spares == [c] + l.spares && l2.spare == c && l2.pooled == l.pooled
            && l2.m == l.m[c := l.m[c].(next := l.spare)])
        || (l2.spares == l.spares && l2.spare == l.spare && l2.pooled == [c] + l.pooled
            && c in l2.m && l2.m == l.m[c := l2.m[c]])
        || (l2.spares == l.spares && l2.spare == l.spare && l2.pooled == l.pooled && l2.m == l.m - {c}))
  }

  lemma PutAwayOk(l: Lists, l2: Lists, size: nat)
    requires l.ListsOk(size) && l.heads != [] && l.head in l.m && PutAway(l, l2)
    ensures l2.ListsOk(size) && BytesOf(l2.heads, l2.m) == BytesOf(l.heads[1..], l.m)
    ensures Packed(l.heads[1..], l.m) ==> Packed(l2.heads, l2.m)
  {
    hide Packed, BytesOf;
    var c := l.head;
    assert l.heads == [c] + l.heads[1..];
    ListElsewhere(l.heads[1..], l.m, l2.m, l.m[c].next, size);
    ListElsewhere(l.spares, l.m, l2.m, l.spare, size);
  }

  /** Putting away a chunk never costs room: the last one stays as it is, or a whole new one fits. */
  lemma PutAwayRoom(l: Lists, l2: Lists, size: nat, max: nat)
    requires l.ListsOk(size) && l.heads != [] && l.head in l.m && PutAway(l, l2) && |l.heads| <= max
    ensures l2.Room(size, max) >= l.Room(size, max)
  {
    hide Disjoint;
    ListNodes(l.heads, l.m, l.head, size);
  }

  lemma HeadTakeRoom(l: Lists, size: nat, k: nat, max: nat)
    requires l.Ok(size) && l.heads != []
    ensures l.head in l.m
    ensures l.(m := l.m[l.head := l.m[l.head].Take(k)]).Room(size, max) >= l.Room(size, max)
  {
    hide Disjoint, Packed, Times, IsList, Chunk.Take, Chunk.Bytes;
    ListNodes(l.heads, l.m, l.head, size);
    FirstIs(l.heads, l.m, l.head, size);
  }

  lemma PutAwayRest(l: Lists, l2: Lists)
    requires l.heads != [] && l.head == l.heads[0] && l.head in l.m && PutAway(l, l2)
    ensures l2.Rest() == l.Rest()
  {
    assert l.heads == [l.head] + l.heads[1..];
  }

  lemma FreedRest(l: Lists)
    ensures var own := set c | c in l.heads + l.spares;
            Lists([], NULL, [], NULL, l.pooled, l.m - own).Rest() == l.Rest()
  {
  }

  /** The `len` bytes from `at` on in the chunk `p` are the first ones of `bytes`. */
  ghost predicate Shows(m: Heap, p: Ptr, at: nat, len: nat, bytes: seq<Byte>) {
    p in m && at + len <= |m[p].data| && 0 < len <= |bytes| && m[p].data[at..at + len] == bytes[..len]
  }

  /** They reach up to the end of what was written to the chunk. */
  ghost predicate ToChunkEnd(m: Heap, p: Ptr, at: nat, len: nat) {
    p in m && m[p].rOff <= at && at + len == m[p].wOff
  }

  /** The list `cs` from `p` on holds what is left of `all` after its first `done` bytes. */
  ghost predicate Remaining(cs: seq<Ptr>, m: Heap, p: Ptr, size: nat, all: seq<Byte>, done: nat) {
    IsList(cs, m, p, size) && Packed(cs, m) && done <= |all| && BytesOf(cs, m) == all[done..]
  }

  lemma FirstRemaining(cs: seq<Ptr>, m: Heap, p: Ptr, size: nat, all: seq<Byte>, offset: nat, off: nat)
    requires off <= offset && Remaining(cs, m, p, size, all, offset - off) && p != NULL
    ensures cs != [] && p in m && m[p].Ok(size)
    ensures var clen := m[p].wOff - m[p].rOff;
            if clen == 0 then offset - off == |all|
            else if off < clen then
              && offset < |all| && Shows(m, p, off + m[p].rOff, clen - off, all[offset..])
              && ToChunkEnd(m, p, off + m[p].rOff, clen - off)
            else Remaining(cs[1..], m, m[p].next, size, all, offset - (off - clen))
  {
    hide IsList, Packed, BytesOf;
    FirstBytes(cs, m, p, size);
    var clen := m[p].wOff - m[p].rOff;
    SliceInto(all, offset - off, m[p].Bytes(), BytesOf(cs[1..], m), Min(off, clen));
    assert off < clen ==> all[offset..][..clen - off] == all[offset..offset + (clen - off)];
  }

  lemma NoneRemaining(cs: seq<Ptr>, m: Heap, p: Ptr, size: nat, all: seq<Byte>, done: nat)
    requires Remaining(cs, m, p, size, all, done)
    ensures done <= |all| && (p == NULL ==> done == |all|)
  {
    NothingInNoList(cs, m, p, size);
  }

  class BufQueue {
    const mem: Memory
    const pool: Pool?
    const chunkSize: nat
    const maxChunks: nat
    const softLimit: bool
    const noSpares: bool
    var head: Ptr
    var tail: Ptr
    var spare: Ptr
    var chunkCount: nat

    ghost var heads: seq<Ptr>
    ghost var spares: seq<Ptr>

    ghost function Pooled(): seq<Ptr>
      reads pool
    {
      if pool == null then [] else pool.spares
    }

    ghost function Ls(): Lists
      reads this, pool, mem
    {
      Lists(heads, head, spares, spare, Pooled(), mem.cells)
    }

    /** The memory that is none of this queue's business. */
    ghost function Rest(): Heap
      reads this, pool, mem
    {
      Ls().Rest()
    }

    ghost predicate Shape()
      reads this, pool, mem
    {
      && maxChunks > 0 && Ls().ListsOk(chunkSize)
      && (pool != null ==> pool.mem == mem && pool.Valid() && pool.chunkSize == chunkSize)
      && tail == (if heads == [] then NULL else heads[|heads| - 1])
    }

    ghost predicate Sound()
      reads this, pool, mem
    {
      Shape() && Packed(heads, mem.cells)
    }

    ghost predicate Counted()
      reads this
    {
      chunkCount == |heads| + |spares| && (!softLimit ==> chunkCount <= maxChunks)
    }

    ghost predicate Valid()
      reads this, pool, mem
    {
      Sound() && Counted()
    }

    ghost function Contents(): seq<Byte>
      reads this, mem
    {
      BytesOf(heads, mem.cells)
    }

    ghost function TailRoom(): nat
      reads this, mem
    {
      if tail != NULL && tail in mem.cells && mem.cells[tail].wOff <= |mem.cells[tail].data|
      then |mem.cells[tail].data| - mem.cells[tail].wOff else 0
    }

    /** What a hard-limited queue can still take in. */
    ghost function Room(): nat
      reads this, mem
    {
      TailRoom() + Times(maxChunks - |heads|, chunkSize)
    }

    /** No spare chunk, and more than the maximum in use, or the maximum and no room behind the last one. */
    ghost predicate Full()
      reads this, mem
    {
      heads != [] && spares == [] && (|heads| > maxChunks || (|heads| == maxChunks && TailRoom() == 0))
    }

    constructor (mem: Memory, pool: Pool?, chunkSize: nat, maxChunks: nat, softLimit: bool, noSpares: bool)
      requires chunkSize > 0 && maxChunks > 0
      requires pool != null ==> pool.mem == mem && pool.Valid() && pool.chunkSize == chunkSize
      ensures Valid() && Contents() == [] && heads == [] && spares == []
      ensures this.mem == mem && this.pool == pool
      ensures this.chunkSize == chunkSize && this.maxChunks == maxChunks
      ensures this.softLimit == softLimit && this.noSpares == noSpares
    {
      this.mem, this.pool, this.chunkSize, this.maxChunks := mem, pool, chunkSize, maxChunks;
      this.softLimit, this.noSpares := softLimit, noSpares;
      head, tail, spare, chunkCount := NULL, NULL, NULL, 0;
      heads, spares := [], [];
    }

    // ---------- getting a chunk

    method TakeSpare() returns (p: Ptr)
      requires Valid() && spare != NULL
      modifies `spare, `spares, mem`cells
      ensures Sound() && Ls().Took(p, old(Ls()), chunkSize) && |spares| == |old(spares)| - 1
    {
      hide IsList, Packed, BytesOf, Lists.Rest, Lists.Refs, Lists.Loose;
      FirstNode(spares, mem.cells, spare, chunkSize);
      TookSpare(Ls(), chunkSize);
      if pool != null {
        ListElsewhere(pool.spares, mem.cells, mem.cells[spare := mem.cells[spare].Reset()], pool.spare, chunkSize);
      }
      p := spare;
      spare := mem.cells[p].next;
      spares := spares[1..];
      mem.cells := mem.cells[p := mem.cells[p].Reset()];
    }

    /** A chunk from the pool, or from the system if there is none; NULL if it is refused. */
    method TakeNew() returns (p: Ptr)
      requires Valid()
      modifies pool, mem
      ensures Sound()
      ensures p == NULL ==> Ls() == old(Ls()) && mem.refusals == old(mem.refusals) + 1
      ensures p != NULL ==> Ls().Took(p, old(Ls()), chunkSize) && mem.refusals == old(mem.refusals)
    {
      ghost var l := Ls();
      if pool != null {
        p := pool.Take();
      } else {
        p := mem.Calloc(chunkSize);
      }
      if p != NULL {
        TookOther(l, chunkSize, p, Pooled(), mem.cells[p]);
      }
    }

    /** NULL iff the hard limit is reached without a spare, or the system refused a chunk. */
    method GetSpare() returns (p: Ptr)
      requires Valid()
      modifies `spare, `spares, `chunkCount, pool, mem
      ensures Sound() && chunkCount == |heads| + |spares| + (if p == NULL then 0 else 1)
      ensures !softLimit ==> chunkCount <= maxChunks
      ensures p == NULL ==>
                && Ls() == old(Ls()) && spares == []
                && mem.refusals == old(mem.refusals) + if chunkCount >= maxChunks && !softLimit then 0 else 1
      ensures p != NULL ==> Ls().Took(p, old(Ls()), chunkSize) && mem.refusals == old(mem.refusals)
      ensures |spares| == if old(spares) == [] then 0 else |old(spares)| - 1
    {
      if spare != NULL {
        p := TakeSpare();
      } else if chunkCount >= maxChunks && !softLimit {
        p := NULL;
      } else {
        p := TakeNew();
        if p != NULL {
          chunkCount := chunkCount + 1;
        }
      }
    }

    /** Makes `p` the new tail, and possibly the new head. */
    method Link(p: Ptr)
      requires Sound() && Ls().Loose(p, chunkSize)
      requires tail != NULL ==> tail in mem.cells && mem.cells[tail].IsFull()
      modifies `head, `tail, `heads, mem`cells
      ensures Sound() && heads == old(heads) + [p] && TailRoom() == chunkSize
      ensures Contents() == old(Contents()) && Rest() == old(Rest()) - {p}
    {
      hide IsList, BytesOf, Packed, Lists.Rest;
      ghost var l := Ls();
      if heads != [] {
        TailNode(l, chunkSize);
      }
      LinkedOk(l, p, chunkSize);
      LinkedRest(l, p, chunkSize);
      if pool != null {
        ListElsewhere(pool.spares, mem.cells, Linked(l, p).m, pool.spare, chunkSize);
      }
      if tail != NULL {
        mem.cells := mem.cells[tail := mem.cells[tail].(next := p)];
        tail := p;
      } else {
        head, tail := p, p;
      }
      heads := heads + [p];
      assert Ls() == Linked(l, p);
    }

    /** A chunk with room, newly linked in if the tail has none; NULL as `GetSpare` says. */
    method GetNonFullTail() returns (p: Ptr)
      requires Valid()
      modifies this, pool, mem
      ensures Valid() && Contents() == old(Contents()) && Rest() == old(Rest())
      ensures !softLimit ==> Room() == old(Room())
      ensures p == NULL ==>
                && heads == old(heads) && spares == old(spares) == [] && TailRoom() == 0
                && chunkCount == old(chunkCount)
                && mem.refusals == old(mem.refusals) + if chunkCount >= maxChunks && !softLimit then 0 else 1
      ensures p == NULL ==> (mem.refusals == old(mem.refusals) <==> !softLimit && Room() == 0)
      ensures p != NULL ==> p == tail && 0 < TailRoom() <= Room() && mem.refusals == old(mem.refusals)
      ensures p != NULL ==> TailRoom() == if old(TailRoom()) > 0 then old(TailRoom()) else chunkSize
      ensures p != NULL ==>
                || (heads == old(heads) && spares == old(spares))
                || (heads == old(heads) + [p] && |spares| == if old(spares) == [] then 0 else |old(spares)| - 1)
    {
      hide IsList, BytesOf, Packed, Lists.Rest;
      if heads != [] {
        TailNode(Ls(), chunkSize);
      }
      if tail != NULL && !mem.cells[tail].IsFull() {
        return tail;
      }
      p := GetSpare();
      if p != NULL {
        Link(p);
      }
    }

    // ---------- writing

    method AppendToTail(buf: seq<Byte>) returns (n: nat)
      requires Valid() && heads != []
      modifies mem`cells
      ensures Valid() && Rest() == old(Rest())
      ensures n == Min(old(TailRoom()), |buf|) && Room() == old(Room()) - n
      ensures Contents() == old(Contents()) + buf[..n]
    {
      hide IsList, BytesOf, Packed, Lists.Rest, Chunk.Append, Chunk.Bytes;
      TailNode(Ls(), chunkSize);
      var r := mem.cells[tail].Append(buf);
      n := r.1;
      TailSet(Ls(), chunkSize, r.0);
      TailSetBytes(Ls(), chunkSize, r.0, buf[..n]);
      if pool != null {
        ListElsewhere(pool.spares, mem.cells, mem.cells[tail := r.0], pool.spare, chunkSize);
      }
      mem.cells := mem.cells[tail := r.0];
    }

    /** A reader has written `region` into the tail's free space; its first `k` bytes are data. */
    method FillTail(region: seq<Byte>, k: nat)
      requires Valid() && heads != [] && k <= |region| <= TailRoom()
      modifies mem`cells
      ensures Valid() && Rest() == old(Rest())
      ensures Room() == old(Room()) - k && TailRoom() == old(TailRoom()) - k
      ensures Contents() == old(Contents()) + region[..k]
    {
      hide IsList, BytesOf, Packed, Lists.Rest, Chunk.Fill, Chunk.Bytes;
      TailNode(Ls(), chunkSize);
      var r := mem.cells[tail].Fill(region, k);
      TailSet(Ls(), chunkSize, r);
      TailSetBytes(Ls(), chunkSize, r, region[..k]);
      if pool != null {
        ListElsewhere(pool.spares, mem.cells, mem.cells[tail := r], pool.spare, chunkSize);
      }
      mem.cells := mem.cells[tail := r];
    }

    /** Appends as much of `buf` as there is room for; more only with a soft limit. */
    method Write(buf: seq<Byte>) returns (code: Code, n: nat)
      requires Valid()
      modifies this, pool, mem
      ensures Valid() && Rest() == old(Rest())
      ensures n <= |buf| && Contents() == old(Contents()) + buf[..n]
      ensures code in {Ok, Again, OutOfMemory}
      ensures mem.refusals == old(mem.refusals) + if code == OutOfMemory then 1 else 0
      ensures code == OutOfMemory ==> n < |buf| && (!softLimit ==> n < old(Room()))
      ensures code != OutOfMemory ==> n == if softLimit then |buf| else Min(|buf|, old(Room()))
      ensures code == Again <==> code != OutOfMemory && n == 0 && buf != []
      ensures !softLimit ==> Room() == old(Room()) - n
      ensures |spares| >= |old(spares)| - n
    {
      hide Valid, Contents, Rest, Room, TailRoom;
      n := 0;
      while n < |buf|
        invariant Valid() && Rest() == old(Rest())
        invariant n <= |buf| && Contents() == old(Contents()) + buf[..n]
        invariant mem.refusals == old(mem.refusals) && |spares| >= |old(spares)| - n
        invariant !softLimit ==> Room() == old(Room()) - n
      {
        var p := GetNonFullTail();
        if p == NULL {
          if chunkCount < maxChunks || softLimit {
            return OutOfMemory, n;
          }
          break;
        }
        TailAllocated();
        var k := AppendToTail(buf[n..]);
        if k == 0 {
          break;
        }
        SliceMore(buf, n, k);
        n := n + k;
      }
      code := if n == 0 && buf != [] then Again else Ok;
    }

    // ---------- reading

    /** Takes the first chunk off the head list and keeps it, pools it or frees it. */
    method DropHead()
      requires Shape() && Counted() && heads != [] && Packed(heads[1..], mem.cells)
      modifies this, pool, mem`cells
      ensures Shape() && Counted() && Packed(heads, mem.cells) && Rest() == old(Rest())
      ensures heads == old(heads)[1..]
      ensures Contents() == BytesOf(old(heads)[1..], old(mem.cells))
      ensures !softLimit ==> Room() >= old(Room())
    {
      hide IsList, Packed, BytesOf, Lists.Rest, Lists.Room, Room;
      ghost var l := Ls();
      FirstNode(heads, mem.cells, head, chunkSize);
      RoomIs();
      var chunk := head;
      head := mem.cells[chunk].next;
      if tail == chunk {
        tail := head;
      }
      heads := heads[1..];
      if pool != null {
        pool.Put(chunk);
        chunkCount := chunkCount - 1;
      } else if chunkCount > maxChunks || noSpares {
        mem.Free(chunk);
        chunkCount := chunkCount - 1;
      } else {
        mem.cells := mem.cells[chunk := mem.cells[chunk].(next := spare)];
        spare := chunk;
        spares := [chunk] + spares;
      }
      PutAwayOk(l, Ls(), chunkSize);
      if |l.heads| <= maxChunks {
        PutAwayRoom(l, Ls(), chunkSize, maxChunks);
      }
      RoomIs();
      PutAwayRest(l, Ls());
    }

    /** Drops chunks without unread bytes from the front. */
    method PruneHead()
      requires Shape() && Counted() && Ls().PackedAfterFirst()
      modifies this, pool, mem`cells
      ensures Valid() && Contents() == old(Contents()) && Rest() == old(Rest())
      ensures heads != [] ==> !mem.cells[head].IsEmpty()
      ensures |heads| <= |old(heads)| && (heads == old(heads) || |heads| < |old(heads)|)
      ensures old(heads != [] && mem.cells[head].IsEmpty()) ==> |heads| < |old(heads)|
      ensures !softLimit ==> Room() >= old(Room())
    {
      hide BytesOf, Lists.Rest, Room, Disjoint;
      while head != NULL && mem.cells[head].IsEmpty()
        invariant Shape() && Counted() && Ls().PackedAfterFirst()
        invariant Contents() == old(Contents()) && Rest() == old(Rest())
        invariant !softLimit ==> Room() >= old(Room())
        invariant (heads == old(heads) && mem.cells == old(mem.cells) && head == old(head)) || |heads| < |old(heads)|
        decreases |heads|
      {
        FirstBytes(heads, mem.cells, head, chunkSize);
        DropHead();
      }
    }

    /** Takes up to `k` bytes out of the first chunk, and the chunk away with its last byte. */
    method ConsumeHead(k: nat) returns (bytes: seq<Byte>)
      requires Valid() && head != NULL && k > 0
      modifies this, pool, mem`cells
      ensures Valid() && Rest() == old(Rest())
      ensures |bytes| <= k && old(Contents()) == bytes + Contents()
      ensures |heads| <= |old(heads)| && (|bytes| < k ==> |heads| < |old(heads)|)
      ensures !softLimit ==> Room() >= old(Room())
    {
      hide Packed, BytesOf, Lists.Rest, Disjoint, IsList, Lists.PackedAfterFirst, Lists.Room, Room;
      ghost var all := Contents();
      FirstBytes(heads, mem.cells, head, chunkSize);
      RoomIs();
      HeadTakeRoom(Ls(), chunkSize, k, maxChunks);
      HeadTake(Ls(), chunkSize, k);
      HeadTakeBytes(Ls(), chunkSize, k);
      if pool != null {
        ListElsewhere(pool.spares, mem.cells, mem.cells[head := mem.cells[head].Take(k)], pool.spare, chunkSize);
      }
      bytes := mem.cells[head].Unread();
      PrefixOff(all, bytes, Min(k, |bytes|));
      bytes := bytes[..Min(k, |bytes|)];
      mem.cells := mem.cells[head := mem.cells[head].Take(k)];
      RoomIs();
      PruneHead();
    }

    /** Copies up to `len` bytes to the start of `buf` and removes them. */
    method Read(buf: array<Byte>, len: nat) returns (code: Code, n: nat)
      requires Valid() && len <= buf.Length
      modifies this, pool, mem`cells, buf
      ensures Valid() && Rest() == old(Rest())
      ensures n == Min(len, |old(Contents())|)
      ensures buf[..n] == old(Contents())[..n] && buf[n..] == old(buf[n..])
      ensures Contents() == old(Contents())[n..]
      ensures code == if n == 0 then Again else Ok
      ensures !softLimit ==> Room() >= old(Room())
    {
      hide Packed, BytesOf, Lists.Rest, Lists.ListsOk;
      n := 0;
      ghost var all, before := Contents(), buf[..];
      while n < len && head != NULL
        invariant Valid() && Rest() == old(Rest())
        invariant !softLimit ==> Room() >= old(Room())
        invariant n <= len && n <= |all| && Contents() == all[n..]
        invariant buf[..n] == all[..n] && buf[n..] == before[n..]
        decreases len - n + |heads|
      {
        var bytes := ConsumeHead(len - n);
        SliceOff(all, n, bytes, Contents());
        SliceLater(buf[..], before, n, |bytes|);
        CopyTo(buf, n, bytes);
        n := n + |bytes|;
      }
      HeadOrNothing();
      code := if n == 0 then Again else Ok;
    }

    /** Discards up to `amount` bytes. */
    method Skip(amount: nat)
      requires Valid()
      modifies this, pool, mem`cells
      ensures Valid() && Rest() == old(Rest())
      ensures Contents() == old(Contents())[Min(amount, |old(Contents())|)..]
      ensures !softLimit ==> Room() >= old(Room())
    {
      hide Packed, BytesOf, Lists.Rest, Lists.ListsOk;
      var left := amount;
      ghost var all := Contents();
      while left > 0 && head != NULL
        invariant Valid() && Rest() == old(Rest())
        invariant !softLimit ==> Room() >= old(Room())
        invariant 0 <= left <= amount && amount - left <= |all| && Contents() == all[amount - left..]
        decreases left + |heads|
      {
        var bytes := ConsumeHead(left);
        SliceOff(all, amount - left, bytes, Contents());
        left := left - |bytes|;
      }
      HeadOrNothing();
    }

    // ---------- looking

    predicate IsEmpty()
      reads this, mem
      requires head == NULL || head in mem.cells
    {
      head == NULL || mem.cells[head].IsEmpty()
    }

    predicate IsFull()
      reads this, mem
      requires tail == NULL || tail in mem.cells
    {
      if tail == NULL || spare != NULL then false
      else if chunkCount < maxChunks then false
      else if chunkCount > maxChunks then true
      else mem.cells[tail].IsFull()
    }

    /** Where the first unread bytes are: chunk `p`, from `at` on, `len` of them. */
    method Peek() returns (found: bool, p: Ptr, at: nat, len: nat)
      requires Valid()
      modifies this, pool, mem`cells
      ensures Valid() && Rest() == old(Rest()) && Contents() == old(Contents())
      ensures found <==> Contents() != []
      ensures found ==> Shows(mem.cells, p, at, len, Contents()) && ToChunkEnd(mem.cells, p, at, len)
      ensures !found ==> p == NULL && len == 0
      ensures !softLimit ==> Room() >= old(Room())
    {
      hide Lists.Rest;
      if head != NULL && mem.cells[head].IsEmpty() {
        PruneHead();
      }
      if head != NULL && !mem.cells[head].IsEmpty() {
        var c := mem.cells[head];
        assert Contents() == c.Bytes() + BytesOf(heads[1..], mem.cells);
        return true, head, c.rOff, c.wOff - c.rOff;
      }
      return false, NULL, 0, 0;
    }

    /** Where the bytes from `offset` on are, as far as one chunk holds them. */
    method PeekAt(offset: nat) returns (found: bool, p: Ptr, at: nat, len: nat)
      requires Valid()
      ensures found <==> offset < |Contents()|
      ensures found ==> Shows(mem.cells, p, at, len, Contents()[offset..]) && ToChunkEnd(mem.cells, p, at, len)
      ensures !found ==> p == NULL && len == 0
    {
      hide Shows, ToChunkEnd;
      ghost var rest, all := heads, Contents();
      found, at, len := false, 0, 0;
      var off := offset;
      p := head;
      while p != NULL
        invariant 0 <= off <= offset && Remaining(rest, mem.cells, p, chunkSize, all, offset - off)
        decreases |rest|
      {
        hide *;
        FirstRemaining(rest, mem.cells, p, chunkSize, all, offset, off);
        var c := mem.cells[p];
        var clen := c.wOff - c.rOff;
        if clen == 0 {
          break;
        }
        if off < clen {
          return true, p, off + c.rOff, clen - off;
        }
        off := off - clen;
        p := c.next;
        rest := rest[1..];
      }
      NoneRemaining(rest, mem.cells, p, chunkSize, all, offset - off);
      p := NULL;
    }

    method Len() returns (len: nat)
      requires Valid()
      ensures len == |Contents()|
    {
      len := 0;
      var p := head;
      ghost var rest := heads;
      while p != NULL
        invariant IsList(rest, mem.cells, p, chunkSize)
        invariant len + |BytesOf(rest, mem.cells)| == |Contents()|
        decreases |rest|
      {
        var c := mem.cells[p];
        len := len + (c.wOff - c.rOff);
        p := c.next;
        rest := rest[1..];
      }
    }

    // ---------- emptying

    /** Makes every head chunk a spare one. */
    method Reset()
      requires Valid()
      modifies this, mem`cells
      ensures Valid() && Rest() == old(Rest()) && Contents() == [] && chunkCount == old(chunkCount)
      ensures heads == [] && Room() == maxChunks * chunkSize
    {
      hide Lists.Rest;
      tail := NULL;
      while head != NULL
        invariant Ls().ListsOk(chunkSize) && Counted() && Rest() == old(Rest())
        invariant pool != null ==> pool.mem == mem && pool.Valid() && pool.chunkSize == chunkSize
        invariant maxChunks > 0 && tail == NULL && chunkCount == old(chunkCount)
        decreases |heads|
      {
        ghost var l := Ls();
        var chunk := head;
        head := mem.cells[chunk].next;
        mem.cells := mem.cells[chunk := mem.cells[chunk].(next := spare)];
        spare := chunk;
        heads, spares := heads[1..], [chunk] + spares;
        PutAwayOk(l, Ls(), chunkSize);
        PutAwayRest(l, Ls());
        if pool != null {
          ListElsewhere(pool.spares, l.m, mem.cells, pool.spare, chunkSize);
        }
      }
      TimesIsProduct(maxChunks, chunkSize);
    }

    method FreeLists()
      requires Valid()
      modifies mem`cells
      ensures mem.cells == old(mem.cells) - (set c | c in heads + spares)
      ensures pool != null ==> pool.Valid()
    {
      hide Packed, BytesOf;
      ghost var m := mem.cells;
      FreeList(mem, head, heads, chunkSize);
      ListElsewhere(spares, m, mem.cells, spare, chunkSize);
      FreeList(mem, spare, spares, chunkSize);
      if pool != null {
        ListElsewhere(pool.spares, m, mem.cells, pool.spare, chunkSize);
      }
    }

    /** Frees every chunk the queue holds; nothing is leaked and nothing else is freed. */
    method Free()
      requires Valid()
      modifies this, mem`cells
      ensures Valid() && Contents() == [] && heads == [] && spares == []
      ensures mem.cells == old(mem.cells) - (set c | c in old(heads) + old(spares)) && Rest() == old(Rest())
    {
      hide Lists.Rest;
      FreedRest(Ls());
      FreeLists();
      head, spare, tail, chunkCount := NULL, NULL, NULL, 0;
      heads, spares := [], [];
    }

    // ---------- what the invariant means

    lemma RoomIs()
      requires Shape()
      ensures Room() == Ls().Room(chunkSize, maxChunks)
    {
      ListNodes(heads, mem.cells, head, chunkSize);
    }

    lemma HeadOrNothing()
      requires Valid()
      ensures head == NULL ==> heads == [] && Contents() == []
    {
    }

    lemma TailAllocated()
      requires Valid()
      ensures tail == NULL <==> heads == []
      ensures tail != NULL ==> tail in mem.cells && mem.cells[tail].Ok(chunkSize)
    {
      if heads != [] {
        TailNode(Ls(), chunkSize);
      }
    }

    lemma EmptyIffNoContents()
      requires Valid()
      ensures head == NULL || head in mem.cells
      ensures IsEmpty() <==> Contents() == []
    {
      if heads != [] {
        assert Contents() == mem.cells[head].Bytes() + BytesOf(heads[1..], mem.cells);
      }
    }

    /**
     * A queue is full when it has all its chunks in use and no room behind the last one, or more chunks in use
     * than its maximum; with a spare chunk it never is. For a hard limit this is to have no room.
     */
    lemma FullIffNoRoom()
      requires Valid()
      ensures tail == NULL || tail in mem.cells
      ensures !softLimit ==> (IsFull() <==> Room() == 0)
      ensures IsFull() <==> Full()
    {
      hide Packed, BytesOf;
      if heads != [] {
        TailNode(Ls(), chunkSize);
      }
      assert spare != NULL <==> spares != [];
    }

    lemma EmptyHasRoom()
      requires Valid() && Contents() == []
      ensures Room() > 0
    {
      hide Disjoint;
      if heads != [] {
        FirstBytes(heads, mem.cells, head, chunkSize);
        TailAllocated();
      }
    }

    /** What is queued and the room behind it fit into the chunks in use. */
    lemma FitsIntoHeads()
      requires Valid()
      ensures |Contents()| + TailRoom() <= Times(|heads|, chunkSize)
    {
      hide Packed, BytesOf, Disjoint, Times;
      var k := |heads|;
      if heads != [] {
        TailNode(Ls(), chunkSize);
        assert heads == heads[..k - 1] + [tail];
        BytesBound(heads[..k - 1], tail, mem.cells, head, chunkSize);
      } else {
        HeadOrNothing();
      }
    }

    /** With chunks of one byte. */
    lemma HoldsOne()
      requires Valid() && chunkSize == 1
      ensures |Contents()| <= |heads| && chunkCount == |heads| + |spares|
    {
      hide Packed, BytesOf, Disjoint, IsList, Contents, TailRoom;
      FitsIntoHeads();
      TimesIsProduct(|heads|, 1);
    }

    /** A hard-limited queue never holds more than `maxChunks * chunkSize` bytes, its room included. */
    lemma Capacity()
      requires Valid() && !softLimit
      ensures |Contents()| + Room() <= maxChunks * chunkSize
    {
      hide Packed, BytesOf, Disjoint, Times, IsList, Contents, TailRoom;
      FitsIntoHeads();
      TimesAdd(|heads|, maxChunks - |heads|, chunkSize);
      TimesIsProduct(maxChunks, chunkSize);
    }
  }

  /**
   * A soft limit of one byte: three bytes are queued, a reset drops them, and two are queued again. The queue holds
   * twice its limit, and for the spare chunk that is left it does not report that it is full.
   */
  method PastLimitNotFull(mem: Memory) returns (q: BufQueue, stored: bool, full: bool)
    modifies mem
    ensures q.Valid() && q.softLimit && q.maxChunks * q.chunkSize == 1
    ensures stored <==> mem.refusals == old(mem.refusals)
    ensures stored ==> |q.Contents()| == 2 && !full
  {
    hide BufQueue.Valid, BufQueue.Contents, BufQueue.Rest, BufQueue.Room;
    q := new BufQueue(mem, null, 1, 1, true, false);
    var code, n := q.Write([0, 0, 0]);
    if code == OutOfMemory {
      return q, false, false;
    }
    q.HoldsOne();
    q.Reset();
    q.HoldsOne();
    code, n := q.Write([0, 0]);
    if code == OutOfMemory {
      return q, false, false;
    }
    q.FullIffNoRoom();
    stored, full := true, q.IsFull();
  }

  /** `memcpy` to `buf`, from index `at` on. */
  method CopyTo(buf: array<Byte>, at: nat, bytes: seq<Byte>)
    requires at + |bytes| <= buf.Length
    modifies buf
    ensures buf[..at + |bytes|] == old(buf[..at]) + bytes
    ensures buf[at + |bytes|..] == old(buf[at + |bytes|..])
  {
    forall i | 0 <= i < |bytes| {
      buf[at + i] := bytes[i];
    }
  }
}
