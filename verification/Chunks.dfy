/**
 * Chunks, the memory they live in, the lists they form and the pool that queues share (bufq.h, bufq.c).
 *
 * The memory is explicit: a pointer is an address, `calloc` may refuse, and `free` removes the chunk.
 * Following a pointer therefore carries the obligation that its chunk is still allocated.
 */
module Chunks {
  import opened Common

  type Byte = bv8
  type Ptr = nat
  const NULL: Ptr := 0
  type Heap = map<Ptr, Chunk>

  lemma SliceMore<T>(s: seq<T>, n: nat, k: nat)
    requires n + k <= |s|
    ensures s[..n + k] == s[..n] + s[n..][..k]
  {
  }

  lemma SliceInto<T>(all: seq<T>, start: nat, first: seq<T>, rest: seq<T>, off: nat)
    requires start <= |all| && all[start..] == first + rest && off <= |first|
    ensures start + |first| <= |all| && all[start + off..start + |first|] == first[off..]
    ensures all[start + |first|..] == rest
  {
    assert all[start + off..start + |first|] == all[start..][off..|first|];
    assert all[start + |first|..] == all[start..][|first|..];
  }

  /** `n * size`, or 0 if `n` is negative; recursive so that proofs need no multiplication. */
  function Times(n: int, size: nat): (t: nat)
    decreases if n < 0 then 0 else n
  {
    if n <= 0 then 0 else size + Times(n - 1, size)
  }

  lemma {:induction false} TimesIsProduct(n: nat, size: nat)
    ensures Times(n, size) == n * size
  {
    if n > 0 {
      TimesIsProduct(n - 1, size);
    }
  }

  lemma {:induction false} TimesAdd(n: nat, k: nat, size: nat)
    ensures Times(n, size) + Times(k, size) == Times(n + k, size)
  {
    if n > 0 {
      TimesAdd(n - 1, k, size);
    }
  }

  /** Writing `region` into `data` at `to` adds its first `k` elements to those from `from` on. */
  lemma Overwritten<T>(data: seq<T>, from: nat, to: nat, region: seq<T>, k: nat)
    requires from <= to && to + |region| <= |data| && k <= |region|
    ensures var all := data[..to] + region + data[to + |region|..];
            |all| == |data| && all[from..to + k] == data[from..to] + region[..k]
  {
    var all := data[..to] + region + data[to + |region|..];
    assert all[from..to + k] == all[from..to] + all[to..to + k];
    assert all[from..to] == data[from..to] && all[to..to + k] == region[..k];
  }

  /** `data` has room for `|data|` bytes; the unread ones lie between the two offsets. */
  datatype Chunk = Chunk(next: Ptr, rOff: nat, wOff: nat, data: seq<Byte>)
  {
    predicate Ok(size: nat) {
      rOff <= wOff <= size == |data|
    }

    /** Written to its end, with something left to read. */
    predicate Filled() {
      rOff < wOff == |data|
    }

    /** A chunk without unread bytes has been rewound. */
    predicate Tidy() {
      rOff < wOff || wOff == 0
    }

    function Unread(): seq<Byte>
      requires Ok(|data|)
      ensures Unread() == Bytes()
    {
      data[rOff..wOff]
    }

    ghost function Bytes(): seq<Byte> {
      if rOff <= wOff <= |data| then data[rOff..wOff] else []
    }

    predicate IsEmpty() {
      rOff >= wOff
    }

    predicate IsFull() {
      wOff >= |data|
    }

    function Reset(): Chunk {
      Chunk(NULL, 0, 0, data)
    }

    function Append(buf: seq<Byte>): (r: (Chunk, nat))
      requires Ok(|data|)
      ensures r.0.Ok(|data|) && r.0.next == next
      ensures r.1 == Min(|data| - wOff, |buf|) && r.0.wOff == wOff + r.1
      ensures r.0.Bytes() == Bytes() + buf[..r.1]
      ensures Tidy() ==> r.0.Tidy()
    {
      var n := Min(|data| - wOff, |buf|);
      Overwritten(data, rOff, wOff, buf[..n], n);
      (this.(wOff := wOff + n, data := data[..wOff] + buf[..n] + data[wOff + n..]), n)
    }

    /** A reader has written `region` behind the unread bytes, of which the first `k` bytes count. */
    function Fill(region: seq<Byte>, k: nat): (r: Chunk)
      requires Ok(|data|) && k <= |region| <= |data| - wOff
      ensures r.Ok(|data|) && r.next == next && r.wOff == wOff + k
      ensures r.Bytes() == Bytes() + region[..k]
      ensures Tidy() && (k > 0 || wOff == 0 || rOff < wOff) ==> r.Tidy()
    {
      Overwritten(data, rOff, wOff, region, k);
      this.(wOff := wOff + k, data := data[..wOff] + region + data[wOff + |region|..])
    }

    /** What reading `len` bytes leaves; the bytes read are the first `Min(|Bytes()|, len)` ones. */
    function Take(len: nat): (r: Chunk)
      requires Ok(|data|)
      ensures r.Ok(|data|) && r.next == next && r.wOff <= wOff
      ensures r.Bytes() == Bytes()[Min(|Bytes()|, len)..]
      ensures Tidy() ==> r.Tidy() && (Filled() && !r.IsEmpty() ==> r.Filled())
    {
      if wOff == rOff then this
      else if wOff - rOff <= len then this.(rOff := 0, wOff := 0) else this.(rOff := rOff + len)
    }
  }

  class Memory {
    var cells: Heap
    // how many allocations have been refused
    var refusals: nat

    constructor ()
      ensures cells == map[] && refusals == 0
    {
      cells, refusals := map[], 0;
    }

    method Calloc(size: nat) returns (p: Ptr)
      modifies this
      ensures p == NULL ==> cells == old(cells) && refusals == old(refusals) + 1
      ensures p != NULL ==>
                && p !in old(cells) && p in cells && refusals == old(refusals)
                && cells == old(cells)[p := cells[p]]
                && cells[p].Ok(size) && cells[p] == Chunk(NULL, 0, 0, cells[p].data)
    {
      p := *;
      if p == NULL || p in cells {
        p, refusals := NULL, refusals + 1;
      } else {
        cells := cells[p := Chunk(NULL, 0, 0, seq(size, _ => 0))];
      }
    }

    method Free(p: Ptr)
      requires p in cells
      modifies `cells
      ensures cells == old(cells) - {p}
    {
      cells := cells - {p};
    }
  }

  // ---------- lists of chunks

  /** `first` starts a null-terminated, acyclic list whose nodes are the allocated chunks `cs`. */
  ghost predicate IsList(cs: seq<Ptr>, m: Heap, first: Ptr, size: nat) {
    if cs == [] then first == NULL
    else
      && first == cs[0] && first != NULL && first in m && m[first].Ok(size)
      && first !in cs[1..]
      && IsList(cs[1..], m, m[first].next, size)
  }

  /** Every chunk is tidy, and all but the last are filled. */
  ghost predicate Packed(cs: seq<Ptr>, m: Heap) {
    cs != [] ==>
      && cs[0] in m && m[cs[0]].Tidy()
      && (|cs| > 1 ==> m[cs[0]].Filled())
      && Packed(cs[1..], m)
  }

  /** All unread bytes of a list, front first. */
  ghost function BytesOf(cs: seq<Ptr>, m: Heap): seq<Byte> {
    if cs == [] then [] else (if cs[0] in m then m[cs[0]].Bytes() else []) + BytesOf(cs[1..], m)
  }

  ghost predicate Disjoint(cs: seq<Ptr>, ds: seq<Ptr>) {
    forall c :: c in cs ==> c !in ds
  }

  /** The two memories hold the same chunks at the addresses `cs`. */
  ghost predicate Agree(cs: seq<Ptr>, m: Heap, m2: Heap) {
    forall c :: c in cs && c in m ==> c in m2 && m2[c] == m[c]
  }

  lemma {:induction false} ListElsewhere(cs: seq<Ptr>, m: Heap, m2: Heap, first: Ptr, size: nat)
    requires IsList(cs, m, first, size) && Agree(cs, m, m2)
    ensures IsList(cs, m2, first, size) && Agree(cs, m2, m)
    ensures BytesOf(cs, m2) == BytesOf(cs, m)
    ensures Packed(cs, m) ==> Packed(cs, m2)
  {
    if cs != [] {
      ListElsewhere(cs[1..], m, m2, m[first].next, size);
    }
  }

  lemma FirstBytes(cs: seq<Ptr>, m: Heap, first: Ptr, size: nat)
    requires IsList(cs, m, first, size) && first != NULL
    ensures cs != [] && first == cs[0] && first in m && m[first].Ok(size)
    ensures BytesOf(cs, m) == m[first].Bytes() + BytesOf(cs[1..], m)
    ensures IsList(cs[1..], m, m[first].next, size)
    ensures Packed(cs, m) ==> Packed(cs[1..], m) && (m[first].Bytes() == [] ==> BytesOf(cs, m) == [])
  {
  }

  lemma FirstIs(cs: seq<Ptr>, m: Heap, first: Ptr, size: nat)
    requires IsList(cs, m, first, size) && cs != []
    ensures first == cs[0]
  {
  }

  lemma NothingInNoList(cs: seq<Ptr>, m: Heap, first: Ptr, size: nat)
    requires IsList(cs, m, first, size)
    ensures first == NULL ==> cs == [] && BytesOf(cs, m) == []
  {
  }

  lemma {:induction false} ListNodes(cs: seq<Ptr>, m: Heap, first: Ptr, size: nat)
    requires IsList(cs, m, first, size)
    ensures forall c :: c in cs ==> c != NULL && c in m && m[c].Ok(size)
  {
    if cs != [] {
      ListNodes(cs[1..], m, m[first].next, size);
      assert cs == [first] + cs[1..];
    }
  }

  lemma {:induction false} BytesOfConcat(cs: seq<Ptr>, ds: seq<Ptr>, m: Heap)
    ensures BytesOf(cs + ds, m) == BytesOf(cs, m) + BytesOf(ds, m)
  {
    if cs == [] {
      assert cs + ds == ds;
    } else {
      hide BytesOf, Chunk.Bytes;
      BytesOfConcat(cs[1..], ds, m);
      FirstOfBytes(cs, m);
      FirstOfBytes(cs + ds, m);
      assert (cs + ds)[1..] == cs[1..] + ds;
      Regroup(if cs[0] in m then m[cs[0]].Bytes() else [], BytesOf(cs[1..], m), BytesOf(ds, m));
    }
  }

  lemma FirstOfBytes(cs: seq<Ptr>, m: Heap)
    requires cs != []
    ensures BytesOf(cs, m) == (if cs[0] in m then m[cs[0]].Bytes() else []) + BytesOf(cs[1..], m)
  {
  }

  lemma BytesOfOne(p: Ptr, m: Heap)
    requires p in m
    ensures BytesOf([p], m) == m[p].Bytes()
  {
    assert [p][1..] == [] && BytesOf([], m) == [];
  }

  lemma BytesOfLast(cs: seq<Ptr>, p: Ptr, m: Heap)
    requires p in m
    ensures BytesOf(cs + [p], m) == BytesOf(cs, m) + m[p].Bytes()
  {
    BytesOfConcat(cs, [p], m);
    BytesOfOne(p, m);
  }

  /** What is unread and the room behind the last chunk fit into the chunks. */
  lemma {:induction false} BytesBound(cs: seq<Ptr>, p: Ptr, m: Heap, first: Ptr, size: nat)
    requires p in m && IsList(cs + [p], m, first, size) && m[p].Ok(size)
    ensures |BytesOf(cs + [p], m)| + (size - m[p].wOff) <= Times(|cs| + 1, size)
  {
    if cs == [] {
      BytesOfOne(p, m);
      assert Times(1, size) == size + Times(0, size);
    } else {
      assert (cs + [p])[1..] == cs[1..] + [p];
      BytesBound(cs[1..], p, m, m[first].next, size);
    }
  }

  lemma {:induction false} BytesElsewhere(cs: seq<Ptr>, p: Ptr, m: Heap, cell: Chunk)
    requires p !in cs
    ensures BytesOf(cs, m[p := cell]) == BytesOf(cs, m)
  {
    if cs != [] {
      BytesElsewhere(cs[1..], p, m, cell);
    }
  }

  lemma {:induction false} ListLastNode(cs: seq<Ptr>, p: Ptr, m: Heap, first: Ptr, size: nat)
    requires IsList(cs + [p], m, first, size) && Packed(cs + [p], m)
    ensures p != NULL && p in m && p !in cs
    ensures m[p].next == NULL && m[p].Tidy() && m[p].Ok(size)
  {
    if cs != [] {
      assert (cs + [p])[1..] == cs[1..] + [p];
      assert cs == [first] + cs[1..];
      ListLastNode(cs[1..], p, m, m[first].next, size);
    }
  }

  /** Rewriting the last chunk `p` keeps the list. */
  lemma {:induction false} ListSetLast(cs: seq<Ptr>, p: Ptr, m: Heap, first: Ptr, size: nat, cell: Chunk)
    requires p in m && IsList(cs + [p], m, first, size) && Packed(cs + [p], m)
    requires cell.Ok(size) && cell.Tidy() && cell.next == NULL
    ensures IsList(cs + [p], m[p := cell], first, size) && Packed(cs + [p], m[p := cell])
  {
    if cs != [] {
      assert (cs + [p])[1..] == cs[1..] + [p];
      ListSetLast(cs[1..], p, m, m[first].next, size, cell);
    }
  }

  /** Linking the new chunk `q` behind a filled last chunk `p`. */
  lemma {:induction false} ListLink(cs: seq<Ptr>, p: Ptr, q: Ptr, m: Heap, first: Ptr, size: nat)
    requires p in m && IsList(cs + [p], m, first, size) && Packed(cs + [p], m) && m[p].Filled()
    requires q != NULL && q !in cs + [p] && q in m && m[q] == Chunk(NULL, 0, 0, m[q].data) && m[q].Ok(size)
    ensures var m2 := m[p := m[p].(next := q)];
            && IsList(cs + [p] + [q], m2, first, size) && Packed(cs + [p] + [q], m2)
            && BytesOf(cs + [p] + [q], m2) == BytesOf(cs + [p], m)
  {
    var m2 := m[p := m[p].(next := q)];
    if cs == [] {
      assert [p] + [q] == [p, q] && [p, q][1..] == [q];
      assert IsList([q], m2, q, size);
      BytesOfOne(q, m2);
      BytesOfOne(p, m);
    } else {
      assert (cs + [p])[1..] == cs[1..] + [p];
      assert (cs + [p] + [q])[1..] == cs[1..] + [p] + [q];
      ListLink(cs[1..], p, q, m, m[first].next, size);
    }
  }

  /** Frees a whole list (`chunk_list_free`). */
  method FreeList(mem: Memory, first: Ptr, ghost cs: seq<Ptr>, size: nat)
    requires IsList(cs, mem.cells, first, size)
    modifies mem`cells
    ensures mem.cells == old(mem.cells) - (set c | c in cs)
  {
    var p := first;
    ghost var rest := cs;
    ghost var gone: set<Ptr> := {};
    while p != NULL
      invariant IsList(rest, mem.cells, p, size)
      invariant mem.cells == old(mem.cells) - gone
      invariant forall c :: c in cs <==> c in gone || c in rest
      decreases |rest|
    {
      var next := mem.cells[p].next;
      ghost var m := mem.cells;
      mem.Free(p);
      assert rest == [p] + rest[1..];
      ListElsewhere(rest[1..], m, mem.cells, next, size);
      rest, gone, p := rest[1..], gone + {p}, next;
    }
    assert gone == set c | c in cs;
  }

  // ---------- the shared pool

  class Pool {
    const mem: Memory
    const chunkSize: nat
    const spareMax: nat
    var spare: Ptr
    var spareCount: nat
    ghost var spares: seq<Ptr>

    ghost predicate Valid()
      reads this, mem
    {
      && chunkSize > 0 && spareMax > 0
      && IsList(spares, mem.cells, spare, chunkSize)
      && spareCount == |spares| <= spareMax
    }

    constructor (mem: Memory, chunkSize: nat, spareMax: nat)
      requires chunkSize > 0 && spareMax > 0
      ensures Valid() && spares == [] && this.mem == mem
      ensures this.chunkSize == chunkSize && this.spareMax == spareMax
    {
      this.mem, this.chunkSize, this.spareMax := mem, chunkSize, spareMax;
      spare, spareCount, spares := NULL, 0, [];
    }

    /** A blank chunk, from the spares if there are any; NULL if the system refuses one. */
    method Take() returns (p: Ptr)
      requires Valid()
      modifies this, mem
      ensures Valid()
      ensures p == NULL ==>
                && mem.cells == old(mem.cells) && spares == old(spares) == []
                && mem.refusals == old(mem.refusals) + 1
      ensures p != NULL ==>
                && p in mem.cells && mem.cells[p].Ok(chunkSize) && mem.cells[p] == mem.cells[p].Reset()
                && mem.cells == old(mem.cells)[p := mem.cells[p]]
                && mem.refusals == old(mem.refusals)
                && (if old(spares) == [] then spares == [] && p !in old(mem.cells)
                    else p == old(spares)[0] && spares == old(spares)[1..] && p !in spares)
    {
      if spare != NULL {
        p := spare;
        spare := mem.cells[p].next;
        spareCount := spareCount - 1;
        spares := spares[1..];
        mem.cells := mem.cells[p := mem.cells[p].Reset()];
      } else {
        p := mem.Calloc(chunkSize);
      }
      ListElsewhere(spares, old(mem.cells), mem.cells, spare, chunkSize);
    }

    /** Keeps the chunk as a spare, or frees it if there are enough of them. */
    method Put(p: Ptr)
      requires Valid()
      requires p != NULL && p in mem.cells && p !in spares && mem.cells[p].Ok(chunkSize)
      modifies this, mem`cells
      ensures Valid()
      ensures if |old(spares)| >= spareMax
              then spares == old(spares) && mem.cells == old(mem.cells) - {p}
              else spares == [p] + old(spares) && p in mem.cells && mem.cells == old(mem.cells)[p := mem.cells[p]]
    {
      if spareCount >= spareMax {
        mem.Free(p);
        ListElsewhere(spares, old(mem.cells), mem.cells, spare, chunkSize);
      } else {
        mem.cells := mem.cells[p := mem.cells[p].Reset().(next := spare)];
        ListElsewhere(spares, old(mem.cells), mem.cells, spare, chunkSize);
        spare := p;
        spareCount := spareCount + 1;
        spares := [p] + spares;
      }
    }
  }
}
