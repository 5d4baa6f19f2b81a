/**
 * The pool allocator of libs/rapidjson/rapidjson/allocators.h (lines 110-269): chunks in a list, each
 * filled from its start, with the last block of the newest chunk growing in place.
 *
 * Memory is a map from addresses to bytes. The address at which the underlying allocator would put a new
 * chunk is an argument of the call (0 when it fails); all that is known of it is that the region is free.
 * `live` records the blocks that callers hold, with the sizes they asked for. The header layout is that
 * of a 64-bit machine.
 *
 * Main results: Valid says that live blocks stay inside their chunks at multiples of 8 and never overlap.
 * An operation keeps it exactly when none of the 64-bit sums it forms wraps around. Malloc and Realloc keep
 * the contents of all blocks. Small blocks share a chunk (SmallBlocksShareAChunk).
 */
module PoolAllocator {
  type byte = x: int | 0 <= x < 256

  const HEADER: nat := 24

  const NULL: nat := 0

  const TWO_TO_64: nat := 0x1_0000_0000_0000_0000

  /** The least multiple of 8 that is not below `x`. */
  function Align(x: nat): (r: nat)
    ensures x <= r < x + 8 && r % 8 == 0
    ensures x > 0 ==> r >= 8
  {
    (x + 7) - (x + 7) % 8
  }

  // ---------------------------------------------------------------- arithmetic of size_t

  function Wrap(x: nat): (w: nat)
    ensures w < TWO_TO_64
    ensures x < TWO_TO_64 ==> w == x
  {
    x % TWO_TO_64
  }

  /** `(x + 7) & ~7` in 64 bits. */
  function Align64(x: nat): (r: nat)
    ensures r < TWO_TO_64
  {
    Wrap(x + 7) - Wrap(x + 7) % 8
  }

  /** Rounding up is exact up to 2^64 - 8; above it yields 0. */
  lemma AlignmentWraps(x: nat)
    requires x < TWO_TO_64
    ensures Align64(x) == Align(x) <==> Align(x) < TWO_TO_64
    ensures Align(x) < TWO_TO_64 <==> x <= TWO_TO_64 - 8
    ensures x > TWO_TO_64 - 8 ==> Align64(x) == 0
  {
    if x > TWO_TO_64 - 8 {
      assert x + 7 == TWO_TO_64 + (x + 7 - TWO_TO_64);
    }
  }

  /** The test for room in the head chunk gives the right answer exactly when its sum does not wrap. */
  lemma RoomTestWraps(c: Chunk, n: nat)
    requires ChunkOk(c) && n < TWO_TO_64
    ensures (Wrap(c.size + n) <= c.capacity <==> c.size + n <= c.capacity) <==> c.size + n < TWO_TO_64
  {
    if c.size + n >= TWO_TO_64 {
      assert Wrap(c.size + n) == c.size + n - TWO_TO_64;
    }
  }

  /** The size that the underlying allocator is asked for holds a chunk exactly when its sum does not wrap. */
  lemma RequestWraps(capacity: nat)
    requires capacity < TWO_TO_64
    ensures Wrap(HEADER + capacity) >= HEADER + capacity <==> HEADER + capacity < TWO_TO_64
    ensures HEADER + capacity >= TWO_TO_64 ==> Wrap(HEADER + capacity) < HEADER
  {
    if HEADER + capacity >= TWO_TO_64 {
      assert Wrap(HEADER + capacity) == HEADER + capacity - TWO_TO_64;
    }
  }

  // ---------------------------------------------------------------- chunks and blocks

  datatype Chunk = Chunk(base: nat, capacity: nat, size: nat)

  function Start(c: Chunk): nat { c.base + HEADER }

  function Top(c: Chunk): nat { Start(c) + c.size }

  function End(c: Chunk): nat { Start(c) + c.capacity }

  predicate ChunkOk(c: Chunk) {
    c.base > 0 && c.size <= c.capacity && HEADER + c.capacity < TWO_TO_64 && c.size % 8 == 0
  }

  predicate Apart(c: Chunk, d: Chunk) {
    End(c) <= d.base || End(d) <= c.base
  }

  predicate ChunksOk(cs: seq<Chunk>) {
    && (forall i :: 0 <= i < |cs| ==> ChunkOk(cs[i]))
    && forall i, j :: 0 <= i < j < |cs| ==> Apart(cs[i], cs[j])
  }

  type Blocks = map<nat, nat>

  /** The block of `n` bytes at `p` lies in the used part of `c`, at a multiple of 8. */
  predicate InChunk(c: Chunk, p: nat, n: nat) {
    n > 0 && Start(c) <= p && (p - Start(c)) % 8 == 0 && p + Align(n) <= Top(c)
  }

  predicate Placed(cs: seq<Chunk>, p: nat, n: nat) {
    exists i :: 0 <= i < |cs| && InChunk(cs[i], p, n)
  }

  predicate Disjoint(p: nat, n: nat, q: nat, m: nat) {
    p + Align(n) <= q || q + Align(m) <= p
  }

  predicate BlocksOk(cs: seq<Chunk>, live: Blocks) {
    && (forall p :: p in live ==> Placed(cs, p, live[p]))
    && forall p, q :: p in live && q in live && p != q ==> Disjoint(p, live[p], q, live[q])
  }

  predicate Beside(base: nat, length: nat, c: Chunk) {
    base + length <= c.base || End(c) <= base
  }

  /** A region of `length` bytes that the underlying allocator may hand out. */
  predicate Free(cs: seq<Chunk>, base: nat, length: nat) {
    base > 0 && forall i :: 0 <= i < |cs| ==> Beside(base, length, cs[i])
  }

  // ---------------------------------------------------------------- steps

  /** A block that is placed in one of the chunks is apart from everything above the top of the head. */
  lemma BelowTop(cs: seq<Chunk>, p: nat, n: nat)
    requires ChunksOk(cs) && |cs| > 0 && Placed(cs, p, n)
    ensures p + Align(n) <= Top(cs[0]) || End(cs[0]) <= p
  {
    var i :| 0 <= i < |cs| && InChunk(cs[i], p, n);
    assert ChunkOk(cs[0]) && ChunkOk(cs[i]);
    if i > 0 {
      assert Apart(cs[0], cs[i]);
    }
  }

  lemma GrownHeadIsOk(cs: seq<Chunk>, size: nat)
    requires ChunksOk(cs) && |cs| > 0 && size % 8 == 0 && cs[0].size + size <= cs[0].capacity
    ensures ChunksOk(cs[0 := cs[0].(size := cs[0].size + size)])
  {
    var cs' := cs[0 := cs[0].(size := cs[0].size + size)];
    assert ChunkOk(cs'[0]) by {
      assert ChunkOk(cs[0]);
    }
    hide ChunkOk;
    forall i | 0 <= i < |cs'| ensures ChunkOk(cs'[i]) {
      assert ChunkOk(cs[i]);
    }
    forall i, j | 0 <= i < j < |cs'| ensures Apart(cs'[i], cs'[j]) {
      assert Apart(cs[i], cs[j]);
    }
  }

  lemma StillPlaced(cs: seq<Chunk>, size: nat, p: nat, n: nat)
    requires |cs| > 0 && Placed(cs, p, n)
    ensures Placed(cs[0 := cs[0].(size := cs[0].size + size)], p, n)
  {
    var i :| 0 <= i < |cs| && InChunk(cs[i], p, n);
    assert InChunk(cs[0 := cs[0].(size := cs[0].size + size)][i], p, n);
  }

  /** The bump: a new block at the top of the head chunk. */
  lemma BumpKeepsBlocks(cs: seq<Chunk>, live: Blocks, n: nat)
    requires ChunksOk(cs) && BlocksOk(cs, live) && |cs| > 0
    requires n > 0 && cs[0].size + Align(n) <= cs[0].capacity
    ensures var cs' := cs[0 := cs[0].(size := cs[0].size + Align(n))];
            var p := Top(cs[0]);
            p > 0 && p !in live && ChunksOk(cs') && BlocksOk(cs', live[p := n])
  {
    var cs' := cs[0 := cs[0].(size := cs[0].size + Align(n))];
    var p := Top(cs[0]);
    GrownHeadIsOk(cs, Align(n));
    TopIsPlaced(cs, n);
    forall q | q in live
      ensures q != p && Placed(cs', q, live[q]) && Disjoint(p, n, q, live[q])
    {
      assert Placed(cs, q, live[q]);
      TopIsApart(cs, n, q, live[q]);
    }
    hide Align, ChunksOk, Placed;
    var live' := live[p := n];
    forall q, q' | q in live' && q' in live' && q != q'
      ensures Disjoint(q, live'[q], q', live'[q'])
    {
      if q != p && q' != p {
        assert Disjoint(q, live[q], q', live[q']);
      }
    }
  }

  lemma TopIsPlaced(cs: seq<Chunk>, n: nat)
    requires ChunksOk(cs) && |cs| > 0 && n > 0 && cs[0].size + Align(n) <= cs[0].capacity
    ensures Top(cs[0]) > 0 && Placed(cs[0 := cs[0].(size := cs[0].size + Align(n))], Top(cs[0]), n)
  {
    hide Align;
    assert ChunkOk(cs[0]);
    assert InChunk(cs[0 := cs[0].(size := cs[0].size + Align(n))][0], Top(cs[0]), n);
  }

  lemma TopIsApart(cs: seq<Chunk>, n: nat, q: nat, m: nat)
    requires ChunksOk(cs) && |cs| > 0 && n > 0 && cs[0].size + Align(n) <= cs[0].capacity && Placed(cs, q, m)
    ensures q != Top(cs[0]) && Disjoint(Top(cs[0]), n, q, m)
    ensures Placed(cs[0 := cs[0].(size := cs[0].size + Align(n))], q, m)
  {
    hide Align;
    StillPlaced(cs, Align(n), q, m);
    BelowTop(cs, q, m);
    assert m > 0 && Align(m) > 0;
  }

  /** Nothing lies between the last block of the head chunk and the end of the chunk. */
  lemma LastBlockHasRoom(cs: seq<Chunk>, live: Blocks, p: nat, q: nat)
    requires ChunksOk(cs) && BlocksOk(cs, live) && |cs| > 0
    requires p in live && q in live && p != q && p + Align(live[p]) == Top(cs[0])
    ensures q + Align(live[q]) <= p || End(cs[0]) <= q
  {
    hide Align;
    BelowTop(cs, q, live[q]);
    assert Placed(cs, q, live[q]) && Disjoint(p, live[p], q, live[q]);
    assert live[q] > 0 && Align(live[q]) > 0;
  }

  /** Growing in place: only the last block of the head chunk can pass the test. */
  lemma GrowKeepsBlocks(cs: seq<Chunk>, live: Blocks, p: nat, n: nat)
    requires ChunksOk(cs) && BlocksOk(cs, live) && |cs| > 0
    requires p in live && p + Align(live[p]) == Top(cs[0])
    requires Align(n) > Align(live[p]) && cs[0].size + (Align(n) - Align(live[p])) <= cs[0].capacity
    ensures var cs' := cs[0 := cs[0].(size := cs[0].size + (Align(n) - Align(live[p])))];
            ChunksOk(cs') && BlocksOk(cs', live[p := n])
    ensures InChunk(cs[0], p, live[p])
    ensures forall q :: q in live && q != p ==> q + Align(live[q]) <= p || End(cs[0]) <= q
  {
    hide Align, ChunksOk;
    var more := Align(n) - Align(live[p]);
    var cs' := cs[0 := cs[0].(size := cs[0].size + more)];
    GrownHeadIsOk(cs, more);
    LastBlockIsInHead(cs, p, live[p]);
    assert InChunk(cs'[0], p, n);
    forall q | q in live && q != p
      ensures Placed(cs', q, live[q]) && Disjoint(p, n, q, live[q])
      ensures q + Align(live[q]) <= p || End(cs[0]) <= q
    {
      StillPlaced(cs, more, q, live[q]);
      LastBlockHasRoom(cs, live, p, q);
    }
  }

  /** A block of another chunk never ends at the top of the head, even if the two chunks are neighbours. */
  lemma LastBlockIsInHead(cs: seq<Chunk>, p: nat, n: nat)
    requires ChunksOk(cs) && |cs| > 0 && Placed(cs, p, n) && p + Align(n) == Top(cs[0])
    ensures InChunk(cs[0], p, n)
  {
    var i :| 0 <= i < |cs| && InChunk(cs[i], p, n);
    assert ChunkOk(cs[0]) && ChunkOk(cs[i]);
    assert i > 0 ==> Apart(cs[0], cs[i]);
  }

  lemma AddKeepsBlocks(cs: seq<Chunk>, live: Blocks, base: nat, capacity: nat)
    requires ChunksOk(cs) && BlocksOk(cs, live)
    requires Free(cs, base, HEADER + capacity) && HEADER + capacity < TWO_TO_64
    ensures ChunksOk([Chunk(base, capacity, 0)] + cs) && BlocksOk([Chunk(base, capacity, 0)] + cs, live)
  {
    var cs' := [Chunk(base, capacity, 0)] + cs;
    forall i | 0 <= i < |cs'| ensures ChunkOk(cs'[i]) {
      if i > 0 { assert ChunkOk(cs[i - 1]); }
    }
    forall i, j | 0 <= i < j < |cs'| ensures Apart(cs'[i], cs'[j]) {
      if i == 0 {
        assert Beside(base, HEADER + capacity, cs[j - 1]);
      } else {
        assert Apart(cs[i - 1], cs[j - 1]);
      }
    }
    forall p | p in live ensures Placed(cs', p, live[p]) {
      assert Placed(cs, p, live[p]);
      var i :| 0 <= i < |cs| && InChunk(cs[i], p, live[p]);
      assert cs'[i + 1] == cs[i];
    }
  }

  /** A caller that settles for less, or gives a block up, leaves the others alone. */
  lemma LessKeepsBlocks(cs: seq<Chunk>, live: Blocks, p: nat, n: nat)
    requires BlocksOk(cs, live) && p in live && 0 < n && Align(n) <= Align(live[p])
    ensures BlocksOk(cs, live[p := n]) && BlocksOk(cs, live - {p})
  {
    var live' := live[p := n];
    forall q | q in live' ensures Placed(cs, q, live'[q]) {
      assert Placed(cs, q, live[q]);
      var i :| 0 <= i < |cs| && InChunk(cs[i], q, live[q]);
      assert InChunk(cs[i], q, live'[q]);
    }
    forall q, r | q in live' && r in live' && q != r ensures Disjoint(q, live'[q], r, live'[r]) {
      assert Disjoint(q, live[q], r, live[r]);
    }
  }

  // ---------------------------------------------------------------- one call in 64 bits

  /** The capacity of a chunk that is added for `size` bytes. */
  function CapacityFor(chunkCapacity: nat, size: nat): nat {
    var n := Align64(size);
    if chunkCapacity > n then chunkCapacity else n
  }

  /** The size that the underlying allocator is asked for. */
  function Request(capacity: nat): nat {
    Wrap(HEADER + capacity)
  }

  /** The chunks and the address that a call leaves. */
  datatype Allocation = Allocation(chunks: seq<Chunk>, block: nat)

  function Taken(cs: seq<Chunk>, n: nat): Allocation
    requires |cs| > 0
  {
    Allocation(cs[0 := cs[0].(size := Wrap(cs[0].size + n))], Top(cs[0]))
  }

  /** What Malloc does for any size, sums that wrap around included. */
  function MallocStep(cs: seq<Chunk>, chunkCapacity: nat, size: nat, available: nat): Allocation {
    var n := Align64(size);
    if size == 0 then
      Allocation(cs, NULL)
    else if |cs| > 0 && Wrap(cs[0].size + n) <= cs[0].capacity then
      Taken(cs, n)
    else if available == NULL then
      Allocation(cs, NULL)
    else
      Taken([Chunk(available, CapacityFor(chunkCapacity, size), 0)] + cs, n)
  }

  predicate NeedsChunk(cs: seq<Chunk>, size: nat) {
    |cs| == 0 || cs[0].size + Align(size) > cs[0].capacity
  }

  /** None of the sums that Malloc forms wraps around. */
  predicate SumsFit(cs: seq<Chunk>, chunkCapacity: nat, size: nat, available: nat) {
    size > 0 ==>
      && Align(size) < TWO_TO_64
      && (|cs| > 0 ==> cs[0].size + Align(size) < TWO_TO_64)
      && (NeedsChunk(cs, size) && available != NULL ==> HEADER + CapacityFor(chunkCapacity, size) < TWO_TO_64)
  }

  /** The chunks and the blocks are in order. */
  predicate InOrder(cs: seq<Chunk>, live: Blocks) {
    ChunksOk(cs) && BlocksOk(cs, live)
  }

  lemma SizeFits(cs: seq<Chunk>, p: nat, n: nat)
    requires ChunksOk(cs) && Placed(cs, p, n)
    ensures Align(n) < TWO_TO_64
  {
    hide Align;
    var i :| 0 <= i < |cs| && InChunk(cs[i], p, n);
    assert ChunkOk(cs[i]);
  }

  /** Behind the top of the head there is room for a block only up to the new top. */
  lemma NotPlacedAbove(cs: seq<Chunk>, p: nat, n: nat, size: nat)
    requires ChunksOk(cs) && |cs| > 0 && size <= cs[0].capacity
    requires Start(cs[0]) <= p <= Top(cs[0]) && n > 0 && p + Align(n) > Start(cs[0]) + size
    ensures !Placed(cs[0 := cs[0].(size := size)], p, n)
  {
    hide Align;
    var cs' := cs[0 := cs[0].(size := size)];
    assert ChunkOk(cs[0]);
    forall i | 0 <= i < |cs'|
      ensures !InChunk(cs'[i], p, n)
    {
      if i > 0 {
        assert Apart(cs[0], cs[i]) && ChunkOk(cs[i]);
      }
    }
  }

  lemma HeadSumFits(cs: seq<Chunk>, n: nat)
    requires ChunksOk(cs) && |cs| > 0 && cs[0].size + n <= cs[0].capacity
    ensures Wrap(cs[0].size + n) == cs[0].size + n
  {
    assert ChunkOk(cs[0]);
  }

  lemma MallocKeeps(cs: seq<Chunk>, live: Blocks, chunkCapacity: nat, size: nat, available: nat)
    requires InOrder(cs, live) && 0 < size < TWO_TO_64 && SumsFit(cs, chunkCapacity, size, available)
    requires available != NULL ==> Free(cs, available, Request(CapacityFor(chunkCapacity, size)))
    ensures var a := MallocStep(cs, chunkCapacity, size, available);
            if NeedsChunk(cs, size) && available == NULL then
              a == Allocation(cs, NULL)
            else
              a.block != NULL && a.block !in live && InOrder(a.chunks, live[a.block := size])
  {
    hide Align, Align64, Wrap, BlocksOk, Free;
    AlignmentWraps(size);
    var capacity := CapacityFor(chunkCapacity, size);
    if !NeedsChunk(cs, size) {
      HeadSumFits(cs, Align(size));
      BumpKeepsBlocks(cs, live, size);
    } else if available != NULL {
      var cs' := [Chunk(available, capacity, 0)] + cs;
      AddKeepsBlocks(cs, live, available, capacity);
      HeadSumFits(cs', Align(size));
      BumpKeepsBlocks(cs', live, size);
      hide ChunksOk;
    }
  }

  lemma MallocBreaks(cs: seq<Chunk>, live: Blocks, chunkCapacity: nat, size: nat, available: nat)
    requires InOrder(cs, live) && 0 < size < TWO_TO_64 && !SumsFit(cs, chunkCapacity, size, available)
    ensures var a := MallocStep(cs, chunkCapacity, size, available);
            a.block != NULL ==> !InOrder(a.chunks, live[a.block := size])
  {
    var a := MallocStep(cs, chunkCapacity, size, available);
    AlignmentWraps(size);
    hide Align, Align64;
    if a.block != NULL {
      var live' := live[a.block := size];
      assert a.block in live' && live'[a.block] == size;
      if Align(size) >= TWO_TO_64 {
        if ChunksOk(a.chunks) && Placed(a.chunks, a.block, size) {
          SizeFits(a.chunks, a.block, size);
        }
      } else if |cs| > 0 && cs[0].size + Align(size) >= TWO_TO_64 {
        assert ChunkOk(cs[0]);
        assert Wrap(cs[0].size + Align(size)) == cs[0].size + Align(size) - TWO_TO_64;
        NotPlacedAbove(cs, Top(cs[0]), size, cs[0].size + Align(size) - TWO_TO_64);
      } else {
        assert !ChunkOk(a.chunks[0]);
      }
    }
  }

  /**
   * Main result: whatever the size, a Malloc that succeeds leaves chunks and blocks in order exactly when
   * none of its sums wrapped around.
   */
  lemma MallocIsExact(cs: seq<Chunk>, live: Blocks, chunkCapacity: nat, size: nat, available: nat)
    requires InOrder(cs, live) && size < TWO_TO_64
    requires available != NULL ==> Free(cs, available, Request(CapacityFor(chunkCapacity, size)))
    ensures var a := MallocStep(cs, chunkCapacity, size, available);
            a.block != NULL ==>
              (InOrder(a.chunks, live[a.block := size]) <==> SumsFit(cs, chunkCapacity, size, available))
  {
    hide Free, MallocStep;
    if size > 0 {
      if SumsFit(cs, chunkCapacity, size, available) {
        MallocKeeps(cs, live, chunkCapacity, size, available);
      } else {
        MallocBreaks(cs, live, chunkCapacity, size, available);
      }
    } else {
      NothingForNothing(cs, chunkCapacity, available);
    }
  }

  lemma NothingForNothing(cs: seq<Chunk>, chunkCapacity: nat, available: nat)
    ensures MallocStep(cs, chunkCapacity, 0, available) == Allocation(cs, NULL)
  {
  }

  // ---------------------------------------------------------------- what the chunk capacity is for

  /** The chunks after Mallocs of these sizes, in turn. */
  function MallocAll(cs: seq<Chunk>, chunkCapacity: nat, sizes: seq<nat>, available: seq<nat>): seq<Chunk>
    requires |available| == |sizes|
    decreases |sizes|
  {
    if sizes == [] then cs
    else
      MallocAll(MallocStep(cs, chunkCapacity, sizes[0], available[0]).chunks, chunkCapacity, sizes[1..], available[1..])
  }

  function AlignedSum(sizes: seq<nat>): nat {
    if sizes == [] then 0 else Align(sizes[0]) + AlignedSum(sizes[1..])
  }

  /** Blocks that fit the head chunk need no other one. */
  lemma {:induction false} RoomSuffices(cs: seq<Chunk>, chunkCapacity: nat, sizes: seq<nat>, available: seq<nat>)
    requires |available| == |sizes| && |cs| > 0
    requires cs[0].size + AlignedSum(sizes) <= cs[0].capacity < TWO_TO_64
    ensures |MallocAll(cs, chunkCapacity, sizes, available)| == |cs|
    decreases |sizes|
  {
    hide Align, Align64, Wrap;
    if sizes != [] {
      AlignmentWraps(sizes[0]);
      RoomSuffices(MallocStep(cs, chunkCapacity, sizes[0], available[0]).chunks, chunkCapacity, sizes[1..],
        available[1..]);
    }
  }

  /**
   * Main result: blocks whose aligned sizes add up to no more than the chunk capacity take one new chunk at most,
   * whatever order they come in.
   */
  lemma {:induction false} SmallBlocksShareAChunk(cs: seq<Chunk>, chunkCapacity: nat, sizes: seq<nat>,
                                                  available: seq<nat>)
    requires |available| == |sizes| && AlignedSum(sizes) <= chunkCapacity < TWO_TO_64
    requires |cs| > 0 ==> cs[0].size + AlignedSum(sizes) < TWO_TO_64
    ensures |MallocAll(cs, chunkCapacity, sizes, available)| <= |cs| + 1
    decreases |sizes|
  {
    hide Align, Align64, Wrap;
    if sizes != [] {
      AlignmentWraps(sizes[0]);
      var cs' := MallocStep(cs, chunkCapacity, sizes[0], available[0]).chunks;
      if |cs'| == |cs| {
        SmallBlocksShareAChunk(cs', chunkCapacity, sizes[1..], available[1..]);
      } else {
        RoomSuffices(cs', chunkCapacity, sizes[1..], available[1..]);
      }
    }
  }

  lemma OriginalIsAligned(cs: seq<Chunk>, live: Blocks, p: nat)
    requires InOrder(cs, live) && p in live
    ensures |cs| > 0 && ChunkOk(cs[0]) && live[p] > 0 && Align64(live[p]) == Align(live[p]) < TWO_TO_64
  {
    hide Align, Align64;
    assert Placed(cs, p, live[p]);
    SizeFits(cs, p, live[p]);
    AlignmentWraps(live[p]);
  }

  lemma AlignTwice(x: nat)
    requires Align(x) < TWO_TO_64
    ensures Align64(x) == Align(x) == Align(Align(x)) == Align64(Align64(x))
  {
    assert Wrap(x + 7) % 8 == (x + 7) % 8 && x + 7 < TWO_TO_64;
  }

  /** A block that stays although its size in 64 bits became smaller is in order unless that size wrapped. */
  lemma StaysIsExact(cs: seq<Chunk>, live: Blocks, p: nat, n: nat)
    requires InOrder(cs, live) && p in live && 0 < n < TWO_TO_64 && Align64(n) <= Align(live[p])
    ensures InOrder(cs, live[p := n]) <==> Align(n) < TWO_TO_64
  {
    AlignmentWraps(n);
    hide Align, Align64;
    if Align(n) < TWO_TO_64 {
      LessKeepsBlocks(cs, live, p, n);
    } else if Placed(cs, p, n) {
      SizeFits(cs, p, n);
    } else {
      var live' := live[p := n];
      assert p in live' && live'[p] == n;
    }
  }

  /** The chunks once the last block of the head grew by `increment`. */
  function HeadGrown(cs: seq<Chunk>, increment: nat): seq<Chunk>
    requires |cs| > 0
  {
    cs[0 := cs[0].(size := Wrap(cs[0].size + increment))]
  }

  lemma WrappedGrowBreaks(cs: seq<Chunk>, p: nat, m: nat, n: nat)
    requires ChunksOk(cs) && |cs| > 0 && Placed(cs, p, m) && p + Align(m) == Top(cs[0])
    requires n > 0 && Align(m) < Align(n) < TWO_TO_64 && cs[0].size + (Align(n) - Align(m)) >= TWO_TO_64
    ensures !Placed(HeadGrown(cs, Align(n) - Align(m)), p, n)
  {
    hide Align;
    var sum := cs[0].size + (Align(n) - Align(m));
    LastBlockIsInHead(cs, p, m);
    assert ChunkOk(cs[0]);
    assert Wrap(sum) == sum - TWO_TO_64;
    NotPlacedAbove(cs, p, n, sum - TWO_TO_64);
  }

  /** Growing in place leaves chunks and blocks in order exactly when its one sum did not wrap around. */
  lemma GrowIsExact(cs: seq<Chunk>, live: Blocks, p: nat, n: nat)
    requires InOrder(cs, live) && |cs| > 0 && p in live && p + Align(live[p]) == Top(cs[0])
    requires Align(live[p]) < Align(n) < TWO_TO_64
    requires Wrap(cs[0].size + (Align(n) - Align(live[p]))) <= cs[0].capacity
    ensures InOrder(HeadGrown(cs, Align(n) - Align(live[p])), live[p := n])
        <==> cs[0].size + (Align(n) - Align(live[p])) < TWO_TO_64
  {
    hide Align;
    if cs[0].size + (Align(n) - Align(live[p])) < TWO_TO_64 {
      GrowKeepsBlocks(cs, live, p, n);
    } else {
      assert Placed(cs, p, live[p]);
      WrappedGrowBreaks(cs, p, live[p], n);
      var live' := live[p := n];
      assert p in live' && live'[p] == n;
    }
  }

  /** The user's buffer, if there is one, is the oldest chunk. */
  predicate BufferIsLast(cs: seq<Chunk>, buffer: nat) {
    && (forall i :: 0 <= i < |cs| ==> (cs[i].base == buffer <==> buffer != NULL && i == |cs| - 1))
    && (buffer != NULL ==> |cs| > 0)
  }

  /** An added chunk is in order exactly when the size that was asked for it did not wrap around. */
  lemma AddIsExact(cs: seq<Chunk>, live: Blocks, buffer: nat, capacity: nat, available: nat)
    requires InOrder(cs, live) && BufferIsLast(cs, buffer) && available != NULL
    requires Free(cs, available, Request(capacity))
    ensures var cs' := [Chunk(available, capacity, 0)] + cs;
            InOrder(cs', live) && BufferIsLast(cs', buffer) <==> HEADER + capacity < TWO_TO_64
  {
    var cs' := [Chunk(available, capacity, 0)] + cs;
    if HEADER + capacity < TWO_TO_64 {
      AddKeepsBlocks(cs, live, available, capacity);
      AddKeepsBuffer(cs, buffer, capacity, available);
    } else {
      assert !ChunkOk(cs'[0]);
    }
  }

  lemma AddKeepsBuffer(cs: seq<Chunk>, buffer: nat, capacity: nat, available: nat)
    requires BufferIsLast(cs, buffer) && available != NULL && Free(cs, available, HEADER + capacity)
    ensures BufferIsLast([Chunk(available, capacity, 0)] + cs, buffer)
  {
    if |cs| > 0 {
      assert Beside(available, HEADER + capacity, cs[|cs| - 1]);
    }
  }

  lemma MallocKeepsBuffer(cs: seq<Chunk>, buffer: nat, chunkCapacity: nat, size: nat, available: nat)
    requires BufferIsLast(cs, buffer) && size < TWO_TO_64 && SumsFit(cs, chunkCapacity, size, available)
    requires available != NULL ==> Free(cs, available, Request(CapacityFor(chunkCapacity, size)))
    ensures BufferIsLast(MallocStep(cs, chunkCapacity, size, available).chunks, buffer)
  {
    hide Align, Align64, Wrap, Free;
    AlignmentWraps(size);
    if size > 0 && NeedsChunk(cs, size) && available != NULL {
      AddKeepsBuffer(cs, buffer, CapacityFor(chunkCapacity, size), available);
    }
  }

  /**
   * How a wrapped call fails: above 2^64 - 8 it succeeds without taking a byte, and the next
   * block, of whatever size the head chunk has room for, gets the same address.
   */
  lemma LargestSizesTakeNothing(cs: seq<Chunk>, chunkCapacity: nat, size: nat, n: nat, available: nat)
    requires ChunksOk(cs) && |cs| > 0 && TWO_TO_64 - 8 < size < TWO_TO_64
    requires 0 < n <= TWO_TO_64 - 8 && cs[0].size + Align(n) <= cs[0].capacity
    ensures MallocStep(cs, chunkCapacity, size, available) == Allocation(cs, Top(cs[0]))
    ensures MallocStep(cs, chunkCapacity, n, available).block == Top(cs[0])
  {
    assert ChunkOk(cs[0]);
    AlignmentWraps(size);
    AlignmentWraps(n);
    HeadSumFits(cs, Align(n));
    HeadSumFits(cs, 0);
    hide Align64, Align, Wrap;
    assert cs[0 := cs[0]] == cs;
  }

  // ---------------------------------------------------------------- contents

  type Memory = map<nat, byte>

  function Read(m: Memory, a: nat): byte {
    if a in m then m[a] else 0
  }

  /** The contents of a block. */
  function Contents(m: Memory, p: nat, n: nat): (w: seq<byte>)
    ensures |w| == n && forall k :: 0 <= k < n ==> w[k] == Read(m, p + k)
  {
    seq<byte>(n, k requires 0 <= k < n => Read(m, p + k))
  }

  /** All blocks hold in `m'` what they held in `m`. */
  predicate AllKept(m: Memory, m': Memory, live: Blocks) {
    forall p :: p in live ==> Contents(m', p, live[p]) == Contents(m, p, live[p])
  }

  /** Outside of the `n` bytes at `to` nothing was written; there stands what was at `from`. */
  ghost predicate Copied(m: Memory, m': Memory, to: nat, from: nat, n: nat) {
    forall a: nat :: ByteCopied(m, m', to, from, n, a)
  }

  predicate ByteCopied(m: Memory, m': Memory, to: nat, from: nat, n: nat, a: nat) {
    Read(m', a) == if to <= a < to + n then Read(m, from + (a - to)) else Read(m, a)
  }

  lemma CopyKeepsOthers(m: Memory, m': Memory, live: Blocks, to: nat, from: nat, size: nat, n: nat)
    requires Copied(m, m', to, from, n) && n <= Align(size)
    requires forall q :: q in live ==> Disjoint(to, size, q, live[q])
    ensures AllKept(m, m', live)
  {
    forall p | p in live
      ensures Contents(m', p, live[p]) == Contents(m, p, live[p])
    {
      assert Disjoint(to, size, p, live[p]);
      forall k | 0 <= k < live[p]
        ensures Contents(m', p, live[p])[k] == Contents(m, p, live[p])[k]
      {
        assert ByteCopied(m, m', to, from, n, p + k);
      }
    }
  }

  lemma CopyOneMore(m: Memory, m': Memory, m'': Memory, to: nat, from: nat, k: nat)
    requires Copied(m, m', to, from, k) && m'' == m'[to + k := Read(m', from + k)]
    requires from + k < to || to + k <= from
    ensures Copied(m, m'', to, from, k + 1)
  {
    var n := k + 1;
    forall a: nat
      ensures ByteCopied(m, m'', to, from, n, a)
    {
      assert ByteCopied(m, m', to, from, k, a) && ByteCopied(m, m', to, from, k, from + k);
    }
  }

  lemma CopyIsThere(m: Memory, m': Memory, to: nat, from: nat, n: nat, k: nat)
    requires Copied(m, m', to, from, n) && k <= n
    ensures Contents(m', to, k) == Contents(m, from, k)
  {
    forall i | 0 <= i < k
      ensures Contents(m', to, k)[i] == Contents(m, from, k)[i]
    {
      assert ByteCopied(m, m', to, from, n, to + i);
    }
  }

  // ---------------------------------------------------------------- the allocator

  class MemoryPoolAllocator {
    var chunks: seq<Chunk>
    const chunkCapacity: nat
    const userBuffer: nat
    var memory: Memory
    ghost var live: Blocks

    ghost predicate Valid()
      reads this
    {
      InOrder(chunks, live) && chunkCapacity < TWO_TO_64 && BufferIsLast(chunks, userBuffer)
    }

    constructor (chunkCapacity: nat)
      requires chunkCapacity < TWO_TO_64
      ensures Valid() && live == map[] && this.chunkCapacity == chunkCapacity && userBuffer == NULL
    {
      this.chunkCapacity, userBuffer := chunkCapacity, NULL;
      chunks, memory, live := [], map[], map[];
    }

    constructor WithBuffer(buffer: nat, size: nat, chunkCapacity: nat)
      requires buffer != NULL && HEADER < size < TWO_TO_64 && chunkCapacity < TWO_TO_64
      ensures Valid() && live == map[] && this.chunkCapacity == chunkCapacity && userBuffer == buffer
    {
      this.chunkCapacity, userBuffer := chunkCapacity, buffer;
      chunks, memory, live := [Chunk(buffer, size - HEADER, 0)], map[], map[];
    }

    /** Give back every chunk but the user's buffer. */
    method Clear()
      requires Valid()
      modifies this`chunks, this`live
      ensures Valid() && live == map[]
      ensures if userBuffer == NULL then chunks == []
        else |chunks| == 1 && chunks[0].base == userBuffer && chunks[0].size == 0
    {
      live := map[];
      while |chunks| > 0 && chunks[0].base != userBuffer
        invariant Valid() && live == map[]
        decreases |chunks|
      {
        DropKeepsBlocks(chunks);
        chunks := chunks[1..];
      }
      if |chunks| > 0 && chunks[0].base == userBuffer {
        chunks := chunks[0 := chunks[0].(size := 0)];
        assert ChunkOk(old(chunks)[|old(chunks)| - 1]);
      }
    }

    /**
     * A block at the top of the head chunk, after adding a chunk if the head has no room. For sizes whose
     * sums wrap around the call does what MallocStep says, and what it leaves is not in order.
     */
    method Malloc(size: nat, available: nat) returns (p: nat)
      requires Valid() && size < TWO_TO_64
      requires available != NULL ==> Free(chunks, available, Request(CapacityFor(chunkCapacity, size)))
      modifies this`chunks, this`live
      ensures Allocation(chunks, p) == MallocStep(old(chunks), chunkCapacity, size, available)
      ensures live == if p == NULL then old(live) else old(live)[p := size]
      ensures Valid() <==> p == NULL || SumsFit(old(chunks), chunkCapacity, size, available)
      ensures SumsFit(old(chunks), chunkCapacity, size, available) ==>
        (p == NULL <==> size == 0 || (NeedsChunk(old(chunks), size) && available == NULL)) && p !in old(live)
    {
      hide Align, Align64, Wrap, ChunksOk, BlocksOk, Free;
      NullIsNotLive(chunks, live);
      if size == 0 {
        return NULL;
      }
      var aligned := Align64(size);
      MallocIsExact(chunks, live, chunkCapacity, size, available);
      if SumsFit(chunks, chunkCapacity, size, available) {
        MallocKeeps(chunks, live, chunkCapacity, size, available);
        MallocKeepsBuffer(chunks, userBuffer, chunkCapacity, size, available);
      }
      if |chunks| == 0 || Wrap(chunks[0].size + aligned) > chunks[0].capacity {
        var ok := AddChunk(if chunkCapacity > aligned then chunkCapacity else aligned, available);
        if !ok {
          return NULL;
        }
      }
      p := Top(chunks[0]);
      chunks := chunks[0 := chunks[0].(size := Wrap(chunks[0].size + aligned))];
      live := live[p := size];
    }

    /** memcpy, byte by byte; the two regions do not overlap. */
    method Copy(to: nat, from: nat, n: nat)
      requires from + n <= to || to + n <= from
      modifies this`memory
      ensures Copied(old(memory), memory, to, from, n)
    {
      var k := 0;
      while k < n
        invariant k <= n && Copied(old(memory), memory, to, from, k)
      {
        ghost var before := memory;
        memory := memory[to + k := Read(memory, from + k)];
        CopyOneMore(old(memory), before, memory, to, from, k);
        k := k + 1;
      }
    }

    /** The block at `p` is the last one of the head chunk, and the chunk has room for it to grow. */
    predicate GrowsInPlace(p: nat, originalSize: nat, newSize: nat)
      requires |chunks| > 0
      reads this
    {
      && p + Align(originalSize) == Top(chunks[0])
      && chunks[0].size + (Align(newSize) - Align(originalSize)) <= chunks[0].capacity
    }

    /** The same for the sums that Realloc forms: the increment in place, or a Malloc of the aligned size. */
    predicate ReallocSumsFit(originalPtr: nat, originalSize: nat, newSize: nat, available: nat)
      reads this
    {
      if originalPtr == NULL then
        SumsFit(chunks, chunkCapacity, newSize, available)
      else
        newSize > 0 ==> Align(newSize) < TWO_TO_64 && IncrementFits(originalPtr, originalSize, newSize)
    }

    /** The increment in place does not wrap around, if the block is the last one of the head chunk. */
    predicate IncrementFits(originalPtr: nat, originalSize: nat, newSize: nat)
      reads this
    {
      Align(newSize) > Align(originalSize) && |chunks| > 0 && originalPtr + Align(originalSize) == Top(chunks[0]) ==>
        chunks[0].size + (Align(newSize) - Align(originalSize)) < TWO_TO_64
    }

    /** Realloc has to move the block. */
    predicate Moves(originalPtr: nat, originalSize: nat, newSize: nat)
      reads this
    {
      && originalPtr != NULL && |chunks| > 0 && Align(originalSize) < Align(newSize) < TWO_TO_64
      && IncrementFits(originalPtr, originalSize, newSize)
      && !GrowsInPlace(originalPtr, originalSize, newSize)
    }

    /**
     * Main result: the contents up to the original size are kept, and so are those of every other block;
     * the block stays where it is exactly when it need not grow or can grow in place. A block is moved by
     * memcpy, which demands that the new one does not overlap it.
     */
    method Realloc(originalPtr: nat, originalSize: nat, newSize: nat, available: nat) returns (p: nat)
      requires Valid() && newSize < TWO_TO_64
      requires originalPtr != NULL ==> originalPtr in live && live[originalPtr] == originalSize
      requires available != NULL ==> Free(chunks, available, Request(CapacityFor(chunkCapacity, newSize)))
      requires Moves(originalPtr, originalSize, newSize) ==>
        SumsFit(chunks, chunkCapacity, Align(newSize), available)
      modifies this`chunks, this`live, this`memory
      ensures Valid() <==> p == NULL || old(ReallocSumsFit(originalPtr, originalSize, newSize, available))
      ensures p == NULL && newSize > 0 ==> live == old(live)
      ensures p == NULL && newSize == 0 ==> live == old(live) - {originalPtr}
      ensures p != NULL ==> newSize > 0 && live == (old(live) - {originalPtr})[p := newSize]
      ensures p != NULL && Valid() ==> p == originalPtr || p !in old(live)
      ensures p != NULL && Valid() && originalPtr != NULL ==>
        (p == originalPtr <==>
            Align(newSize) <= Align(originalSize) || old(GrowsInPlace(originalPtr, originalSize, newSize)))
      ensures p != NULL && originalPtr != NULL ==>
        Contents(memory, p, Min(originalSize, newSize))
          == Contents(old(memory), originalPtr, Min(originalSize, newSize))
      ensures AllKept(old(memory), memory, old(live))
    {
      hide ChunksOk, BlocksOk, Free, AllKept, Contents, Align, Align64, Wrap, MallocStep, SumsFit;
      CopyNothing(memory, live);
      NullIsNotLive(chunks, live);
      if originalPtr == NULL {
        assert live - {NULL} == live;
        NothingForNothing(chunks, chunkCapacity, available);
        p := Malloc(newSize, available);
        return;
      }
      OriginalIsAligned(chunks, live, originalPtr);
      if newSize == 0 {
        LessKeepsBlocks(chunks, live, originalPtr, originalSize);
        live := live - {originalPtr};
        return NULL;
      }
      AlignmentWraps(newSize);
      var original, wanted := Align64(originalSize), Align64(newSize);
      if original >= wanted {
        StaysIsExact(chunks, live, originalPtr, newSize);
        live := live[originalPtr := newSize];
        return originalPtr;
      }
      if originalPtr + original == Start(chunks[0]) + chunks[0].size {
        var increment := wanted - original;
        RoomTestWraps(chunks[0], increment);
        if Wrap(chunks[0].size + increment) <= chunks[0].capacity {
          GrowIsExact(chunks, live, originalPtr, newSize);
          chunks := chunks[0 := chunks[0].(size := Wrap(chunks[0].size + increment))];
          live := live[originalPtr := newSize];
          return originalPtr;
        }
      }
      p := MoveBlock(originalPtr, originalSize, newSize, available);
    }

    /** Allocate and copy. */
    method MoveBlock(originalPtr: nat, originalSize: nat, newSize: nat, available: nat) returns (p: nat)
      requires Valid() && Align(originalSize) < Align(newSize) < TWO_TO_64
      requires SumsFit(chunks, chunkCapacity, Align(newSize), available)
      requires originalPtr in live && live[originalPtr] == originalSize
      requires available != NULL ==> Free(chunks, available, Request(CapacityFor(chunkCapacity, newSize)))
      modifies this`chunks, this`live, this`memory
      ensures Valid()
      ensures p == NULL ==> live == old(live)
      ensures p != NULL ==> p !in old(live) && live == (old(live) - {originalPtr})[p := newSize]
      ensures p != NULL ==> Contents(memory, p, originalSize) == Contents(old(memory), originalPtr, originalSize)
      ensures AllKept(old(memory), memory, old(live))
    {
      hide BlocksOk, ChunksOk, Free, Copied, AllKept, Contents, MallocStep, SumsFit, Align, Align64, Wrap;
      AlignTwice(newSize);
      OriginalIsAligned(chunks, live, originalPtr);
      p := Malloc(Align64(newSize), available);
      if p == NULL {
        CopyNothing(memory, live);
      } else {
        BlocksApart(chunks, live, old(live), p);
        Copy(p, originalPtr, Align64(originalSize));
        CopyKeepsOthers(old(memory), memory, old(live), p, originalPtr, Align(newSize), Align(originalSize));
        CopyIsThere(old(memory), memory, p, originalPtr, Align(originalSize), originalSize);
        LessKeepsBlocks(chunks, live, p, newSize);
        live := live[p := newSize];
        LessKeepsBlocks(chunks, live, originalPtr, originalSize);
        live := live - {originalPtr};
      }
    }

    method AddChunk(capacity: nat, available: nat) returns (ok: bool)
      requires Valid() && capacity < TWO_TO_64
      requires available != NULL ==> Free(chunks, available, Request(capacity))
      modifies this`chunks
      ensures ok == (available != NULL)
      ensures chunks == if ok then [Chunk(available, capacity, 0)] + old(chunks) else old(chunks)
      ensures Valid() <==> !ok || HEADER + capacity < TWO_TO_64
    {
      ok := available != NULL;
      if ok {
        AddIsExact(chunks, live, userBuffer, capacity, available);
        chunks := [Chunk(available, capacity, 0)] + chunks;
      }
    }
  }

  lemma NullIsNotLive(cs: seq<Chunk>, live: Blocks)
    requires ChunksOk(cs) && BlocksOk(cs, live)
    ensures NULL !in live
  {
    assert NULL in live ==> Placed(cs, NULL, live[NULL]);
  }

  /** The block at `p` is apart from all the others. */
  lemma BlocksApart(cs: seq<Chunk>, live: Blocks, others: Blocks, p: nat)
    requires BlocksOk(cs, live) && p in live && p !in others
    requires forall q :: q in others ==> q in live && live[q] == others[q]
    ensures forall q :: q in others ==> Disjoint(p, live[p], q, others[q])
  {
  }

  lemma CopyNothing(m: Memory, live: Blocks)
    ensures AllKept(m, m, live)
  {
  }

  function Min(a: nat, b: nat): nat { if a < b then a else b }

  lemma DropKeepsBlocks(cs: seq<Chunk>)
    requires ChunksOk(cs) && |cs| > 0
    ensures ChunksOk(cs[1..]) && BlocksOk(cs[1..], map[])
  {
  }
}
