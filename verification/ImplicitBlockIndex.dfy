/**
 * How the consumers of an implicit producer find elements (libs/moodycamel/concurrentqueue.h): enqueue
 * (lines 2410-2471), dequeue (lines 2473-2541), dequeue_bulk (lines 2695-2793), and the block index they
 * share (insert, rewind and lookup, lines 2797-2874; new_block_index, lines 2876-2918), with the counting
 * form of Block (lines 1513-1528, 1546-1551).
 *
 * The index is a circular array of pointers to entries. When it is full it doubles: the new array points
 * to the same entries, oldest first, and to as many new ones, while consumers still use the old array. An
 * entry is used again once the last consumer of its block has cleared it.
 *
 * One transition is one access to memory that another thread may touch, by any number of consumers and
 * the one producer. A consumer may claim any number of indexes from `head` on that are below `tail`; that
 * the counters grant claims in no other case is what module DequeueCounters proves. A single dequeue is a
 * claim of one index. Constructors and assignments do not throw, and elements are enqueued one at a time.
 * An uninitialised entry value is arbitrary.
 *
 * History, read by no step: `eof`, which entry was given to each range of 32 indexes (the last one may
 * still be waiting for its block); `used`, which block was; `phase`, who is emptying it; `done` and
 * `enqueued`; for each array, the range in slot 0, the ranges it was given, and the range its tail shows.
 */
module ImplicitBlockIndex {
  import B = BlockIndex

  type Elem = int
  type Id = nat
  type Thread = nat

  const BLOCK_SIZE: nat := B.BLOCK_SIZE

  const INVALID_BLOCK_BASE: nat := 1

  datatype Block = Block(count: nat, data: seq<Elem>)

  datatype Pointer = Null | At(block: Id)

  datatype Entry = Entry(key: nat, value: Pointer)

  /** Range r sits in slot (r - origin) mod size, for origin <= r < hi; the tail slot is that of range
      shown - 1. */
  datatype Header = Header(size: nat, tail: nat, index: seq<nat>, origin: nat, hi: nat, shown: nat)

  datatype Index = Index(headers: seq<Header>, entries: seq<Entry>, eof: seq<nat>)

  /** Who is emptying the block of a range: nobody yet, the consumer that counted its last element, that
      consumer after it cleared the entry, or nobody any more. */
  datatype Phase = Live | Emptied(who: Thread) | Unlinked(who: Thread) | Freed

  datatype Ranges = Ranges(used: seq<Id>, phase: seq<Phase>)

  datatype Producer =
    | PIdle
    | PStart(e: Elem, a: B.Answers)
    | PLook(e: Elem, a: B.Answers)
    | PGrow(e: Elem, a: B.Answers)
    | PKey(e: Elem, a: B.Answers, grown: bool)
    | PTail(e: Elem, a: B.Answers, entry: nat)
    | PRequisition(e: Elem, a: B.Answers, entry: nat)
    | PRewind(e: Elem, entry: nat)
    | PDrop(e: Elem, entry: nat)
    | PReset(e: Elem, entry: nat, id: Id)
    | PPublish(e: Elem, entry: nat, id: Id)
    | PWrite(e: Elem)
    | PStoreTail(e: Elem)

  /** A claim of the indexes from `first` to `stop`, worked off block by block: the part in the block of
      range index / 32 is looked up, moved out and counted; who completes the block releases it. */
  datatype Consumer =
    | Idle
    | Claimed(first: nat, stop: nat)
    | HasHeader(first: nat, stop: nat, header: nat)
    | HasTail(first: nat, stop: nat, header: nat, slot: nat, shown: nat)
    | AtSlot(first: nat, stop: nat, header: nat, slot: nat, index: nat, out: seq<Elem>)
    | HasBlock(first: nat, stop: nat, header: nat, slot: nat, index: nat, out: seq<Elem>, entry: nat, block: Id)
    | Counting(first: nat, stop: nat, header: nat, slot: nat, index: nat, out: seq<Elem>, entry: nat, block: Id)
    | MustUnlink(first: nat, stop: nat, header: nat, slot: nat, index: nat, out: seq<Elem>, entry: nat, block: Id)
    | MustFree(first: nat, stop: nat, header: nat, slot: nat, index: nat, out: seq<Elem>, block: Id)
    | Returned(first: nat, stop: nat, out: seq<Elem>)

  datatype State = State(
    tail: nat,
    head: nat,
    ix: Index,
    rg: Ranges,
    blocks: seq<Block>,
    p: Producer,
    pc: seq<Consumer>,
    done: set<nat>,
    enqueued: seq<Elem>)

  // ---------------------------------------------------------------- transitions

  /** The constructor's own index allocation may have failed; then nothing can ever be enqueued. */
  ghost predicate Init(s: State) {
    && s.tail == s.head == 0
    && (s.ix == Index([], [], []) || FirstIndex(s.ix))
    && s.rg == Ranges([], [])
    && (forall b | 0 <= b < |s.blocks| :: |s.blocks[b].data| == BLOCK_SIZE)
    && s.p == PIdle
    && (forall t | 0 <= t < |s.pc| :: s.pc[t] == Idle)
    && s.done == {} && s.enqueued == []
  }

  predicate FirstIndex(ix: Index) {
    && |ix.headers| == 1 && ix.headers[0].size > 0
    && ix.headers == [Header(ix.headers[0].size, ix.headers[0].size - 1, seq(ix.headers[0].size, a => a), 0, 0, 0)]
    && |ix.entries| == ix.headers[0].size && ix.eof == []
    && AllFresh(ix.entries)
  }

  predicate AllFresh(es: seq<Entry>) {
    forall a | 0 <= a < |es| :: es[a].key == INVALID_BLOCK_BASE
  }

  ghost predicate BeginEnqueue(s: State, s': State, e: Elem, a: B.Answers) {
    s.p == PIdle && s' == s.(p := PStart(e, a))
  }

  /** A new block may be refused for a sub-queue that may not grow. */
  ghost predicate DoStart(s: State, s': State) {
    && s.p.PStart?
    && s' == s.(p :=
         if s.tail % BLOCK_SIZE != 0 then PWrite(s.p.e)
         else if s.p.a.mayGrow then PLook(s.p.e, s.p.a)
         else PIdle)
  }

  /** Slot and entry after the tail. */
  function NextSlot(h: Header): nat
    requires h.size > 0
  {
    B.Slot(h.tail + 1, h.size)
  }

  predicate HasNext(ix: Index) {
    && ix.headers != [] && B.Last(ix.headers).size == |B.Last(ix.headers).index| > 0
    && B.Last(ix.headers).index[NextSlot(B.Last(ix.headers))] < |ix.entries|
  }

  function NextEntry(ix: Index): (x: nat)
    requires HasNext(ix)
    ensures x < |ix.entries|
  {
    B.Last(ix.headers).index[NextSlot(B.Last(ix.headers))]
  }

  /** No consumer needs the entry after the tail any more. */
  predicate NextIsFree(ix: Index)
    requires HasNext(ix)
  {
    ix.entries[NextEntry(ix)].key == INVALID_BLOCK_BASE || ix.entries[NextEntry(ix)].value == Null
  }

  ghost predicate DoLook(s: State, s': State) {
    && s.p.PLook?
    && if s.ix.headers == [] then s' == s.(p := PIdle)
       else
         && HasNext(s.ix)
         && s' == s.(p :=
              if NextIsFree(s.ix) then PKey(s.p.e, s.p.a, false)
              else if s.p.a.index then PGrow(s.p.e, s.p.a)
              else PIdle)
  }

  function DoubledPointer(ix: Index, a: nat): nat
    requires HasNext(ix) && a < 2 * B.Last(ix.headers).size
  {
    var h := B.Last(ix.headers);
    if a < h.size then h.index[B.Slot(h.tail + 1 + a, h.size)] else |ix.entries| + a - h.size
  }

  /** What new_block_index builds. */
  function Doubled(ix: Index): Header
    requires HasNext(ix)
  {
    var h := B.Last(ix.headers);
    Header(
      2 * h.size,
      h.size - 1,
      seq(2 * h.size, a requires 0 <= a < 2 * h.size => DoubledPointer(ix, a)),
      if |ix.eof| >= h.size then |ix.eof| - h.size else 0,
      |ix.eof|,
      |ix.eof|)
  }

  ghost predicate DoGrow(s: State, s': State, more: seq<Entry>) {
    && s.p.PGrow? && HasNext(s.ix)
    && |more| == B.Last(s.ix.headers).size && AllFresh(more)
    && s' == s.(
      ix := Index(s.ix.headers + [Doubled(s.ix)], s.ix.entries + more, s.ix.eof),
      p := PKey(s.p.e, s.p.a, true))
  }

  function WithLast(ix: Index, h: Header): Index
    requires ix.headers != []
  {
    ix.(headers := ix.headers[|ix.headers| - 1 := h])
  }

  /** The index once the entry after the tail has the key of the range at `base`. */
  function Keyed(ix: Index, ranges: nat, base: nat): Index
    requires HasNext(ix)
  {
    var x := NextEntry(ix);
    var eof := if |ix.eof| == ranges then ix.eof + [x] else ix.eof;
    Index(
      ix.headers[|ix.headers| - 1 := B.Last(ix.headers).(hi := |eof|)],
      ix.entries[x := ix.entries[x].(key := base)],
      eof)
  }

  ghost predicate DoKey(s: State, s': State) {
    && s.p.PKey? && HasNext(s.ix)
    && s' == s.(ix := Keyed(s.ix, |s.rg.used|, s.tail), p := PTail(s.p.e, s.p.a, NextEntry(s.ix)))
  }

  ghost predicate DoTail(s: State, s': State) {
    && s.p.PTail? && HasNext(s.ix)
    && var h := B.Last(s.ix.headers);
    && s' == s.(
      ix := WithLast(s.ix, h.(tail := NextSlot(h), shown := h.shown + 1)),
      p := PRequisition(s.p.e, s.p.a, s.p.entry))
  }

  /** No range has this block that was not given back. */
  predicate NotInUse(rg: Ranges, id: Id) {
    forall r | 0 <= r < |rg.used| && r < |rg.phase| :: rg.used[r] == id ==> rg.phase[r].Freed?
  }

  /** requisition_block yields some block that is not in use here (module FreeList), or none. */
  ghost predicate DoRequisition(s: State, s': State, id: Id) {
    && s.p.PRequisition?
    && if !s.p.a.block then s' == s.(p := PRewind(s.p.e, s.p.entry))
       else id < |s.blocks| && NotInUse(s.rg, id) && s' == s.(p := PReset(s.p.e, s.p.entry, id))
  }

  ghost predicate DoRewind(s: State, s': State) {
    && s.p.PRewind? && HasNext(s.ix)
    && var h := B.Last(s.ix.headers);
    && h.shown > 0
    && s' == s.(
      ix := WithLast(s.ix, h.(tail := B.Slot(h.tail - 1, h.size), shown := h.shown - 1)),
      p := PDrop(s.p.e, s.p.entry))
  }

  function WithValue(ix: Index, x: nat, v: Pointer): Index
    requires x < |ix.entries|
  {
    ix.(entries := ix.entries[x := ix.entries[x].(value := v)])
  }

  ghost predicate DoDrop(s: State, s': State) {
    && s.p.PDrop? && s.p.entry < |s.ix.entries|
    && s' == s.(ix := WithValue(s.ix, s.p.entry, Null), p := PIdle)
  }

  ghost predicate DoReset(s: State, s': State) {
    && s.p.PReset? && s.p.id < |s.blocks|
    && s' == s.(
      blocks := s.blocks[s.p.id := s.blocks[s.p.id].(count := 0)],
      p := PPublish(s.p.e, s.p.entry, s.p.id))
  }

  ghost predicate DoPublish(s: State, s': State) {
    && s.p.PPublish? && s.p.entry < |s.ix.entries|
    && s' == s.(
      ix := WithValue(s.ix, s.p.entry, At(s.p.id)),
      rg := Ranges(s.rg.used + [s.p.id], s.rg.phase + [Live]),
      p := PWrite(s.p.e))
  }

  /** The tail block is the one that was published last. */
  ghost predicate DoWrite(s: State, s': State) {
    && s.p.PWrite? && s.rg.used != [] && B.Last(s.rg.used) < |s.blocks|
    && var id := B.Last(s.rg.used);
    && |s.blocks[id].data| == BLOCK_SIZE
    && s' == s.(
      blocks := s.blocks[id := s.blocks[id].(data := s.blocks[id].data[s.tail % BLOCK_SIZE := s.p.e])],
      p := PStoreTail(s.p.e))
  }

  ghost predicate DoStoreTail(s: State, s': State) {
    && s.p.PStoreTail?
    && s' == s.(tail := s.tail + 1, enqueued := s.enqueued + [s.p.e], p := PIdle)
  }

  ghost predicate ProducerStep(s: State, s': State) {
    || DoStart(s, s')
    || DoLook(s, s')
    || (exists more :: DoGrow(s, s', more))
    || DoKey(s, s')
    || DoTail(s, s')
    || (exists id :: DoRequisition(s, s', id))
    || DoRewind(s, s')
    || DoDrop(s, s')
    || DoReset(s, s')
    || DoPublish(s, s')
    || DoWrite(s, s')
    || DoStoreTail(s, s')
  }

  ghost predicate Claim(s: State, s': State, t: Thread, count: nat) {
    && t < |s.pc| && s.pc[t] == Idle && count > 0 && s.head + count <= s.tail
    && s' == s.(head := s.head + count, pc := s.pc[t := Claimed(s.head, s.head + count)])
  }

  ghost predicate DoLoadHeader(s: State, s': State, t: Thread) {
    && t < |s.pc| && s.pc[t].Claimed? && s.ix.headers != []
    && s' == s.(pc := s.pc[t := HasHeader(s.pc[t].first, s.pc[t].stop, |s.ix.headers| - 1)])
  }

  ghost predicate DoLoadTail(s: State, s': State, t: Thread) {
    && t < |s.pc| && s.pc[t].HasHeader? && s.pc[t].header < |s.ix.headers|
    && var HasHeader(first, stop, header) := s.pc[t];
    && var h := s.ix.headers[header];
    && s' == s.(pc := s.pc[t := HasTail(first, stop, header, h.tail, h.shown)])
  }

  /** Read the key in the tail slot, and compute the slot of the first index. */
  ghost predicate DoLoadBase(s: State, s': State, t: Thread) {
    && t < |s.pc| && s.pc[t].HasTail? && s.pc[t].header < |s.ix.headers|
    && var HasTail(first, stop, header, slot, shown) := s.pc[t];
    && var h := s.ix.headers[header];
    && h.size > 0 && slot < |h.index| && h.index[slot] < |s.ix.entries|
    && s' == s.(pc := s.pc[t :=
         AtSlot(first, stop, header, B.LookupSlot(first, slot, s.ix.entries[h.index[slot]].key, h.size), first, [])])
  }

  ghost predicate DoLoadBlock(s: State, s': State, t: Thread) {
    && t < |s.pc| && s.pc[t].AtSlot? && s.pc[t].header < |s.ix.headers|
    && var AtSlot(first, stop, header, slot, index, out) := s.pc[t];
    && slot < |s.ix.headers[header].index|
    && var x := s.ix.headers[header].index[slot];
    && x < |s.ix.entries| && s.ix.entries[x].value.At?
    && s' == s.(pc := s.pc[t := HasBlock(first, stop, header, slot, index, out, x, s.ix.entries[x].value.block)])
  }

  ghost predicate DoMoveOut(s: State, s': State, t: Thread) {
    && t < |s.pc| && s.pc[t].HasBlock? && s.pc[t].block < |s.blocks|
    && var HasBlock(first, stop, header, slot, index, out, x, id) := s.pc[t];
    && |s.blocks[id].data| == BLOCK_SIZE
    && var out' := out + [s.blocks[id].data[(first + |out|) % BLOCK_SIZE]];
    && s' == s.(pc := s.pc[t :=
         if first + |out'| == B.PartEnd(index, stop)
         then Counting(first, stop, header, slot, index, out', x, id)
         else HasBlock(first, stop, header, slot, index, out', x, id)])
  }

  function Interval(a: nat, b: nat): (r: set<nat>)
    ensures forall x :: x in r <==> a <= x < b
  {
    if a < b then Interval(a, b - 1) + {b - 1} else {}
  }

  /** After a part, the walk goes on to the next slot of the same header. */
  function AfterPart(c: Consumer, size: nat): Consumer
    requires (c.Counting? || c.MustFree?) && size > 0
  {
    if c.first + |c.out| < c.stop
    then AtSlot(c.first, c.stop, c.header, B.Slot(c.slot + 1, size), c.first + |c.out|, c.out)
    else Returned(c.first, c.stop, c.out)
  }

  /** set_many_empty: one addition for all elements of the part. The consumer that completes the count of a
      block goes on to release it. */
  ghost predicate DoSetEmpty(s: State, s': State, t: Thread) {
    && t < |s.pc| && s.pc[t].Counting? && s.pc[t].block < |s.blocks|
    && s.pc[t].header < |s.ix.headers| && s.ix.headers[s.pc[t].header].size > 0
    && var c := s.pc[t];
    && c.index <= c.first + |c.out|
    && var r := c.index / BLOCK_SIZE;
    && r < |s.rg.phase|
    && var count := s.blocks[c.block].count + (c.first + |c.out| - c.index);
    && s' == s.(
      blocks := s.blocks[c.block := s.blocks[c.block].(count := count)],
      pc := s.pc[t :=
        if count == BLOCK_SIZE
        then MustUnlink(c.first, c.stop, c.header, c.slot, c.index, c.out, c.entry, c.block)
        else AfterPart(c, s.ix.headers[c.header].size)],
      rg := if count == BLOCK_SIZE then s.rg.(phase := s.rg.phase[r := Emptied(t)]) else s.rg,
      done := s.done + Interval(c.index, c.first + |c.out|))
  }

  ghost predicate DoUnlink(s: State, s': State, t: Thread) {
    && t < |s.pc| && s.pc[t].MustUnlink? && s.pc[t].entry < |s.ix.entries|
    && var c := s.pc[t];
    && c.index / BLOCK_SIZE < |s.rg.phase|
    && s' == s.(
      ix := WithValue(s.ix, c.entry, Null),
      rg := s.rg.(phase := s.rg.phase[c.index / BLOCK_SIZE := Unlinked(t)]),
      pc := s.pc[t := MustFree(c.first, c.stop, c.header, c.slot, c.index, c.out, c.block)])
  }

  /** add_block_to_free_list */
  ghost predicate DoFree(s: State, s': State, t: Thread) {
    && t < |s.pc| && s.pc[t].MustFree? && s.pc[t].index / BLOCK_SIZE < |s.rg.phase|
    && s.pc[t].header < |s.ix.headers| && s.ix.headers[s.pc[t].header].size > 0
    && s' == s.(
      rg := s.rg.(phase := s.rg.phase[s.pc[t].index / BLOCK_SIZE := Freed]),
      pc := s.pc[t := AfterPart(s.pc[t], s.ix.headers[s.pc[t].header].size)])
  }

  ghost predicate DoReturn(s: State, s': State, t: Thread) {
    && t < |s.pc| && s.pc[t].Returned?
    && s' == s.(pc := s.pc[t := Idle])
  }

  ghost predicate ConsumerStep(s: State, s': State, t: Thread) {
    || (exists count :: Claim(s, s', t, count))
    || DoLoadHeader(s, s', t)
    || DoLoadTail(s, s', t)
    || DoLoadBase(s, s', t)
    || DoLoadBlock(s, s', t)
    || DoMoveOut(s, s', t)
    || DoSetEmpty(s, s', t)
    || DoUnlink(s, s', t)
    || DoFree(s, s', t)
    || DoReturn(s, s', t)
  }

  ghost predicate Step(s: State, s': State) {
    || (exists e, a :: BeginEnqueue(s, s', e, a))
    || ProducerStep(s, s')
    || (exists t :: ConsumerStep(s, s', t))
  }

  // ---------------------------------------------------------------- the invariant

  function Bit(b: bool): nat {
    if b then 1 else 0
  }

  predicate Gone(ph: Phase) {
    ph.Unlinked? || ph.Freed?
  }

  /** Every range below this one is gone; the entries of the others are still theirs. */
  function Lo(ix: Index): (lo: nat) {
    if ix.headers == [] then 0
    else
      var h := B.Last(ix.headers);
      if |ix.eof| >= h.origin + h.size then |ix.eof| - h.size else h.origin
  }

  predicate SlotOk(h: Header, eof: seq<nat>, r: nat)
    requires h.size > 0 && |h.index| == h.size && r < |eof|
  {
    h.index[B.Slot(r - h.origin, h.size)] == eof[r]
  }

  predicate HeaderOk(h: Header, eof: seq<nat>, entries: nat) {
    && h.size > 0 && |h.index| == h.size
    && h.origin <= h.shown <= h.hi <= |eof|
    && h.tail == B.Slot(h.shown - 1 - h.origin, h.size)
    && (forall r | h.origin <= r < h.hi :: SlotOk(h, eof, r))
    && (forall a | 0 <= a < h.size :: h.index[a] < entries)
    && (forall a, b | 0 <= a < b < h.size :: h.index[a] != h.index[b])
  }

  /** The slot of a range that has no entry yet holds an unused one. */
  predicate FreshOk(h: Header, entries: seq<Entry>, r: nat)
    requires h.size > 0 && |h.index| == h.size
  {
    var x := h.index[B.Slot(r - h.origin, h.size)];
    x < |entries| && entries[x].key == INVALID_BLOCK_BASE
  }

  predicate KeyOk(ix: Index, r: nat)
    requires r < |ix.eof|
  {
    ix.eof[r] < |ix.entries| && ix.entries[ix.eof[r]].key == r * BLOCK_SIZE
  }

  predicate ValueOk(ix: Index, rg: Ranges, r: nat)
    requires r < |ix.eof| && r < |rg.used| && r < |rg.phase|
  {
    ix.eof[r] < |ix.entries| && ix.entries[ix.eof[r]].value == if Gone(rg.phase[r]) then Null else At(rg.used[r])
  }

  /** Every entry of the array in use was given to some range. */
  predicate Full(ix: Index)
    requires ix.headers != []
  {
    |ix.eof| >= B.Last(ix.headers).origin + B.Last(ix.headers).size
  }

  /** The tail shows the range that has no block yet. */
  predicate Linking(p: Producer) {
    p.PRequisition? || p.PRewind? || p.PReset? || p.PPublish?
  }

  /** The producer is at work on the entry of the next range. */
  predicate AtEntry(p: Producer) {
    Linking(p) || p.PTail? || p.PDrop?
  }

  predicate HeadersOk(ix: Index) {
    && (forall i | 0 <= i < |ix.headers| :: HeaderOk(ix.headers[i], ix.eof, |ix.entries|))
    && (ix.headers == [] ==> ix.eof == [])
    && (ix.headers != [] ==>
          var h := B.Last(ix.headers);
          && h.hi == |ix.eof|
          && forall r | |ix.eof| <= r < h.origin + h.size :: FreshOk(h, ix.entries, r))
  }

  predicate KeysOk(ix: Index) {
    forall r | Lo(ix) <= r < |ix.eof| :: KeyOk(ix, r)
  }

  predicate ValuesOk(ix: Index, rg: Ranges) {
    && |rg.used| == |rg.phase| && |rg.used| <= |ix.eof| <= |rg.used| + 1
    && (forall r | Lo(ix) <= r < |rg.used| :: ValueOk(ix, rg, r))
    && (forall r | 0 <= r < Lo(ix) && r < |rg.phase| :: Gone(rg.phase[r]))
  }

  predicate StageOk(ix: Index, rg: Ranges, p: Producer) {
    && (ix.headers != [] ==>
          B.Last(ix.headers).shown == |rg.used| + Bit(Linking(p)) && B.Last(ix.headers).origin <= |rg.used|)
    && (AtEntry(p) ==> |ix.eof| == |rg.used| + 1 && p.entry == ix.eof[|rg.used|])
    && (!AtEntry(p) && |ix.eof| == |rg.used| + 1 ==>
          ix.eof[|rg.used|] < |ix.entries| && ix.entries[ix.eof[|rg.used|]].value == Null)
    && (p.PGrow? || p.PKey? || AtEntry(p) ==> ix.headers != [])
    && (p.PGrow? ==> |ix.eof| == |rg.used| && Full(ix))
    && (p.PKey? && |ix.eof| == |rg.used| && Full(ix) && Lo(ix) < |rg.phase| ==> Gone(rg.phase[Lo(ix)]))
    && (p.PKey? && p.grown ==> |ix.eof| == |rg.used| && !Full(ix))
  }

  ghost predicate IndexOk(ix: Index, rg: Ranges, p: Producer) {
    HeadersOk(ix) && KeysOk(ix) && ValuesOk(ix, rg) && StageOk(ix, rg, p)
  }

  predicate ProducerOk(tail: nat, ranges: nat, p: Producer) {
    && (p.PIdle? || p.PStart? ==> (ranges - 1) * BLOCK_SIZE < tail <= ranges * BLOCK_SIZE)
    && (p.PLook? || p.PGrow? || p.PKey? || AtEntry(p) ==> tail == ranges * BLOCK_SIZE)
    && (p.PWrite? || p.PStoreTail? ==> (ranges - 1) * BLOCK_SIZE <= tail < ranges * BLOCK_SIZE)
  }

  function DoneIn(done: set<nat>, r: nat): (d: set<nat>) {
    set o | 0 <= o < BLOCK_SIZE && B.IsOffset(o) && r * BLOCK_SIZE + o in done
  }

  /** Block of range r, as long as it was not given back: its count is exact, and what was not moved out
      is there. */
  predicate RangeOk(rg: Ranges, blocks: seq<Block>, done: set<nat>, enqueued: seq<Elem>, r: nat)
    requires r < |rg.used| && r < |rg.phase|
  {
    && (rg.phase[r].Live? <==> |DoneIn(done, r)| < BLOCK_SIZE)
    && (!rg.phase[r].Freed? ==>
          && rg.used[r] < |blocks|
          && |blocks[rg.used[r]].data| == BLOCK_SIZE
          && blocks[rg.used[r]].count == |DoneIn(done, r)|
          && (forall o | 0 <= o < BLOCK_SIZE && B.IsOffset(o) :: ElementOk(blocks[rg.used[r]], done, enqueued, r, o)))
  }

  predicate ElementOk(b: Block, done: set<nat>, enqueued: seq<Elem>, r: nat, o: nat)
    requires |b.data| == BLOCK_SIZE && o < BLOCK_SIZE
  {
    r * BLOCK_SIZE + o < |enqueued| && r * BLOCK_SIZE + o !in done ==> b.data[o] == enqueued[r * BLOCK_SIZE + o]
  }

  ghost predicate RangesOk(rg: Ranges, blocks: seq<Block>, done: set<nat>, enqueued: seq<Elem>) {
    && |rg.used| == |rg.phase|
    && (forall b | 0 <= b < |blocks| :: |blocks[b].data| == BLOCK_SIZE)
    && (forall r | 0 <= r < |rg.used| :: RangeOk(rg, blocks, done, enqueued, r))
  }

  /** The block and the element that the producer has in hand. */
  predicate InHand(rg: Ranges, blocks: seq<Block>, p: Producer, tail: nat) {
    && (p.PReset? || p.PPublish? ==> p.id < |blocks| && NotInUse(rg, p.id))
    && (p.PPublish? ==> blocks[p.id].count == 0)
    && (p.PStoreTail? ==>
          && rg.used != [] && B.Last(rg.used) < |blocks| && |blocks[B.Last(rg.used)].data| == BLOCK_SIZE
          && blocks[B.Last(rg.used)].data[tail % BLOCK_SIZE] == p.e)
  }

  /** Two ranges share a block only if one of them has given it back. */
  predicate DifferentBlocks(rg: Ranges, r: nat, q: nat)
    requires |rg.used| == |rg.phase| && r < |rg.used| && q < |rg.used|
  {
    r != q && !rg.phase[r].Freed? && !rg.phase[q].Freed? ==> rg.used[r] != rg.used[q]
  }

  predicate DistinctOk(rg: Ranges) {
    && |rg.used| == |rg.phase|
    && (forall r, q | 0 <= r < |rg.used| && 0 <= q < |rg.used| :: DifferentBlocks(rg, r, q))
  }

  predicate WindowOk(head: nat, tail: nat, done: set<nat>, enqueued: seq<Elem>) {
    head <= tail == |enqueued| && forall x | x in done :: x < head
  }

  predicate Shows(h: Header, r: nat, k: nat, slot: nat, shown: nat) {
    && h.size > 0 && h.origin <= r && k < shown <= h.hi
    && slot == B.Slot(shown - 1 - h.origin, h.size)
  }

  /** The claimed indexes whose elements are not counted yet. */
  predicate Holds(c: Consumer, x: nat) {
    match c
    case Idle => false
    case Claimed(first, stop) => first <= x < stop
    case HasHeader(first, stop, _) => first <= x < stop
    case HasTail(first, stop, _, _, _) => first <= x < stop
    case AtSlot(_, stop, _, _, index, _) => index <= x < stop
    case HasBlock(_, stop, _, _, index, _, _, _) => index <= x < stop
    case Counting(_, stop, _, _, index, _, _, _) => index <= x < stop
    case MustUnlink(first, stop, _, _, _, out, _, _) => first + |out| <= x < stop
    case MustFree(first, stop, _, _, _, out, _) => first + |out| <= x < stop
    case Returned(_, _, _) => false
  }

  predicate Releasing(c: Consumer) {
    c.MustUnlink? || c.MustFree?
  }

  predicate HasOutput(c: Consumer) {
    c.AtSlot? || c.HasBlock? || c.Counting? || Releasing(c) || c.Returned?
  }

  /** The walk is at the slot of the range of `index`, in a header that covers the rest of the claim. */
  predicate Walks(s: State, header: nat, slot: nat, index: nat, stop: nat) {
    && header < |s.ix.headers|
    && var h := s.ix.headers[header];
    && h.size > 0 && index < stop
    && h.origin <= index / BLOCK_SIZE && (stop - 1) / BLOCK_SIZE < h.hi
    && slot == B.Slot(index / BLOCK_SIZE - h.origin, h.size)
  }

  /** The block of a part is the one of its range, and so is the entry. */
  predicate PartOk(s: State, index: nat, block: Id) {
    && index / BLOCK_SIZE < |s.rg.used| == |s.rg.phase| && |s.rg.used| <= |s.ix.eof|
    && block == s.rg.used[index / BLOCK_SIZE]
  }

  predicate EntryIs(s: State, index: nat, entry: nat) {
    index / BLOCK_SIZE < |s.ix.eof| && entry == s.ix.eof[index / BLOCK_SIZE]
  }

  predicate PlaceOk(s: State, c: Consumer, t: Thread)
    requires !c.Idle? ==> c.first < c.stop
  {
    match c
    case Idle => true
    case Claimed(first, stop) => s.ix.headers != []
    case HasHeader(first, stop, i) =>
      && i < |s.ix.headers|
      && s.ix.headers[i].origin <= first / BLOCK_SIZE && (stop - 1) / BLOCK_SIZE < s.ix.headers[i].shown
    case HasTail(first, stop, i, slot, shown) =>
      i < |s.ix.headers| && Shows(s.ix.headers[i], first / BLOCK_SIZE, (stop - 1) / BLOCK_SIZE, slot, shown)
    case AtSlot(first, stop, i, slot, index, out) =>
      Walks(s, i, slot, index, stop) && index == first + |out|
    case HasBlock(first, stop, i, slot, index, out, x, id) =>
      && Walks(s, i, slot, index, stop) && index <= first + |out| < B.PartEnd(index, stop)
      && PartOk(s, index, id) && EntryIs(s, index, x)
    case Counting(first, stop, i, slot, index, out, x, id) =>
      && Walks(s, i, slot, index, stop) && index < first + |out| == B.PartEnd(index, stop)
      && PartOk(s, index, id) && EntryIs(s, index, x)
    case MustUnlink(first, stop, i, slot, index, out, x, id) =>
      && Walks(s, i, slot, index, stop) && index < first + |out| == B.PartEnd(index, stop)
      && PartOk(s, index, id) && EntryIs(s, index, x) && s.rg.phase[index / BLOCK_SIZE] == Emptied(t)
    case MustFree(first, stop, i, slot, index, out, id) =>
      && Walks(s, i, slot, index, stop) && index < first + |out| == B.PartEnd(index, stop)
      && PartOk(s, index, id) && s.rg.phase[index / BLOCK_SIZE] == Unlinked(t)
    case Returned(first, stop, out) => first + |out| == stop
  }

  ghost predicate ThreadOk(s: State, t: Thread)
    requires t < |s.pc|
  {
    var c := s.pc[t];
    && (!c.Idle? ==>
          && c.first < c.stop <= s.head && c.stop <= |s.enqueued| && (c.stop - 1) / BLOCK_SIZE < |s.rg.used|)
    && (forall x: nat | Holds(c, x) :: x !in s.done)
    && (HasOutput(c) ==> B.Delivers(c.first, c.out, s.enqueued))
    && PlaceOk(s, c, t)
  }

  ghost predicate Apart(s: State, t: Thread, u: Thread)
    requires t < |s.pc| && u < |s.pc|
  {
    t != u ==> forall x: nat :: !(Holds(s.pc[t], x) && Holds(s.pc[u], x))
  }

  /** Whoever must release a range is there. */
  predicate Released(s: State, r: nat)
    requires r < |s.rg.phase|
  {
    && (s.rg.phase[r].Emptied? ==>
          var t := s.rg.phase[r].who; t < |s.pc| && s.pc[t].MustUnlink? && s.pc[t].index / BLOCK_SIZE == r)
    && (s.rg.phase[r].Unlinked? ==>
          var t := s.rg.phase[r].who; t < |s.pc| && s.pc[t].MustFree? && s.pc[t].index / BLOCK_SIZE == r)
  }

  ghost predicate ThreadsOk(s: State) {
    && (forall t | 0 <= t < |s.pc| :: ThreadOk(s, t))
    && (forall t, u | 0 <= t < |s.pc| && 0 <= u < |s.pc| :: Apart(s, t, u))
    && (forall r | 0 <= r < |s.rg.phase| :: Released(s, r))
  }

  ghost predicate Inv(s: State) {
    && IndexOk(s.ix, s.rg, s.p)
    && ProducerOk(s.tail, |s.rg.used|, s.p)
    && RangesOk(s.rg, s.blocks, s.done, s.enqueued)
    && InHand(s.rg, s.blocks, s.p, s.tail)
    && DistinctOk(s.rg)
    && WindowOk(s.head, s.tail, s.done, s.enqueued)
    && ThreadsOk(s)
  }

  // ---------------------------------------------------------------- entries of the index

  /** Different ranges that are not gone have different entries. */
  lemma EntriesDiffer(ix: Index, r: nat, q: nat)
    requires HeadersOk(ix) && Lo(ix) <= r < q < |ix.eof|
    ensures ix.eof[r] != ix.eof[q]
  {
    var h := B.Last(ix.headers);
    assert HeaderOk(h, ix.eof, |ix.entries|);
    assert SlotOk(h, ix.eof, r) && SlotOk(h, ix.eof, q);
    B.SlotsDiffer(r - h.origin, q - h.origin, h.size);
  }

  /** The slot after the tail is that of the next range, and its entry not that of any other. */
  lemma NextIsRange(ix: Index)
    requires HeadersOk(ix) && ix.headers != []
    ensures HasNext(ix)
    ensures var h := B.Last(ix.headers); NextSlot(h) == B.Slot(h.shown - h.origin, h.size)
  {
    var h := B.Last(ix.headers);
    assert HeaderOk(h, ix.eof, |ix.entries|);
    B.SlotOffset(h.shown - 1 - h.origin, 1, h.size);
    assert h.shown - 1 - h.origin + 1 == h.shown - h.origin;
    assert h.index[NextSlot(h)] < |ix.entries|;
  }

  /** With the tail on the last range that has a block, the next entry belongs to nobody else. */
  lemma NextIsApart(ix: Index, rg: Ranges, r: nat)
    requires HeadersOk(ix) && ix.headers != [] && HasNext(ix)
    requires B.Last(ix.headers).shown == |rg.used| <= |ix.eof|
    requires r < |rg.used| && Lo(ix) <= r
    requires |ix.eof| == |rg.used| ==> |rg.used| - r < B.Last(ix.headers).size
    ensures ix.eof[r] != NextEntry(ix)
  {
    var h := B.Last(ix.headers);
    assert HeaderOk(h, ix.eof, |ix.entries|);
    NextIsRange(ix);
    assert SlotOk(h, ix.eof, r);
    B.SlotsDiffer(r - h.origin, |rg.used| - h.origin, h.size);
  }

  /** A range that is already keyed has the entry after the tail. */
  lemma NextIsKeyed(ix: Index, rg: Ranges)
    requires HeadersOk(ix) && ix.headers != [] && HasNext(ix)
    requires B.Last(ix.headers).shown == |rg.used| < |ix.eof|
    ensures NextEntry(ix) == ix.eof[|rg.used|]
  {
    var h := B.Last(ix.headers);
    assert HeaderOk(h, ix.eof, |ix.entries|);
    NextIsRange(ix);
    assert SlotOk(h, ix.eof, |rg.used|);
  }

  /** In a full array the entry after the tail is that of the oldest range. */
  lemma NextIsOldest(ix: Index, rg: Ranges)
    requires HeadersOk(ix) && ix.headers != [] && HasNext(ix) && Full(ix)
    requires B.Last(ix.headers).shown == |rg.used| == |ix.eof|
    ensures Lo(ix) < |ix.eof| && NextEntry(ix) == ix.eof[Lo(ix)]
  {
    hide B.Slot;
    var h := B.Last(ix.headers);
    assert HeaderOk(h, ix.eof, |ix.entries|);
    NextIsRange(ix);
    assert SlotOk(h, ix.eof, Lo(ix));
    B.SlotShift(Lo(ix) - h.origin, 1, h.size);
    assert Lo(ix) - h.origin + 1 * h.size == |ix.eof| - h.origin;
  }

  /** In an array that is not full the entry after the tail was never used. */
  lemma NextIsFresh(ix: Index, rg: Ranges)
    requires HeadersOk(ix) && ix.headers != [] && HasNext(ix) && !Full(ix)
    requires B.Last(ix.headers).shown == |rg.used| == |ix.eof|
    ensures ix.entries[NextEntry(ix)].key == INVALID_BLOCK_BASE
  {
    var h := B.Last(ix.headers);
    assert HeaderOk(h, ix.eof, |ix.entries|);
    NextIsRange(ix);
    assert FreshOk(h, ix.entries, |ix.eof|);
  }

  // ---------------------------------------------------------------- the index keeps its shape

  lemma LookKeepsIndex(s: State, s': State)
    requires IndexOk(s.ix, s.rg, s.p) && DoLook(s, s')
    ensures IndexOk(s'.ix, s'.rg, s'.p)
  {
    var ix, rg := s.ix, s.rg;
    if ix.headers != [] && !s'.p.PIdle? {
      NextIsRange(ix);
      var x := ix.entries[NextEntry(ix)];
      if |ix.eof| == |rg.used| + 1 {
        NextIsKeyed(ix, rg);
      } else if Full(ix) {
        NextIsOldest(ix, rg);
        assert KeyOk(ix, Lo(ix)) && ValueOk(ix, rg, Lo(ix));
      } else {
        NextIsFresh(ix, rg);
      }
    }
  }

  /** The entries of the doubled array: the old ones in order, then the new ones. */
  lemma DoubledSlots(ix: Index, more: seq<Entry>)
    requires HeadersOk(ix) && HasNext(ix) && Full(ix) && B.Last(ix.headers).shown == |ix.eof|
    requires |more| == B.Last(ix.headers).size
    ensures HeaderOk(Doubled(ix), ix.eof, |ix.entries| + |more|)
  {
    var h, h' := B.Last(ix.headers), Doubled(ix);
    assert HeaderOk(h, ix.eof, |ix.entries|);
    DoubledDiffers(ix);
    forall r | h'.origin <= r < h'.hi
      ensures SlotOk(h', ix.eof, r)
    {
      DoubledSlot(ix, r);
    }
    forall a | 0 <= a < h'.size
      ensures h'.index[a] < |ix.entries| + |more|
    {
      DoubledEntry(ix, a);
    }
    B.SlotOfSmall(h.size - 1, h'.size);
  }

  lemma DoubledEntry(ix: Index, a: nat)
    requires HeadersOk(ix) && HasNext(ix) && a < 2 * B.Last(ix.headers).size
    ensures Doubled(ix).index[a] < |ix.entries| <==> a < B.Last(ix.headers).size
    ensures Doubled(ix).index[a] < |ix.entries| + B.Last(ix.headers).size
  {
    var h := B.Last(ix.headers);
    assert HeaderOk(h, ix.eof, |ix.entries|);
    assert a < h.size ==> h.index[B.Slot(h.tail + 1 + a, h.size)] < |ix.entries|;
  }

  lemma DoubledDiffers(ix: Index)
    requires HeadersOk(ix) && HasNext(ix)
    ensures forall a, b | 0 <= a < b < Doubled(ix).size :: Doubled(ix).index[a] != Doubled(ix).index[b]
  {
    var h, h' := B.Last(ix.headers), Doubled(ix);
    assert HeaderOk(h, ix.eof, |ix.entries|);
    forall a, b | 0 <= a < b < h'.size
      ensures h'.index[a] != h'.index[b]
    {
      DoubledEntry(ix, a);
      DoubledEntry(ix, b);
      if b < h.size {
        B.SlotsDiffer(h.tail + 1 + a, h.tail + 1 + b, h.size);
      }
    }
  }

  lemma DoubledSlot(ix: Index, r: nat)
    requires HeadersOk(ix) && HasNext(ix) && Full(ix) && B.Last(ix.headers).shown == |ix.eof|
    requires |ix.eof| - B.Last(ix.headers).size <= r < |ix.eof|
    ensures SlotOk(Doubled(ix), ix.eof, r)
  {
    var h, h' := B.Last(ix.headers), Doubled(ix);
    assert HeaderOk(h, ix.eof, |ix.entries|);
    var a := r - h'.origin;
    B.SlotOfSmall(a, h'.size);
    B.SlotOffset(h.shown - 1 - h.origin, 1 + a, h.size);
    assert h.tail + 1 + a == B.Slot(h.shown - 1 - h.origin, h.size) + (1 + a);
    B.SlotShift(r - h.origin, 1, h.size);
    assert h.shown - 1 - h.origin + (1 + a) == r - h.origin + 1 * h.size;
    assert SlotOk(h, ix.eof, r);
  }

  lemma GrowKeepsHeaders(s: State, s': State, more: seq<Entry>)
    requires IndexOk(s.ix, s.rg, s.p) && DoGrow(s, s', more)
    ensures HeadersOk(s'.ix)
  {
    var ix, ix' := s.ix, s'.ix;
    var h, h' := B.Last(ix.headers), B.Last(ix'.headers);
    assert HeaderOk(h, ix.eof, |ix.entries|);
    DoubledSlots(ix, more);
    hide KeysOk, ValuesOk, SlotOk;
    forall i | 0 <= i < |ix'.headers|
      ensures HeaderOk(ix'.headers[i], ix'.eof, |ix'.entries|)
    {
      if i < |ix.headers| {
        assert HeaderOk(ix.headers[i], ix.eof, |ix.entries|);
      }
    }
    forall r | |ix'.eof| <= r < h'.origin + h'.size
      ensures FreshOk(h', ix'.entries, r)
    {
      B.SlotOfSmall(r - h'.origin, h'.size);
    }
  }

  lemma GrowKeepsIndex(s: State, s': State, more: seq<Entry>)
    requires IndexOk(s.ix, s.rg, s.p) && DoGrow(s, s', more)
    ensures IndexOk(s'.ix, s'.rg, s'.p) && s'.p.PKey?
    ensures HasNext(s'.ix) && s'.ix.entries[NextEntry(s'.ix)].key == INVALID_BLOCK_BASE
  {
    var ix, ix' := s.ix, s'.ix;
    GrowKeepsHeaders(s, s', more);
    assert HeaderOk(B.Last(ix.headers), ix.eof, |ix.entries|);
    hide HeadersOk, HeaderOk, FreshOk, B.Slot, DoubledPointer;
    assert Lo(ix') == Lo(ix);
    forall r | Lo(ix') <= r < |ix'.eof|
      ensures KeyOk(ix', r)
    {
      assert KeyOk(ix, r);
    }
    forall r | Lo(ix') <= r < |s'.rg.used|
      ensures ValueOk(ix', s'.rg, r)
    {
      assert ValueOk(ix, s.rg, r);
    }
    NextIsRange(ix');
    NextIsFresh(ix', s'.rg);
  }

  lemma KeyedEntries(s: State, s': State)
    requires IndexOk(s.ix, s.rg, s.p) && DoKey(s, s')
    ensures NextEntry(s.ix) == s'.ix.eof[|s.rg.used|] && |s'.ix.eof| == |s.rg.used| + 1
  {
    assert HeaderOk(B.Last(s.ix.headers), s.ix.eof, |s.ix.entries|);
    if |s.ix.eof| > |s.rg.used| {
      NextIsKeyed(s.ix, s.rg);
    }
  }

  lemma KeyedHeader(s: State, s': State, i: nat)
    requires IndexOk(s.ix, s.rg, s.p) && DoKey(s, s') && i < |s.ix.headers|
    ensures HeaderOk(s'.ix.headers[i], s'.ix.eof, |s'.ix.entries|)
  {
    var ix, ix' := s.ix, s'.ix;
    var h := B.Last(ix.headers);
    assert HeaderOk(ix.headers[i], ix.eof, |ix.entries|) && HeaderOk(h, ix.eof, |ix.entries|);
    NextIsRange(ix);
    KeyedEntries(s, s');
    hide B.Slot, HeaderOk, KeysOk, ValuesOk;
    if i < |ix.headers| - 1 {
      MoreRanges(ix.headers[i], ix.headers[i].hi, ix.eof, ix'.eof, |ix.entries|);
    } else {
      MoreRanges(h, |ix'.eof|, ix.eof, ix'.eof, |ix.entries|);
    }
  }

  lemma KeyedFresh(s: State, s': State, r: nat)
    requires IndexOk(s.ix, s.rg, s.p) && DoKey(s, s')
    requires var h' := B.Last(s'.ix.headers); |s'.ix.eof| <= r < h'.origin + h'.size
    ensures B.Last(s'.ix.headers).size == |B.Last(s'.ix.headers).index| > 0
    ensures FreshOk(B.Last(s'.ix.headers), s'.ix.entries, r)
  {
    var h := B.Last(s.ix.headers);
    assert HeaderOk(h, s.ix.eof, |s.ix.entries|);
    NextIsRange(s.ix);
    KeyedEntries(s, s');
    assert FreshOk(h, s.ix.entries, r);
    B.SlotsDiffer(|s.rg.used| - h.origin, r - h.origin, h.size);
  }

  /** Keying an entry changes the newest header's range and one key. */
  lemma KeyKeepsHeaders(s: State, s': State)
    requires IndexOk(s.ix, s.rg, s.p) && DoKey(s, s')
    ensures HeadersOk(s'.ix) && NextEntry(s.ix) == s'.ix.eof[|s.rg.used|]
    ensures |s'.ix.eof| == |s.rg.used| + 1
  {
    KeyedEntries(s, s');
    forall i | 0 <= i < |s'.ix.headers|
      ensures HeaderOk(s'.ix.headers[i], s'.ix.eof, |s'.ix.entries|)
    {
      KeyedHeader(s, s', i);
    }
    hide HeaderOk, KeysOk, ValuesOk;
    var h' := B.Last(s'.ix.headers);
    forall r | |s'.ix.eof| <= r < h'.origin + h'.size
      ensures h'.size == |h'.index| > 0 && FreshOk(h', s'.ix.entries, r)
    {
      KeyedFresh(s, s', r);
    }
  }

  /** A header that was given the ranges up to `hi`, the last of which has the entry after the tail. */
  lemma MoreRanges(h: Header, hi: nat, eof: seq<nat>, eof': seq<nat>, entries: nat)
    requires HeaderOk(h, eof, entries) && eof <= eof' && h.hi <= hi <= |eof'| && hi <= h.hi + 1
    requires hi == h.hi + 1 ==> h.shown == h.hi && eof'[h.hi] == h.index[B.Slot(h.shown - h.origin, h.size)]
    ensures HeaderOk(h.(hi := hi), eof', entries)
  {
    var h' := h.(hi := hi);
    forall r | h'.origin <= r < h'.hi
      ensures SlotOk(h', eof', r)
    {
      if r < h.hi {
        assert SlotOk(h, eof, r);
      }
    }
  }

  lemma KeyKeepsKeys(s: State, s': State)
    requires IndexOk(s.ix, s.rg, s.p) && DoKey(s, s') && s.tail == |s.rg.used| * BLOCK_SIZE
    ensures KeysOk(s'.ix)
  {
    var ix, ix' := s.ix, s'.ix;
    assert HeaderOk(B.Last(ix.headers), ix.eof, |ix.entries|);
    KeyKeepsHeaders(s, s');
    forall r | Lo(ix') <= r < |ix'.eof|
      ensures KeyOk(ix', r)
    {
      if r < |s.rg.used| {
        assert KeyOk(ix, r);
        NextIsApart(ix, s.rg, r);
      }
    }
  }

  lemma KeyKeepsIndex(s: State, s': State)
    requires IndexOk(s.ix, s.rg, s.p) && DoKey(s, s') && s.tail == |s.rg.used| * BLOCK_SIZE
    ensures IndexOk(s'.ix, s'.rg, s'.p)
  {
    hide B.Slot;
    var ix, ix' := s.ix, s'.ix;
    assert HeaderOk(B.Last(ix.headers), ix.eof, |ix.entries|);
    KeyKeepsHeaders(s, s');
    KeyKeepsKeys(s, s');
    forall r | Lo(ix') <= r < |s'.rg.used|
      ensures ValueOk(ix', s'.rg, r)
    {
      assert ValueOk(ix, s.rg, r);
    }
  }

  /** Moving the tail of the newest array. */
  lemma TailMoves(ix: Index, h': Header)
    requires HeadersOk(ix) && KeysOk(ix) && ix.headers != []
    requires var h := B.Last(ix.headers); h' == h.(tail := h'.tail, shown := h'.shown)
    requires h'.origin <= h'.shown <= h'.hi && h'.tail == B.Slot(h'.shown - 1 - h'.origin, h'.size)
    ensures HeadersOk(WithLast(ix, h')) && KeysOk(WithLast(ix, h')) && Lo(WithLast(ix, h')) == Lo(ix)
  {
    hide B.Slot;
    var ix' := WithLast(ix, h');
    var h := B.Last(ix.headers);
    assert HeaderOk(h, ix.eof, |ix.entries|);
    forall i | 0 <= i < |ix'.headers|
      ensures HeaderOk(ix'.headers[i], ix'.eof, |ix'.entries|)
    {
      assert HeaderOk(ix.headers[i], ix.eof, |ix.entries|);
      if i == |ix.headers| - 1 {
        forall r | h.origin <= r < h.hi ensures SlotOk(h', ix.eof, r) {
          assert SlotOk(h, ix.eof, r);
        }
      }
    }
    forall r | |ix.eof| <= r < h.origin + h.size ensures FreshOk(h', ix.entries, r) {
      assert FreshOk(h, ix.entries, r);
    }
    forall r | Lo(ix') <= r < |ix'.eof| ensures KeyOk(ix', r) {
      assert KeyOk(ix, r);
    }
  }

  lemma SameValues(ix: Index, ix': Index, rg: Ranges)
    requires ValuesOk(ix, rg) && ix'.entries == ix.entries && ix'.eof == ix.eof && Lo(ix') == Lo(ix)
    ensures ValuesOk(ix', rg)
  {
    forall r | Lo(ix') <= r < |rg.used| ensures ValueOk(ix', rg, r) {
      assert ValueOk(ix, rg, r);
    }
  }

  lemma TailKeepsIndex(s: State, s': State)
    requires IndexOk(s.ix, s.rg, s.p) && DoTail(s, s')
    ensures IndexOk(s'.ix, s'.rg, s'.p)
  {
    assert HeaderOk(B.Last(s.ix.headers), s.ix.eof, |s.ix.entries|);
    NextIsRange(s.ix);
    TailMoves(s.ix, B.Last(s'.ix.headers));
    SameValues(s.ix, s'.ix, s.rg);
  }

  lemma RewindKeepsIndex(s: State, s': State)
    requires IndexOk(s.ix, s.rg, s.p) && DoRewind(s, s')
    ensures IndexOk(s'.ix, s'.rg, s'.p)
  {
    var h := B.Last(s.ix.headers);
    assert HeaderOk(h, s.ix.eof, |s.ix.entries|);
    B.SlotOffset(h.shown - 1 - h.origin, -1, h.size);
    assert h.shown - 1 - h.origin + -1 == h.shown - 1 - 1 - h.origin;
    TailMoves(s.ix, B.Last(s'.ix.headers));
    SameValues(s.ix, s'.ix, s.rg);
  }

  /** Storing a value leaves the shape and the keys alone. */
  lemma ValueKeepsShape(ix: Index, x: nat, v: Pointer)
    requires HeadersOk(ix) && KeysOk(ix) && x < |ix.entries|
    ensures HeadersOk(WithValue(ix, x, v)) && KeysOk(WithValue(ix, x, v)) && Lo(WithValue(ix, x, v)) == Lo(ix)
  {
    var ix' := WithValue(ix, x, v);
    forall i | 0 <= i < |ix'.headers| ensures HeaderOk(ix'.headers[i], ix'.eof, |ix'.entries|) {
      assert HeaderOk(ix.headers[i], ix.eof, |ix.entries|);
    }
    if ix.headers != [] {
      var h := B.Last(ix.headers);
      assert HeaderOk(h, ix.eof, |ix.entries|);
      forall r | |ix.eof| <= r < h.origin + h.size ensures FreshOk(h, ix'.entries, r) {
        assert FreshOk(h, ix.entries, r);
      }
    }
    forall r | Lo(ix') <= r < |ix'.eof| ensures KeyOk(ix', r) {
      assert KeyOk(ix, r);
    }
  }

  lemma DropKeepsIndex(s: State, s': State)
    requires IndexOk(s.ix, s.rg, s.p) && DoDrop(s, s')
    ensures IndexOk(s'.ix, s'.rg, s'.p)
  {
    ValueKeepsShape(s.ix, s.p.entry, Null);
    forall r | Lo(s'.ix) <= r < |s'.rg.used| ensures ValueOk(s'.ix, s'.rg, r) {
      assert ValueOk(s.ix, s.rg, r);
      EntriesDiffer(s.ix, r, |s.rg.used|);
    }
  }

  lemma PublishKeepsIndex(s: State, s': State)
    requires IndexOk(s.ix, s.rg, s.p) && DoPublish(s, s')
    ensures IndexOk(s'.ix, s'.rg, s'.p)
  {
    ValueKeepsShape(s.ix, s.p.entry, At(s.p.id));
    forall r | Lo(s'.ix) <= r < |s'.rg.used| ensures ValueOk(s'.ix, s'.rg, r) {
      if r < |s.rg.used| {
        assert ValueOk(s.ix, s.rg, r);
        EntriesDiffer(s.ix, r, |s.rg.used|);
      }
    }
    forall r | 0 <= r < Lo(s'.ix) && r < |s'.rg.phase| ensures Gone(s'.rg.phase[r]) {
      assert HeaderOk(B.Last(s.ix.headers), s.ix.eof, |s.ix.entries|);
    }
  }

  /** A phase that changes without anything becoming gone, or between the two ways of being gone. */
  lemma PhaseKeepsIndex(s: State, s': State, r: nat)
    requires IndexOk(s.ix, s.rg, s.p) && s'.ix == s.ix && s'.p == s.p
    requires r < |s.rg.phase| == |s'.rg.phase| && s'.rg == s.rg.(phase := s.rg.phase[r := s'.rg.phase[r]])
    requires Gone(s'.rg.phase[r]) == Gone(s.rg.phase[r])
    ensures IndexOk(s'.ix, s'.rg, s'.p)
  {
    forall q | Lo(s'.ix) <= q < |s'.rg.used| ensures ValueOk(s'.ix, s'.rg, q) {
      assert ValueOk(s.ix, s.rg, q);
    }
  }

  lemma UnlinkKeepsIndex(s: State, s': State, t: Thread)
    requires IndexOk(s.ix, s.rg, s.p) && DoUnlink(s, s', t)
    requires var r := s.pc[t].index / BLOCK_SIZE;
             r < |s.rg.used| && s.rg.phase[r].Emptied? && s.pc[t].entry == s.ix.eof[r]
    ensures IndexOk(s'.ix, s'.rg, s'.p)
  {
    var r := s.pc[t].index / BLOCK_SIZE;
    ValueKeepsShape(s.ix, s.pc[t].entry, Null);
    assert r >= Lo(s.ix);
    forall q | Lo(s'.ix) <= q < |s'.rg.used| ensures ValueOk(s'.ix, s'.rg, q) {
      assert ValueOk(s.ix, s.rg, q);
      if q < r {
        EntriesDiffer(s.ix, q, r);
      } else if r < q {
        EntriesDiffer(s.ix, r, q);
      }
    }
    if |s.ix.eof| == |s.rg.used| + 1 {
      EntriesDiffer(s.ix, r, |s.rg.used|);
    }
  }

  // ---------------------------------------------------------------- counting the elements of a block

  lemma {:induction false} OffsetsBelow(n: nat)
    requires n <= BLOCK_SIZE
    ensures |set o | 0 <= o < n && B.IsOffset(o)| == n
  {
    var below := set o | 0 <= o < n && B.IsOffset(o);
    if n > 0 {
      OffsetsBelow(n - 1);
      var less := set o | 0 <= o < n - 1 && B.IsOffset(o);
      assert B.IsOffset(n - 1);
      assert below == less + {n - 1};
    }
  }

  lemma SubsetSize(a: set<nat>, b: set<nat>)
    requires a <= b
    ensures |a| <= |b| && (|a| == |b| ==> a == b)
  {
    assert a + (b - a) == b;
  }

  /** The count of a block is full exactly when every element was moved out. */
  lemma FullMeansDone(done: set<nat>, r: nat)
    ensures |DoneIn(done, r)| <= BLOCK_SIZE
    ensures |DoneIn(done, r)| == BLOCK_SIZE <==>
        forall o | 0 <= o < BLOCK_SIZE && B.IsOffset(o) :: r * BLOCK_SIZE + o in done
  {
    OffsetsBelow(BLOCK_SIZE);
    var all := set o | 0 <= o < BLOCK_SIZE && B.IsOffset(o);
    SubsetSize(DoneIn(done, r), all);
    if |DoneIn(done, r)| == BLOCK_SIZE {
      forall o | 0 <= o < BLOCK_SIZE && B.IsOffset(o) ensures r * BLOCK_SIZE + o in done {
        assert o in all;
      }
    }
    if forall o | 0 <= o < BLOCK_SIZE && B.IsOffset(o) :: r * BLOCK_SIZE + o in done {
      assert DoneIn(done, r) == all;
    }
  }

  /** A range with an element that was not moved out is live. */
  lemma UndoneIsLive(rg: Ranges, blocks: seq<Block>, done: set<nat>, enqueued: seq<Elem>, x: nat)
    requires RangesOk(rg, blocks, done, enqueued) && x !in done && x / BLOCK_SIZE < |rg.used|
    ensures rg.phase[x / BLOCK_SIZE].Live?
  {
    var r := x / BLOCK_SIZE;
    assert RangeOk(rg, blocks, done, enqueued, r);
    FullMeansDone(done, r);
    assert B.IsOffset(x % BLOCK_SIZE) && r * BLOCK_SIZE + x % BLOCK_SIZE == x;
  }

  lemma DoneInNext(done: set<nat>, x: nat, q: nat)
    requires x !in done
    ensures x / BLOCK_SIZE == q ==> |DoneIn(done + {x}, q)| == |DoneIn(done, q)| + 1
    ensures x / BLOCK_SIZE != q ==> DoneIn(done + {x}, q) == DoneIn(done, q)
  {
    if x / BLOCK_SIZE == q {
      var o := x % BLOCK_SIZE;
      assert B.IsOffset(o) && q * BLOCK_SIZE + o == x;
      assert o !in DoneIn(done, q);
      assert DoneIn(done + {x}, q) == DoneIn(done, q) + {o};
    }
  }

  /** The same for all elements of a part. */
  lemma {:induction false} DoneInPart(done: set<nat>, a: nat, b: nat, q: nat)
    requires a < b && (b - 1) / BLOCK_SIZE == a / BLOCK_SIZE
    requires forall x: nat | a <= x < b :: x !in done
    ensures a / BLOCK_SIZE == q ==> |DoneIn(done + Interval(a, b), q)| == |DoneIn(done, q)| + (b - a)
    ensures a / BLOCK_SIZE != q ==> DoneIn(done + Interval(a, b), q) == DoneIn(done, q)
    decreases b - a
  {
    hide DoneIn;
    var last: nat := b - 1;
    assert done + Interval(a, b) == done + Interval(a, last) + {last};
    DoneInNext(done + Interval(a, last), last, q);
    if a < last {
      DoneInPart(done, a, last, q);
    } else {
      assert done + Interval(a, last) == done;
    }
  }

  // ---------------------------------------------------------------- the blocks keep their elements

  lemma ResetKeepsRanges(s: State, s': State)
    requires RangesOk(s.rg, s.blocks, s.done, s.enqueued) && InHand(s.rg, s.blocks, s.p, s.tail) && DoReset(s, s')
    ensures RangesOk(s'.rg, s'.blocks, s'.done, s'.enqueued) && InHand(s'.rg, s'.blocks, s'.p, s'.tail)
  {
    forall r | 0 <= r < |s'.rg.used| ensures RangeOk(s'.rg, s'.blocks, s'.done, s'.enqueued, r) {
      assert RangeOk(s.rg, s.blocks, s.done, s.enqueued, r);
    }
  }

  lemma PublishKeepsRanges(s: State, s': State)
    requires RangesOk(s.rg, s.blocks, s.done, s.enqueued) && InHand(s.rg, s.blocks, s.p, s.tail) && DoPublish(s, s')
    requires WindowOk(s.head, s.tail, s.done, s.enqueued) && s.tail == |s.rg.used| * BLOCK_SIZE
    ensures RangesOk(s'.rg, s'.blocks, s'.done, s'.enqueued)
  {
    forall r | 0 <= r < |s'.rg.used| ensures RangeOk(s'.rg, s'.blocks, s'.done, s'.enqueued, r) {
      if r < |s.rg.used| {
        assert RangeOk(s.rg, s.blocks, s.done, s.enqueued, r);
      } else {
        assert DoneIn(s.done, r) == {};
      }
    }
  }

  lemma PublishKeepsDistinct(s: State, s': State)
    requires DistinctOk(s.rg) && InHand(s.rg, s.blocks, s.p, s.tail) && DoPublish(s, s')
    ensures DistinctOk(s'.rg)
  {
    forall r, q | 0 <= r < |s'.rg.used| && 0 <= q < |s'.rg.used|
      ensures DifferentBlocks(s'.rg, r, q)
    {
      if r < |s.rg.used| && q < |s.rg.used| {
        assert DifferentBlocks(s.rg, r, q);
      }
    }
  }

  lemma WriteKeepsRanges(s: State, s': State)
    requires RangesOk(s.rg, s.blocks, s.done, s.enqueued) && DistinctOk(s.rg) && DoWrite(s, s')
    requires WindowOk(s.head, s.tail, s.done, s.enqueued) && ProducerOk(s.tail, |s.rg.used|, s.p)
    ensures RangesOk(s'.rg, s'.blocks, s'.done, s'.enqueued) && InHand(s'.rg, s'.blocks, s'.p, s'.tail)
  {
    var last := |s.rg.used| - 1;
    assert s.tail / BLOCK_SIZE == last;
    UndoneIsLive(s.rg, s.blocks, s.done, s.enqueued, s.tail);
    forall r | 0 <= r < |s'.rg.used| ensures RangeOk(s'.rg, s'.blocks, s'.done, s'.enqueued, r) {
      assert RangeOk(s.rg, s.blocks, s.done, s.enqueued, r);
      assert DifferentBlocks(s.rg, r, last);
      if !s.rg.phase[r].Freed? {
        forall o | 0 <= o < BLOCK_SIZE && B.IsOffset(o)
          ensures ElementOk(s'.blocks[s.rg.used[r]], s.done, s.enqueued, r, o)
        {
          assert ElementOk(s.blocks[s.rg.used[r]], s.done, s.enqueued, r, o);
        }
      }
    }
  }

  lemma StoreTailKeepsRanges(s: State, s': State)
    requires RangesOk(s.rg, s.blocks, s.done, s.enqueued) && InHand(s.rg, s.blocks, s.p, s.tail) && DoStoreTail(s, s')
    requires WindowOk(s.head, s.tail, s.done, s.enqueued) && ProducerOk(s.tail, |s.rg.used|, s.p)
    ensures RangesOk(s'.rg, s'.blocks, s'.done, s'.enqueued)
  {
    forall r | 0 <= r < |s'.rg.used| ensures RangeOk(s'.rg, s'.blocks, s'.done, s'.enqueued, r) {
      assert RangeOk(s.rg, s.blocks, s.done, s.enqueued, r);
      if !s.rg.phase[r].Freed? {
        forall o | 0 <= o < BLOCK_SIZE && B.IsOffset(o)
          ensures ElementOk(s'.blocks[s.rg.used[r]], s'.done, s'.enqueued, r, o)
        {
          assert ElementOk(s.blocks[s.rg.used[r]], s.done, s.enqueued, r, o);
          if r * BLOCK_SIZE + o == s.tail {
            assert r == |s.rg.used| - 1 && o == s.tail % BLOCK_SIZE;
          }
        }
      }
    }
  }

  /** What holds of a consumer that is about to count a part. */
  ghost predicate CanCount(s: State, c: Consumer) {
    && c.Counting? && c.index < c.first + |c.out|
    && (c.first + |c.out| - 1) / BLOCK_SIZE == c.index / BLOCK_SIZE < |s.rg.used|
    && c.block == s.rg.used[c.index / BLOCK_SIZE]
    && forall x: nat | c.index <= x < c.first + |c.out| :: x !in s.done
  }

  /** Counting the elements of a part of a live range. */
  lemma SetEmptyKeepsRanges(s: State, s': State, t: Thread)
    requires RangesOk(s.rg, s.blocks, s.done, s.enqueued) && DistinctOk(s.rg) && DoSetEmpty(s, s', t)
    requires CanCount(s, s.pc[t])
    ensures RangesOk(s'.rg, s'.blocks, s'.done, s'.enqueued)
    ensures s.rg.phase[s.pc[t].index / BLOCK_SIZE].Live?
  {
    var c := s.pc[t];
    var r0 := c.index / BLOCK_SIZE;
    UndoneIsLive(s.rg, s.blocks, s.done, s.enqueued, c.index);
    assert RangeOk(s.rg, s.blocks, s.done, s.enqueued, r0);
    forall r | 0 <= r < |s'.rg.used| ensures RangeOk(s'.rg, s'.blocks, s'.done, s'.enqueued, r) {
      assert RangeOk(s.rg, s.blocks, s.done, s.enqueued, r);
      assert DifferentBlocks(s.rg, r, r0);
      DoneInPart(s.done, c.index, c.first + |c.out|, r);
      FullMeansDone(s'.done, r);
      hide DoneIn;
      if !s.rg.phase[r].Freed? {
        forall o | 0 <= o < BLOCK_SIZE && B.IsOffset(o)
          ensures ElementOk(s'.blocks[s.rg.used[r]], s'.done, s'.enqueued, r, o)
        {
          assert ElementOk(s.blocks[s.rg.used[r]], s.done, s.enqueued, r, o);
        }
      }
    }
  }

  lemma SetEmptyKeepsInHand(s: State, s': State, t: Thread)
    requires InHand(s.rg, s.blocks, s.p, s.tail) && DistinctOk(s.rg) && DoSetEmpty(s, s', t)
    requires CanCount(s, s.pc[t]) && s.rg.phase[s.pc[t].index / BLOCK_SIZE].Live?
    ensures InHand(s'.rg, s'.blocks, s'.p, s'.tail) && DistinctOk(s'.rg)
  {
    forall r, q | 0 <= r < |s'.rg.used| && 0 <= q < |s'.rg.used|
      ensures DifferentBlocks(s'.rg, r, q)
    {
      assert DifferentBlocks(s.rg, r, q);
    }
  }

  /** A phase that moves on from a range that was emptied. */
  lemma PhaseKeepsRanges(s: State, s': State, r0: nat)
    requires RangesOk(s.rg, s.blocks, s.done, s.enqueued) && InHand(s.rg, s.blocks, s.p, s.tail) && DistinctOk(s.rg)
    requires s'.blocks == s.blocks && s'.done == s.done && s'.enqueued == s.enqueued && s'.p == s.p && s'.tail == s.tail
    requires r0 < |s.rg.phase| == |s'.rg.phase| && s'.rg == s.rg.(phase := s.rg.phase[r0 := s'.rg.phase[r0]])
    requires (s.rg.phase[r0].Emptied? && s'.rg.phase[r0].Unlinked?)
      || (s.rg.phase[r0].Unlinked? && s'.rg.phase[r0].Freed?)
    ensures RangesOk(s'.rg, s'.blocks, s'.done, s'.enqueued) && InHand(s'.rg, s'.blocks, s'.p, s'.tail)
    ensures DistinctOk(s'.rg)
  {
    forall r | 0 <= r < |s'.rg.used| ensures RangeOk(s'.rg, s'.blocks, s'.done, s'.enqueued, r) {
      assert RangeOk(s.rg, s.blocks, s.done, s.enqueued, r);
    }
    forall r, q | 0 <= r < |s'.rg.used| && 0 <= q < |s'.rg.used|
      ensures DifferentBlocks(s'.rg, r, q)
    {
      assert DifferentBlocks(s.rg, r, q);
    }
  }

  // ---------------------------------------------------------------- the consumers

  /** What a consumer sees of a header that the producer changes. */
  predicate HeaderStays(h: Header, h': Header, ranges: nat) {
    && h'.origin == h.origin && h'.size == h.size && h.hi <= h'.hi
    && (h'.shown == h.shown || h'.shown >= ranges)
  }

  lemma PlaceStays(s: State, s': State, c: Consumer, t: Thread)
    requires (!c.Idle? ==> c.first < c.stop && (c.stop - 1) / BLOCK_SIZE < |s.rg.used|) && PlaceOk(s, c, t)
    requires s.rg.used <= s'.rg.used && s.rg.phase <= s'.rg.phase && s.ix.eof <= s'.ix.eof
    requires |s.ix.headers| <= |s'.ix.headers| && |s'.rg.used| == |s'.rg.phase| && |s'.rg.used| <= |s'.ix.eof|
    requires forall i | 0 <= i < |s.ix.headers| :: HeaderStays(s.ix.headers[i], s'.ix.headers[i], |s.rg.used|)
    ensures PlaceOk(s', c, t)
  {
    if !c.Idle? && !c.Claimed? && !c.Returned? {
      assert HeaderStays(s.ix.headers[c.header], s'.ix.headers[c.header], |s.rg.used|);
    }
  }

  lemma ThreadsStay(s: State, s': State)
    requires ThreadsOk(s) && s'.pc == s.pc && s'.head == s.head && s'.done == s.done
    requires s.rg.used <= s'.rg.used && s.rg.phase <= s'.rg.phase && s.ix.eof <= s'.ix.eof
    requires s.enqueued <= s'.enqueued && |s.ix.headers| <= |s'.ix.headers|
    requires |s'.rg.used| == |s'.rg.phase| && |s'.rg.used| <= |s'.ix.eof|
    requires forall i | 0 <= i < |s.ix.headers| :: HeaderStays(s.ix.headers[i], s'.ix.headers[i], |s.rg.used|)
    requires forall r | |s.rg.phase| <= r < |s'.rg.phase| :: s'.rg.phase[r].Live?
    ensures ThreadsOk(s')
  {
    forall t | 0 <= t < |s'.pc| ensures ThreadOk(s', t) {
      assert ThreadOk(s, t);
      PlaceStays(s, s', s.pc[t], t);
    }
    hide ThreadOk;
    forall t, u | 0 <= t < |s'.pc| && 0 <= u < |s'.pc| ensures Apart(s', t, u) {
      assert Apart(s, t, u);
    }
    forall r | 0 <= r < |s'.rg.phase| ensures Released(s', r) {
      if r < |s.rg.phase| {
        assert Released(s, r);
      }
    }
  }

  /** A consumer moves on with the claim it has, or ends it. */
  ghost predicate MovesOn(s: State, c: Consumer, c': Consumer, t: Thread) {
    && (!c'.Idle? ==> !c.Idle? && c'.first == c.first && c'.stop == c.stop && c'.first < c'.stop && PlaceOk(s, c', t))
    && (forall x: nat | Holds(c', x) :: Holds(c, x))
    && (HasOutput(c') ==> B.Delivers(c'.first, c'.out, s.enqueued))
  }

  lemma SamePlace(s: State, s': State, c: Consumer, t: Thread)
    requires s'.ix.headers == s.ix.headers && s'.ix.eof == s.ix.eof && s'.rg == s.rg
    requires (!c.Idle? ==> c.first < c.stop) && PlaceOk(s, c, t)
    ensures PlaceOk(s', c, t)
  {
  }

  /** A consumer that only looks at something. */
  lemma LookKeepsThreads(s: State, s': State, t: Thread)
    requires ThreadsOk(s) && s' == s.(pc := s'.pc) && t < |s.pc| == |s'.pc| && s'.pc == s.pc[t := s'.pc[t]]
    requires MovesOn(s, s.pc[t], s'.pc[t], t) && !Releasing(s.pc[t])
    ensures ThreadsOk(s')
  {
    forall u | 0 <= u < |s'.pc| ensures ThreadOk(s', u) {
      assert ThreadOk(s, u) && ThreadOk(s, t);
      assert forall x: nat | Holds(s'.pc[u], x) :: Holds(s.pc[u], x);
      SamePlace(s, s', s'.pc[u], u);
    }
    hide ThreadOk, MovesOn;
    assert forall x: nat | Holds(s'.pc[t], x) :: Holds(s.pc[t], x) by { assert MovesOn(s, s.pc[t], s'.pc[t], t); }
    forall u, v | 0 <= u < |s'.pc| && 0 <= v < |s'.pc| ensures Apart(s', u, v) {
      assert Apart(s, u, v);
    }
    forall r | 0 <= r < |s'.rg.phase| ensures Released(s', r) {
      assert Released(s, r);
    }
  }

  /** The range of an element that a consumer has is live, and its entry is still its own. */
  lemma HeldIsLive(s: State, t: Thread, x: nat)
    requires Inv(s) && t < |s.pc| && Holds(s.pc[t], x)
    ensures var r := x / BLOCK_SIZE;
            r < |s.rg.used| == |s.rg.phase| && s.rg.phase[r].Live? && Lo(s.ix) <= r < |s.ix.eof|
            && s.ix.headers != []
  {
    hide B.Slot;
    assert ThreadOk(s, t);
    assert x < s.pc[t].stop;
    UndoneIsLive(s.rg, s.blocks, s.done, s.enqueued, x);
  }

  lemma LoadHeaderKeeps(s: State, s': State, t: Thread)
    requires Inv(s) && DoLoadHeader(s, s', t)
    ensures Inv(s')
  {
    assert ThreadOk(s, t);
    HeldIsLive(s, t, s.pc[t].first);
    LookKeepsThreads(s, s', t);
  }

  lemma LoadTailKeeps(s: State, s': State, t: Thread)
    requires Inv(s) && DoLoadTail(s, s', t)
    ensures Inv(s')
  {
    assert ThreadOk(s, t);
    assert HeaderOk(s.ix.headers[s.pc[t].header], s.ix.eof, |s.ix.entries|);
    LookKeepsThreads(s, s', t);
  }

  /** The key read from the tail slot is that of the range the tail showed, even if the tail has moved or
      was moved back since: the first assertion of the lookup. */
  lemma BaseIsShown(s: State, t: Thread)
    requires Inv(s) && t < |s.pc| && s.pc[t].HasTail?
    ensures s.pc[t].header < |s.ix.headers|
    ensures var h := s.ix.headers[s.pc[t].header];
            && s.pc[t].slot < |h.index| && h.index[s.pc[t].slot] < |s.ix.entries| && s.pc[t].shown > 0
            && s.ix.entries[h.index[s.pc[t].slot]].key == (s.pc[t].shown - 1) * BLOCK_SIZE != INVALID_BLOCK_BASE
  {
    assert ThreadOk(s, t);
    HeldIsLive(s, t, s.pc[t].first);
    var h := s.ix.headers[s.pc[t].header];
    assert HeaderOk(h, s.ix.eof, |s.ix.entries|);
    assert SlotOk(h, s.ix.eof, s.pc[t].shown - 1);
    assert KeyOk(s.ix, s.pc[t].shown - 1);
  }

  lemma BaseIsWalked(s: State, t: Thread)
    requires Inv(s) && t < |s.pc| && s.pc[t].HasTail?
    ensures var HasTail(first, stop, header, slot, shown) := s.pc[t];
            && header < |s.ix.headers| && shown > 0 && s.ix.headers[header].size > 0
            && Walks(s, header,
                     B.LookupSlot(first, slot, (shown - 1) * BLOCK_SIZE, s.ix.headers[header].size), first, stop)
  {
    hide B.LookupSlot, B.Slot;
    assert ThreadOk(s, t);
    var HasTail(first, stop, header, slot, shown) := s.pc[t];
    var h := s.ix.headers[header];
    B.LookupIsSlot(first, slot, shown, h.origin, h.size);
  }

  lemma LoadBaseKeeps(s: State, s': State, t: Thread)
    requires Inv(s) && DoLoadBase(s, s', t)
    ensures Inv(s')
  {
    hide B.LookupSlot;
    assert ThreadOk(s, t);
    BaseIsShown(s, t);
    BaseIsWalked(s, t);
    LookKeepsThreads(s, s', t);
  }

  /** Every slot that a consumer comes to, the one it computed and those it walks on to, is the one of the
      range of its index, and its entry has that range's key and block: the second assertion of the lookup. */
  lemma LookupFindsRange(s: State, t: Thread)
    requires Inv(s) && t < |s.pc| && s.pc[t].AtSlot?
    ensures s.pc[t].header < |s.ix.headers|
    ensures var AtSlot(first, stop, header, slot, index, out) := s.pc[t];
            var h := s.ix.headers[header];
            var r := index / BLOCK_SIZE;
            && slot < |h.index| && r < |s.rg.used| && r < |s.ix.eof|
            && var x := h.index[slot];
            && x == s.ix.eof[r] && x < |s.ix.entries|
            && s.ix.entries[x] == Entry(r * BLOCK_SIZE, At(s.rg.used[r]))
  {
    assert ThreadOk(s, t);
    var AtSlot(first, stop, header, slot, index, out) := s.pc[t];
    HeldIsLive(s, t, index);
    var r := index / BLOCK_SIZE;
    assert HeaderOk(s.ix.headers[header], s.ix.eof, |s.ix.entries|);
    assert SlotOk(s.ix.headers[header], s.ix.eof, r);
    assert KeyOk(s.ix, r) && ValueOk(s.ix, s.rg, r);
  }

  lemma LoadBlockKeeps(s: State, s': State, t: Thread)
    requires Inv(s) && DoLoadBlock(s, s', t)
    ensures Inv(s')
  {
    assert ThreadOk(s, t);
    LookupFindsRange(s, t);
    LookKeepsThreads(s, s', t);
  }

  lemma MovedOut(s: State, t: Thread)
    requires Inv(s) && t < |s.pc| && s.pc[t].HasBlock?
    ensures var x := s.pc[t].first + |s.pc[t].out|;
            && x < |s.enqueued| && s.pc[t].block < |s.blocks| && |s.blocks[s.pc[t].block].data| == BLOCK_SIZE
            && s.blocks[s.pc[t].block].data[x % BLOCK_SIZE] == s.enqueued[x]
  {
    assert ThreadOk(s, t);
    var c := s.pc[t];
    var x := c.first + |c.out|;
    B.PartInBlock(c.index, c.stop, x);
    assert Holds(c, x);
    HeldIsLive(s, t, x);
    var r := x / BLOCK_SIZE;
    assert RangeOk(s.rg, s.blocks, s.done, s.enqueued, r);
    assert B.IsOffset(x % BLOCK_SIZE) && ElementOk(s.blocks[s.rg.used[r]], s.done, s.enqueued, r, x % BLOCK_SIZE);
    assert x == r * BLOCK_SIZE + x % BLOCK_SIZE;
  }

  /** One more element of the part was moved out. */
  lemma MoveOutMoves(s: State, s': State, t: Thread)
    requires t < |s.pc| && ThreadOk(s, t) && DoMoveOut(s, s', t)
    requires var x := s.pc[t].first + |s.pc[t].out|;
             && x < |s.enqueued| && s.blocks[s.pc[t].block].data[x % BLOCK_SIZE] == s.enqueued[x]
             && x < s.pc[t].stop
    ensures MovesOn(s, s.pc[t], s'.pc[t], t)
  {
    hide Walks, B.PartEnd;
    var c := s.pc[t];
    B.DeliversNext(c.first, c.out, s.enqueued);
    hide B.Delivers;
  }

  lemma MoveOutKeeps(s: State, s': State, t: Thread)
    requires Inv(s) && DoMoveOut(s, s', t)
    ensures Inv(s')
  {
    assert ThreadOk(s, t);
    MovedOut(s, t);
    B.PartInBlock(s.pc[t].index, s.pc[t].stop, s.pc[t].first + |s.pc[t].out|);
    MoveOutMoves(s, s', t);
    hide MovesOn, ThreadOk, PlaceOk, B.Delivers, B.PartEnd;
    LookKeepsThreads(s, s', t);
  }

  lemma ReturnKeeps(s: State, s': State, t: Thread)
    requires Inv(s) && DoReturn(s, s', t)
    ensures Inv(s')
  {
    LookKeepsThreads(s, s', t);
  }

  lemma HeldBelowHead(s: State, t: Thread)
    requires t < |s.pc| && ThreadOk(s, t)
    ensures forall x: nat | Holds(s.pc[t], x) :: x < s.head
  {
  }

  lemma ClaimKeeps(s: State, s': State, t: Thread, count: nat)
    requires Inv(s) && Claim(s, s', t, count)
    ensures Inv(s')
  {
    assert (s'.head - 1) / BLOCK_SIZE < |s.rg.used|;
    assert forall x: nat | s.head <= x :: x !in s.done;
    forall u | 0 <= u < |s'.pc| ensures ThreadOk(s', u) {
      assert ThreadOk(s, u);
      if u != t {
        SamePlace(s, s', s.pc[u], u);
      }
    }
    forall u, v | 0 <= u < |s'.pc| && 0 <= v < |s'.pc| ensures Apart(s', u, v) {
      assert Apart(s, u, v) && ThreadOk(s, u) && ThreadOk(s, v);
      HeldBelowHead(s, u);
      HeldBelowHead(s, v);
      hide ThreadOk;
    }
    forall r | 0 <= r < |s'.rg.phase| ensures Released(s', r) {
      assert Released(s, r);
    }
  }

  /** The walk goes on to the slot of the next range. */
  lemma NextSlotWalks(s: State, header: nat, slot: nat, index: nat, stop: nat)
    requires Walks(s, header, slot, index, stop) && B.PartEnd(index, stop) < stop
    ensures Walks(s, header, B.Slot(slot + 1, s.ix.headers[header].size), B.PartEnd(index, stop), stop)
  {
    var h := s.ix.headers[header];
    var end := B.PartEnd(index, stop);
    assert end / BLOCK_SIZE == index / BLOCK_SIZE + 1;
    B.SlotOffset(index / BLOCK_SIZE - h.origin, 1, h.size);
    assert index / BLOCK_SIZE - h.origin + 1 == end / BLOCK_SIZE - h.origin;
  }

  lemma AfterPartPlace(s: State, c: Consumer, t: Thread)
    requires (c.Counting? || c.MustFree?) && c.first < c.stop && PlaceOk(s, c, t)
    ensures PlaceOk(s, AfterPart(c, s.ix.headers[c.header].size), t)
    ensures forall x: nat :: Holds(AfterPart(c, s.ix.headers[c.header].size), x) <==> c.first + |c.out| <= x < c.stop
  {
    hide B.Slot;
    if c.first + |c.out| < c.stop {
      NextSlotWalks(s, c.header, c.slot, c.index, c.stop);
    }
  }

  lemma CountingCanCount(s: State, t: Thread)
    requires t < |s.pc| && ThreadOk(s, t) && s.pc[t].Counting?
    ensures CanCount(s, s.pc[t])
  {
    var c := s.pc[t];
    B.PartInBlock(c.index, c.stop, c.first + |c.out| - 1);
    assert forall x: nat | c.index <= x < c.first + |c.out| :: Holds(c, x);
  }

  lemma SetEmptyOtherPlace(s: State, s': State, c: Consumer, u: Thread, r: nat)
    requires (!c.Idle? ==> c.first < c.stop) && PlaceOk(s, c, u) && s'.ix == s.ix && s'.rg.used == s.rg.used
    requires r < |s.rg.phase| && s.rg.phase[r].Live? && |s'.rg.phase| == |s.rg.phase|
    requires forall q | 0 <= q < |s.rg.phase| && q != r :: s'.rg.phase[q] == s.rg.phase[q]
    ensures PlaceOk(s', c, u)
  {
  }

  lemma SetEmptyOtherThread(s: State, s': State, t: Thread, u: Thread)
    requires ThreadsOk(s) && DoSetEmpty(s, s', t) && u < |s.pc| && u != t
    requires s.rg.phase[s.pc[t].index / BLOCK_SIZE].Live?
    ensures ThreadOk(s', u)
  {
    assert ThreadOk(s, t) && ThreadOk(s, u) && Apart(s, t, u);
    CountingCanCount(s, t);
    var c := s.pc[t];
    B.PartInBlock(c.index, c.stop, c.first + |c.out| - 1);
    SetEmptyOtherPlace(s, s', s.pc[u], u, c.index / BLOCK_SIZE);
    hide PlaceOk;
    forall x: nat | Holds(s.pc[u], x) ensures x !in s'.done {
      assert x in Interval(c.index, c.first + |c.out|) ==> Holds(c, x);
    }
  }

  lemma SetEmptyThread(s: State, s': State, t: Thread)
    requires ThreadsOk(s) && DoSetEmpty(s, s', t)
    requires s.rg.phase[s.pc[t].index / BLOCK_SIZE].Live?
    ensures ThreadOk(s', t) && forall x: nat | Holds(s'.pc[t], x) :: Holds(s.pc[t], x)
  {
    hide B.Slot;
    assert ThreadOk(s, t);
    CountingCanCount(s, t);
    var c := s.pc[t];
    AfterPartPlace(s, c, t);
    if s'.pc[t].MustUnlink? {
      assert PlaceOk(s', s'.pc[t], t);
    } else {
      SamePlace(s, s', s'.pc[t], t);
    }
    hide PlaceOk;
    assert forall x: nat | Holds(s'.pc[t], x) :: c.first + |c.out| <= x < c.stop && Holds(c, x);
  }

  lemma SetEmptyKeepsThreads(s: State, s': State, t: Thread)
    requires ThreadsOk(s) && DoSetEmpty(s, s', t)
    requires s.rg.phase[s.pc[t].index / BLOCK_SIZE].Live?
    ensures ThreadsOk(s')
  {
    SetEmptyThread(s, s', t);
    forall u | 0 <= u < |s'.pc| ensures ThreadOk(s', u) {
      if u != t {
        SetEmptyOtherThread(s, s', t, u);
      }
    }
    hide ThreadOk, AfterPart;
    forall u, v | 0 <= u < |s'.pc| && 0 <= v < |s'.pc| ensures Apart(s', u, v) {
      assert Apart(s, u, v);
    }
    forall r | 0 <= r < |s'.rg.phase| ensures Released(s', r) {
      assert Released(s, r);
    }
  }

  lemma SetEmptyKeeps(s: State, s': State, t: Thread)
    requires Inv(s) && DoSetEmpty(s, s', t)
    ensures Inv(s')
  {
    assert ThreadOk(s, t);
    CountingCanCount(s, t);
    SetEmptyKeepsRanges(s, s', t);
    SetEmptyKeepsInHand(s, s', t);
    SetEmptyKeepsThreads(s, s', t);
    PhaseKeepsIndex(s, s', s.pc[t].index / BLOCK_SIZE);
    assert s.pc[t].first + |s.pc[t].out| <= s.head;
  }

  lemma ReleaseOtherPlace(s: State, s': State, c: Consumer, u: Thread, t: Thread, r: nat)
    requires (!c.Idle? ==> c.first < c.stop) && PlaceOk(s, c, u)
    requires s'.ix.headers == s.ix.headers && s'.ix.eof == s.ix.eof && s'.rg.used == s.rg.used
    requires r < |s.rg.phase| && (s.rg.phase[r] == Emptied(t) || s.rg.phase[r] == Unlinked(t)) && t != u
    requires |s'.rg.phase| == |s.rg.phase|
    requires forall q | 0 <= q < |s.rg.phase| && q != r :: s'.rg.phase[q] == s.rg.phase[q]
    ensures PlaceOk(s', c, u)
  {
  }

  lemma UnlinkThread(s: State, s': State, t: Thread)
    requires ThreadsOk(s) && DoUnlink(s, s', t)
    ensures ThreadOk(s', t) && forall x: nat | Holds(s'.pc[t], x) :: Holds(s.pc[t], x)
  {
    hide B.Slot;
    assert ThreadOk(s, t);
  }

  lemma FreeThread(s: State, s': State, t: Thread)
    requires ThreadsOk(s) && DoFree(s, s', t)
    ensures ThreadOk(s', t) && forall x: nat | Holds(s'.pc[t], x) :: Holds(s.pc[t], x)
  {
    assert ThreadOk(s, t);
    AfterPartPlace(s, s.pc[t], t);
    SamePlaceAfter(s, s', s'.pc[t], t);
    hide PlaceOk;
  }

  lemma SamePlaceAfter(s: State, s': State, c: Consumer, t: Thread)
    requires s'.ix == s.ix && (c.AtSlot? || c.Returned?) && c.first < c.stop && PlaceOk(s, c, t)
    ensures PlaceOk(s', c, t)
  {
  }

  /** The thread that releases a range is the only one to do so, and goes on to the next phase. */
  lemma ReleaseKeepsThreads(s: State, s': State, t: Thread)
    requires ThreadsOk(s) && (DoUnlink(s, s', t) || DoFree(s, s', t))
    ensures ThreadsOk(s')
  {
    if DoUnlink(s, s', t) {
      UnlinkThread(s, s', t);
    } else {
      FreeThread(s, s', t);
    }
    forall u | 0 <= u < |s'.pc| ensures ThreadOk(s', u) {
      assert ThreadOk(s, t) && ThreadOk(s, u);
      if u != t {
        ReleaseOtherPlace(s, s', s.pc[u], u, t, s.pc[t].index / BLOCK_SIZE);
        hide PlaceOk;
      }
    }
    forall u, v | 0 <= u < |s'.pc| && 0 <= v < |s'.pc| ensures Apart(s', u, v) {
      assert Apart(s, u, v);
    }
    assert ThreadOk(s, t);
    forall r | 0 <= r < |s'.rg.phase| ensures Released(s', r) {
      assert Released(s, r);
    }
  }

  lemma UnlinkKeeps(s: State, s': State, t: Thread)
    requires Inv(s) && DoUnlink(s, s', t)
    ensures Inv(s')
  {
    hide B.Slot;
    assert ThreadOk(s, t);
    ReleaseKeepsThreads(s, s', t);
    UnlinkKeepsIndex(s, s', t);
    PhaseKeepsRanges(s, s', s.pc[t].index / BLOCK_SIZE);
  }

  lemma FreeKeeps(s: State, s': State, t: Thread)
    requires Inv(s) && DoFree(s, s', t)
    ensures Inv(s')
  {
    assert ThreadOk(s, t);
    ReleaseKeepsThreads(s, s', t);
    PhaseKeepsIndex(s, s', s.pc[t].index / BLOCK_SIZE);
    PhaseKeepsRanges(s, s', s.pc[t].index / BLOCK_SIZE);
  }

  // ---------------------------------------------------------------- the producer

  lemma SameHeaders(s: State, s': State)
    requires s'.ix.headers == s.ix.headers
    ensures forall i | 0 <= i < |s.ix.headers| :: HeaderStays(s.ix.headers[i], s'.ix.headers[i], |s.rg.used|)
  {
  }

  /** Steps of the producer that touch nothing but its own state. */
  lemma QuietKeeps(s: State, s': State)
    requires Inv(s) && s' == s.(p := s'.p)
    requires StageOk(s'.ix, s'.rg, s'.p) && ProducerOk(s'.tail, |s'.rg.used|, s'.p)
    requires InHand(s'.rg, s'.blocks, s'.p, s'.tail)
    ensures Inv(s')
  {
    SameHeaders(s, s');
    ThreadsStay(s, s');
  }

  lemma BeginKeeps(s: State, s': State, e: Elem, a: B.Answers)
    requires Inv(s) && BeginEnqueue(s, s', e, a)
    ensures Inv(s')
  {
    QuietKeeps(s, s');
  }

  lemma StartKeeps(s: State, s': State)
    requires Inv(s) && DoStart(s, s')
    ensures Inv(s')
  {
    hide HeadersOk, KeysOk, ValuesOk, RangesOk, DistinctOk, ThreadsOk, WindowOk;
    QuietKeeps(s, s');
  }

  lemma LookKeeps(s: State, s': State)
    requires Inv(s) && DoLook(s, s')
    ensures Inv(s')
  {
    LookKeepsIndex(s, s');
    QuietKeeps(s, s');
  }

  lemma GrowKeeps(s: State, s': State, more: seq<Entry>)
    requires Inv(s) && DoGrow(s, s', more)
    ensures Inv(s')
  {
    GrowKeepsIndex(s, s', more);
    ThreadsStay(s, s');
  }

  lemma KeyKeeps(s: State, s': State)
    requires Inv(s) && DoKey(s, s')
    ensures Inv(s')
  {
    KeyKeepsIndex(s, s');
    ThreadsStay(s, s');
  }

  lemma TailKeeps(s: State, s': State)
    requires Inv(s) && DoTail(s, s')
    ensures Inv(s')
  {
    TailKeepsIndex(s, s');
    ThreadsStay(s, s');
  }

  lemma RequisitionKeeps(s: State, s': State, id: Id)
    requires Inv(s) && DoRequisition(s, s', id)
    ensures Inv(s')
  {
    QuietKeeps(s, s');
  }

  lemma RewindKeeps(s: State, s': State)
    requires Inv(s) && DoRewind(s, s')
    ensures Inv(s')
  {
    RewindKeepsIndex(s, s');
    ThreadsStay(s, s');
  }

  lemma DropKeeps(s: State, s': State)
    requires Inv(s) && DoDrop(s, s')
    ensures Inv(s')
  {
    DropKeepsIndex(s, s');
    SameHeaders(s, s');
    ThreadsStay(s, s');
  }

  lemma ResetKeeps(s: State, s': State)
    requires Inv(s) && DoReset(s, s')
    ensures Inv(s')
  {
    ResetKeepsRanges(s, s');
    SameHeaders(s, s');
    ThreadsStay(s, s');
  }

  lemma PublishKeeps(s: State, s': State)
    requires Inv(s) && DoPublish(s, s')
    ensures Inv(s')
  {
    PublishKeepsIndex(s, s');
    PublishKeepsRanges(s, s');
    PublishKeepsDistinct(s, s');
    SameHeaders(s, s');
    ThreadsStay(s, s');
  }

  lemma WriteKeeps(s: State, s': State)
    requires Inv(s) && DoWrite(s, s')
    ensures Inv(s')
  {
    WriteKeepsRanges(s, s');
    SameHeaders(s, s');
    ThreadsStay(s, s');
  }

  lemma StoreTailKeeps(s: State, s': State)
    requires Inv(s) && DoStoreTail(s, s')
    ensures Inv(s')
  {
    StoreTailKeepsRanges(s, s');
    SameHeaders(s, s');
    ThreadsStay(s, s');
  }

  lemma ProducerStepKeeps(s: State, s': State)
    requires Inv(s) && ProducerStep(s, s')
    ensures Inv(s')
  {
    hide Inv;
    if
      case DoStart(s, s') => StartKeeps(s, s');
      case DoLook(s, s') => LookKeeps(s, s');
      case exists more :: DoGrow(s, s', more) =>
        var more :| DoGrow(s, s', more);
        GrowKeeps(s, s', more);
      case DoKey(s, s') => KeyKeeps(s, s');
      case DoTail(s, s') => TailKeeps(s, s');
      case exists id :: DoRequisition(s, s', id) =>
        var id :| DoRequisition(s, s', id);
        RequisitionKeeps(s, s', id);
      case DoRewind(s, s') => RewindKeeps(s, s');
      case DoDrop(s, s') => DropKeeps(s, s');
      case DoReset(s, s') => ResetKeeps(s, s');
      case DoPublish(s, s') => PublishKeeps(s, s');
      case DoWrite(s, s') => WriteKeeps(s, s');
      case DoStoreTail(s, s') => StoreTailKeeps(s, s');
  }

  lemma ConsumerStepKeeps(s: State, s': State, t: Thread)
    requires Inv(s) && ConsumerStep(s, s', t)
    ensures Inv(s')
  {
    hide Inv;
    if {
      case exists count :: Claim(s, s', t, count) =>
        var count: nat :| Claim(s, s', t, count);
        ClaimKeeps(s, s', t, count);
      case DoLoadHeader(s, s', t) => LoadHeaderKeeps(s, s', t);
      case DoLoadTail(s, s', t) => LoadTailKeeps(s, s', t);
      case DoLoadBase(s, s', t) => LoadBaseKeeps(s, s', t);
      case DoLoadBlock(s, s', t) => LoadBlockKeeps(s, s', t);
      case DoMoveOut(s, s', t) => MoveOutKeeps(s, s', t);
      case DoSetEmpty(s, s', t) => SetEmptyKeeps(s, s', t);
      case DoUnlink(s, s', t) => UnlinkKeeps(s, s', t);
      case DoFree(s, s', t) => FreeKeeps(s, s', t);
      case DoReturn(s, s', t) => ReturnKeeps(s, s', t);
    }
  }

  lemma StepKeeps(s: State, s': State)
    requires Inv(s) && Step(s, s')
    ensures Inv(s')
  {
    hide Inv, ProducerStep, ConsumerStep, BeginEnqueue;
    if ProducerStep(s, s') {
      ProducerStepKeeps(s, s');
    } else if t: Thread :| ConsumerStep(s, s', t) {
      ConsumerStepKeeps(s, s', t);
    } else {
      var e, a :| BeginEnqueue(s, s', e, a);
      BeginKeeps(s, s', e, a);
    }
  }

  // ---------------------------------------------------------------- results over whole runs

  ghost predicate IsRun(run: seq<State>) {
    && run != []
    && Init(run[0])
    && forall i | 0 <= i < |run| - 1 :: Step(run[i], run[i + 1])
  }

  lemma InitKeeps(s: State)
    requires Init(s)
    ensures Inv(s)
  {
    if s.ix.headers != [] {
      var h := s.ix.headers[0];
      B.UniqueRemainder(-1, -1, h.size - 1, h.size);
      assert HeaderOk(h, s.ix.eof, |s.ix.entries|);
      forall r | 0 <= r < h.size ensures FreshOk(h, s.ix.entries, r) {
        B.SlotOfSmall(r, h.size);
      }
    }
  }

  lemma RunStepKeeps(run: seq<State>, i: nat)
    requires IsRun(run) && 0 < i < |run| && Inv(run[i - 1])
    ensures Inv(run[i])
  {
    StepKeeps(run[i - 1], run[i]);
  }

  lemma {:induction false} RunKeepsInvariant(run: seq<State>, i: nat)
    requires IsRun(run) && i < |run|
    ensures Inv(run[i])
  {
    hide Inv;
    if i == 0 {
      InitKeeps(run[0]);
    } else {
      RunKeepsInvariant(run, i - 1);
      RunStepKeeps(run, i);
    }
  }

  /** Every consumer finds the blocks that were given to the ranges of its indexes, even if the index was
      doubled, wrapped round or rewound while it walked, and takes out exactly the elements that were
      enqueued at these indexes, in their order. */
  lemma ConsumersGetTheirElements(run: seq<State>, i: nat, t: Thread)
    requires IsRun(run) && i < |run| && t < |run[i].pc|
    ensures run[i].pc[t].HasBlock? || run[i].pc[t].Counting? ==>
      && run[i].pc[t].index / BLOCK_SIZE < |run[i].rg.used|
      && run[i].pc[t].block == run[i].rg.used[run[i].pc[t].index / BLOCK_SIZE]
    ensures HasOutput(run[i].pc[t]) ==> B.Delivers(run[i].pc[t].first, run[i].pc[t].out, run[i].enqueued)
    ensures run[i].pc[t].Returned? ==>
      && run[i].pc[t].first <= run[i].pc[t].stop <= |run[i].enqueued|
      && run[i].pc[t].out == run[i].enqueued[run[i].pc[t].first..run[i].pc[t].stop]
  {
    RunKeepsInvariant(run, i);
    assert ThreadOk(run[i], t);
  }

  /** The three assertions of the index never fail: a lookup never meets an invalid base, it ends at an
      entry with the right key and a block, as does every further slot of a walk, and a doubled index
      offers an unused entry. */
  lemma IndexAssertsHold(run: seq<State>, i: nat, t: Thread)
    requires IsRun(run) && i < |run| && t < |run[i].pc|
    ensures run[i].pc[t].HasTail? ==>
      var s, c := run[i], run[i].pc[t];
      && c.header < |s.ix.headers| && c.slot < |s.ix.headers[c.header].index|
      && s.ix.headers[c.header].index[c.slot] < |s.ix.entries|
      && s.ix.entries[s.ix.headers[c.header].index[c.slot]].key != INVALID_BLOCK_BASE
    ensures run[i].pc[t].AtSlot? ==>
      var s, c := run[i], run[i].pc[t];
      && c.header < |s.ix.headers| && c.slot < |s.ix.headers[c.header].index|
      && var x := s.ix.headers[c.header].index[c.slot];
      && x < |s.ix.entries|
      && s.ix.entries[x].key == c.index / BLOCK_SIZE * BLOCK_SIZE && s.ix.entries[x].value != Null
    ensures run[i].p.PKey? && run[i].p.grown ==>
      HasNext(run[i].ix) && run[i].ix.entries[NextEntry(run[i].ix)].key == INVALID_BLOCK_BASE
  {
    RunKeepsInvariant(run, i);
    var s := run[i];
    if s.pc[t].HasTail? {
      BaseIsShown(s, t);
    } else if s.pc[t].AtSlot? {
      LookupFindsRange(s, t);
    }
    if s.p.PKey? && s.p.grown {
      NextIsRange(s.ix);
      NextIsFresh(s.ix, s.rg);
    }
  }

  /** The range that a thread gives back was emptied before. */
  lemma UnlinkedIsDone(s: State, t: Thread, x: nat)
    requires Inv(s) && t < |s.pc| && s.pc[t].MustFree? && x / BLOCK_SIZE == s.pc[t].index / BLOCK_SIZE
    ensures x in s.done && x / BLOCK_SIZE < |s.rg.used| == |s.rg.phase|
    ensures s.rg.phase[x / BLOCK_SIZE] == Unlinked(t) && s.pc[t].block == s.rg.used[x / BLOCK_SIZE]
  {
    hide IndexOk, InHand, ProducerOk, DistinctOk, DoneIn, Walks;
    assert ThreadOk(s, t);
    var r := x / BLOCK_SIZE;
    assert RangeOk(s.rg, s.blocks, s.done, s.enqueued, r);
    hide ThreadOk, RangesOk;
    FullMeansDone(s.done, r);
    assert B.IsOffset(x % BLOCK_SIZE) && r * BLOCK_SIZE + x % BLOCK_SIZE == x;
  }

  /** When a block is given back, all 32 elements of its range have been moved out, no consumer has one
      of them any more, its entry no longer points to it, and no other range that was not given back
      has that block. */
  lemma BlocksAreFreedOnlyWhenEmpty(run: seq<State>, i: nat, t: Thread, u: Thread, x: nat, q: nat)
    requires IsRun(run) && i < |run| - 1 && DoFree(run[i], run[i + 1], t) && u < |run[i].pc|
    requires x / BLOCK_SIZE == run[i].pc[t].index / BLOCK_SIZE
    requires q < |run[i].rg.used| == |run[i].rg.phase| && q != x / BLOCK_SIZE && !run[i].rg.phase[q].Freed?
    ensures x in run[i].done && !Holds(run[i].pc[u], x)
    ensures run[i].rg.phase[x / BLOCK_SIZE] == Unlinked(t) && run[i + 1].rg.phase[x / BLOCK_SIZE] == Freed
    ensures x / BLOCK_SIZE < |run[i].rg.used|
      && run[i].pc[t].block == run[i].rg.used[x / BLOCK_SIZE] != run[i].rg.used[q]
  {
    RunKeepsInvariant(run, i);
    var s := run[i];
    UnlinkedIsDone(s, t, x);
    hide IndexOk, InHand, ProducerOk, RangesOk, Step, PlaceOk;
    assert ThreadOk(s, u);
    assert DifferentBlocks(s.rg, x / BLOCK_SIZE, q);
  }

  /** A block is given back once for each range: the phase never leaves Freed, and no consumer is about to
      give back the block of a range that has reached it. */
  lemma FreedOnce(run: seq<State>, i: nat, t: Thread, r: nat)
    requires IsRun(run) && i < |run| - 1 && r < |run[i].rg.phase| && run[i].rg.phase[r] == Freed
    ensures r < |run[i + 1].rg.phase| && run[i + 1].rg.phase[r] == Freed
    ensures DoFree(run[i], run[i + 1], t) ==> run[i].pc[t].index / BLOCK_SIZE != r
  {
    RunKeepsInvariant(run, i);
    FreedStays(run[i], run[i + 1], r);
    if DoFree(run[i], run[i + 1], t) {
      assert ThreadOk(run[i], t);
    }
  }

  lemma FreedStays(s: State, s': State, r: nat)
    requires ThreadsOk(s) && Step(s, s') && r < |s.rg.phase| && s.rg.phase[r] == Freed
    requires RangesOk(s.rg, s.blocks, s.done, s.enqueued)
    ensures r < |s'.rg.phase| && s'.rg.phase[r] == Freed
  {
    hide ThreadsOk, RangesOk;
    if t: Thread :| ConsumerStep(s, s', t) {
      ConsumerLeavesFreed(s, s', t, r);
    }
  }

  lemma ConsumerLeavesFreed(s: State, s': State, t: Thread, r: nat)
    requires ThreadsOk(s) && ConsumerStep(s, s', t) && r < |s.rg.phase| && s.rg.phase[r] == Freed
    requires RangesOk(s.rg, s.blocks, s.done, s.enqueued)
    ensures r < |s'.rg.phase| && s'.rg.phase[r] == Freed
  {
    hide RangesOk;
    if DoSetEmpty(s, s', t) || DoUnlink(s, s', t) || DoFree(s, s', t) {
      assert ThreadOk(s, t);
      if DoSetEmpty(s, s', t) {
        CountingCanCount(s, t);
        UndoneIsLive(s.rg, s.blocks, s.done, s.enqueued, s.pc[t].index);
      }
    }
  }

  /** No block is lost: when all elements of a range have been moved out, its block was given back, or one
      consumer is about to clear the entry and give it back. */
  lemma NoBlockIsLost(run: seq<State>, i: nat, r: nat)
    requires IsRun(run) && i < |run| && r < |run[i].rg.used| == |run[i].rg.phase|
    requires forall o | 0 <= o < BLOCK_SIZE && B.IsOffset(o) :: r * BLOCK_SIZE + o in run[i].done
    ensures run[i].rg.phase[r].Freed? || exists t: Thread :: t < |run[i].pc| && Releases(run[i].pc[t], r)
  {
    RunKeepsInvariant(run, i);
    var s := run[i];
    assert RangeOk(s.rg, s.blocks, s.done, s.enqueued, r);
    FullMeansDone(s.done, r);
    assert Released(s, r);
    if !s.rg.phase[r].Freed? {
      assert Releases(s.pc[s.rg.phase[r].who], r);
    }
  }

  /** Range r is emptied, and its last consumer has cleared the entry. */
  predicate IsCleared(s: State, r: nat) {
    && (forall o | 0 <= o < BLOCK_SIZE && B.IsOffset(o) :: r * BLOCK_SIZE + o in s.done)
    && forall t: Thread | t < |s.pc| :: !(s.pc[t].MustUnlink? && s.pc[t].index / BLOCK_SIZE == r)
  }

  lemma ClearedMeansGone(s: State, r: nat)
    requires Inv(s) && r < |s.rg.phase|
    ensures IsCleared(s, r) <==> Gone(s.rg.phase[r])
  {
    hide IndexOk, ProducerOk, InHand, DistinctOk, WindowOk;
    assert RangeOk(s.rg, s.blocks, s.done, s.enqueued, r);
    assert Released(s, r);
    FullMeansDone(s.done, r);
    forall t: Thread | t < |s.pc| && s.pc[t].MustUnlink? && s.pc[t].index / BLOCK_SIZE == r
      ensures s.rg.phase[r] == Emptied(t)
    {
      assert ThreadOk(s, t);
    }
  }

  /** When the producer looks at the entry after the tail, it finds it free exactly when the array in use never gave
      it to a range, or that range is emptied and cleared. */
  lemma NextIsFreeExactlyWhen(run: seq<State>, i: nat)
    requires IsRun(run) && i < |run| && run[i].p.PLook? && run[i].ix.headers != []
    ensures HasNext(run[i].ix)
    ensures var s, n, h := run[i], |run[i].rg.used|, B.Last(run[i].ix.headers);
            NextIsFree(s.ix) <==> n < h.origin + h.size || IsCleared(s, n - h.size)
  {
    RunKeepsInvariant(run, i);
    var s := run[i];
    var n, h := |s.rg.used|, B.Last(s.ix.headers);
    NextIsRange(s.ix);
    if n >= h.origin + h.size {
      ClearedMeansGone(s, n - h.size);
    }
    NextIsGone(s);
  }

  lemma NextIsGone(s: State)
    requires IndexOk(s.ix, s.rg, s.p) && s.p.PLook? && s.ix.headers != [] && HasNext(s.ix)
    ensures var n, h := |s.rg.used|, B.Last(s.ix.headers);
            NextIsFree(s.ix) <==> n < h.origin + h.size || Gone(s.rg.phase[n - h.size])
  {
    hide B.Slot, HasNext, HeaderOk;
    var ix, rg := s.ix, s.rg;
    var n, h := |rg.used|, B.Last(ix.headers);
    if |ix.eof| == n + 1 {
      NextIsKeyed(ix, rg);
    } else if Full(ix) {
      NextIsOldest(ix, rg);
      assert KeyOk(ix, n - h.size) && ValueOk(ix, rg, n - h.size);
    } else {
      NextIsFresh(ix, rg);
    }
  }

  predicate Releases(c: Consumer, r: nat) {
    Releasing(c) && c.index / BLOCK_SIZE == r
  }

  /** A consumer can always go on: no lookup ends at a slot, entry or block that is not there. */
  lemma ConsumersAreNeverStuck(run: seq<State>, i: nat, t: Thread) returns (s': State)
    requires IsRun(run) && i < |run| && t < |run[i].pc| && !run[i].pc[t].Idle?
    ensures ConsumerStep(run[i], s', t)
  {
    RunKeepsInvariant(run, i);
    var s := run[i];
    assert ThreadOk(s, t);
    s' := NextOf(s, t);
  }

  lemma NextOf(s: State, t: Thread) returns (s': State)
    requires Inv(s) && t < |s.pc| && ThreadOk(s, t) && !s.pc[t].Idle?
    ensures ConsumerStep(s, s', t)
  {
    hide Inv, ThreadOk;
    match s.pc[t]
    case Claimed(_, _) => s' := NextOfClaim(s, t);
    case HasHeader(_, _, _) => s' := NextOfClaim(s, t);
    case HasTail(_, _, _, _, _) => s' := NextOfTail(s, t);
    case AtSlot(_, _, _, _, _, _) => s' := NextOfSlot(s, t);
    case HasBlock(_, _, _, _, _, _, _, _) => s' := NextOfBlock(s, t);
    case Counting(_, _, _, _, _, _, _, _) => s' := CountOf(s, t);
    case MustUnlink(_, _, _, _, _, _, _, _) => s' := NextOfRelease(s, t);
    case MustFree(_, _, _, _, _, _, _) => s' := NextOfRelease(s, t);
    case Returned(_, _, _) =>
      s' := s.(pc := s.pc[t := Idle]);
      assert DoReturn(s, s', t);
  }

  lemma NextOfClaim(s: State, t: Thread) returns (s': State)
    requires t < |s.pc| && ThreadOk(s, t) && (s.pc[t].Claimed? || s.pc[t].HasHeader?)
    ensures DoLoadHeader(s, s', t) || DoLoadTail(s, s', t)
  {
    var c := s.pc[t];
    if c.Claimed? {
      s' := s.(pc := s.pc[t := HasHeader(c.first, c.stop, |s.ix.headers| - 1)]);
    } else {
      var h := s.ix.headers[c.header];
      s' := s.(pc := s.pc[t := HasTail(c.first, c.stop, c.header, h.tail, h.shown)]);
    }
  }

  lemma NextOfTail(s: State, t: Thread) returns (s': State)
    requires Inv(s) && t < |s.pc| && s.pc[t].HasTail?
    ensures DoLoadBase(s, s', t)
  {
    hide Inv, B.LookupSlot, Walks;
    BaseIsShown(s, t);
    BaseIsWalked(s, t);
    var HasTail(first, stop, i, slot, shown) := s.pc[t];
    var h := s.ix.headers[i];
    var found := B.LookupSlot(first, slot, s.ix.entries[h.index[slot]].key, h.size);
    s' := s.(pc := s.pc[t := AtSlot(first, stop, i, found, first, [])]);
  }

  lemma NextOfSlot(s: State, t: Thread) returns (s': State)
    requires Inv(s) && t < |s.pc| && s.pc[t].AtSlot?
    ensures DoLoadBlock(s, s', t)
  {
    hide Inv;
    LookupFindsRange(s, t);
    var AtSlot(first, stop, i, slot, index, out) := s.pc[t];
    var x := s.ix.headers[i].index[slot];
    s' := s.(pc := s.pc[t := HasBlock(first, stop, i, slot, index, out, x, s.ix.entries[x].value.block)]);
  }

  lemma NextOfBlock(s: State, t: Thread) returns (s': State)
    requires Inv(s) && t < |s.pc| && s.pc[t].HasBlock?
    ensures DoMoveOut(s, s', t)
  {
    hide Inv, B.PartEnd;
    MovedOut(s, t);
    var HasBlock(first, stop, i, slot, index, out, x, id) := s.pc[t];
    var out' := out + [s.blocks[id].data[(first + |out|) % BLOCK_SIZE]];
    s' := s.(pc := s.pc[t :=
      if first + |out'| == B.PartEnd(index, stop) then Counting(first, stop, i, slot, index, out', x, id)
      else HasBlock(first, stop, i, slot, index, out', x, id)]);
  }

  lemma NextOfRelease(s: State, t: Thread) returns (s': State)
    requires Inv(s) && t < |s.pc| && ThreadOk(s, t) && Releasing(s.pc[t])
    ensures DoUnlink(s, s', t) || DoFree(s, s', t)
  {
    hide Inv, AfterPart, B.PartEnd;
    var c := s.pc[t];
    var r := c.index / BLOCK_SIZE;
    if c.MustUnlink? {
      EntryIsThere(s, r);
      s' := s.(
        ix := WithValue(s.ix, c.entry, Null),
        rg := s.rg.(phase := s.rg.phase[r := Unlinked(t)]),
        pc := s.pc[t := MustFree(c.first, c.stop, c.header, c.slot, c.index, c.out, c.block)]);
    } else {
      s' := s.(
        rg := s.rg.(phase := s.rg.phase[r := Freed]),
        pc := s.pc[t := AfterPart(c, s.ix.headers[c.header].size)]);
    }
  }

  lemma CountOf(s: State, t: Thread) returns (s': State)
    requires Inv(s) && t < |s.pc| && ThreadOk(s, t) && s.pc[t].Counting?
    ensures DoSetEmpty(s, s', t)
  {
    hide IndexOk, InHand, ProducerOk, ThreadsOk, DistinctOk, B.Slot;
    var c := s.pc[t];
    var r := c.index / BLOCK_SIZE;
    HeldIsLive(s, t, c.index);
    assert RangeOk(s.rg, s.blocks, s.done, s.enqueued, r);
    var count := s.blocks[c.block].count + (c.first + |c.out| - c.index);
    s' := s.(
      blocks := s.blocks[c.block := s.blocks[c.block].(count := count)],
      pc := s.pc[t :=
        if count == BLOCK_SIZE then MustUnlink(c.first, c.stop, c.header, c.slot, c.index, c.out, c.entry, c.block)
        else AfterPart(c, s.ix.headers[c.header].size)],
      rg := if count == BLOCK_SIZE then s.rg.(phase := s.rg.phase[r := Emptied(t)]) else s.rg,
      done := s.done + Interval(c.index, c.first + |c.out|));
  }

  lemma EntryIsThere(s: State, r: nat)
    requires Inv(s) && r < |s.rg.phase| && s.rg.phase[r].Emptied?
    ensures r < |s.ix.eof| && s.ix.eof[r] < |s.ix.entries|
  {
    assert r >= Lo(s.ix);
    assert ValueOk(s.ix, s.rg, r);
  }

  /** Two consumers never have the same index. */
  lemma ConsumersAreApart(run: seq<State>, i: nat, t: Thread, u: Thread, x: nat)
    requires IsRun(run) && i < |run| && t < |run[i].pc| && u < |run[i].pc|
    requires Holds(run[i].pc[t], x) && Holds(run[i].pc[u], x)
    ensures t == u
  {
    hide B.Slot;
    RunKeepsInvariant(run, i);
    assert Apart(run[i], t, u);
  }

  // ---------------------------------------------------------------- calls come to an end

  /** How many accesses of its own a consumer needs at most before its call can return. */
  function StepsLeft(c: Consumer): int {
    match c
    case Idle => 0
    case Claimed(first, stop) => 6 * (stop - first) + 4
    case HasHeader(first, stop, _) => 6 * (stop - first) + 3
    case HasTail(first, stop, _, _, _) => 6 * (stop - first) + 2
    case AtSlot(_, stop, _, _, index, _) => 6 * (stop - index) + 1
    case HasBlock(first, stop, _, _, index, out, _, _) => 6 * (stop - index) - (first + |out| - index)
    case Counting(first, stop, _, _, _, out, _, _) => 6 * (stop - (first + |out|)) + 4
    case MustUnlink(first, stop, _, _, _, out, _, _) => 6 * (stop - (first + |out|)) + 3
    case MustFree(first, stop, _, _, _, out, _) => 6 * (stop - (first + |out|)) + 2
    case Returned(_, _, _) => 1
  }

  /** Main result: whatever the others do, a consumer with a claim of n indexes finishes within 6 * n + 4 of its
      own accesses. */
  lemma ConsumersFinish(run: seq<State>, i: nat, t: Thread)
    requires IsRun(run) && i < |run| - 1 && t < |run[i].pc| && !run[i].pc[t].Idle?
    requires ConsumerStep(run[i], run[i + 1], t)
    ensures t < |run[i + 1].pc| && 0 <= StepsLeft(run[i + 1].pc[t]) < StepsLeft(run[i].pc[t])
  {
    hide Step, Init;
    RunKeepsInvariant(run, i);
    OneStepLess(run[i], run[i + 1], t);
  }

  lemma OneStepLess(s: State, s': State, t: Thread)
    requires Inv(s) && t < |s.pc| && !s.pc[t].Idle? && ConsumerStep(s, s', t)
    ensures t < |s'.pc| && 0 <= StepsLeft(s'.pc[t]) < StepsLeft(s.pc[t])
  {
    assert ThreadOk(s, t);
    hide Inv, B.LookupSlot, B.Slot, Walks, Shows, PartOk, EntryIs;
    if DoMoveOut(s, s', t) || DoSetEmpty(s, s', t) || DoFree(s, s', t) {
      OneWalkStepLess(s, s', t);
    } else {
      hide DoMoveOut, DoSetEmpty, DoFree, B.PartEnd;
    }
  }

  lemma OneWalkStepLess(s: State, s': State, t: Thread)
    requires t < |s.pc| && (DoMoveOut(s, s', t) || DoSetEmpty(s, s', t) || DoFree(s, s', t)) && ThreadOk(s, t)
    ensures t < |s'.pc| && 0 <= StepsLeft(s'.pc[t]) < StepsLeft(s.pc[t])
  {
    hide B.Slot, Walks, B.Delivers, PartOk, EntryIs, Interval;
    var c := s.pc[t];
    assert PlaceOk(s, c, t) && B.PartEnd(c.index, c.stop) <= c.stop;
    hide B.PartEnd;
  }

  /** How many accesses are left to the producer. */
  function ProducerStepsLeft(p: Producer): nat {
    match p
    case PIdle => 0
    case PStart(_, _) => 10
    case PLook(_, _) => 9
    case PGrow(_, _) => 8
    case PKey(_, _, _) => 7
    case PTail(_, _, _) => 6
    case PRequisition(_, _, _) => 5
    case PRewind(_, _) => 2
    case PDrop(_, _) => 1
    case PReset(_, _, _) => 4
    case PPublish(_, _, _) => 3
    case PWrite(_) => 2
    case PStoreTail(_) => 1
  }

  /** There is a block to be had, if the environment says so. */
  predicate BlockIsThere(s: State, id: Id) {
    s.p.PRequisition? && s.p.a.block ==> id < |s.blocks| && NotInUse(s.rg, id)
  }

  /** Main result: enqueue takes at most ten accesses, and can always take the next one. */
  lemma EnqueueFinishes(run: seq<State>, i: nat, id: Id) returns (s': State)
    requires IsRun(run) && i < |run| && !run[i].p.PIdle? && BlockIsThere(run[i], id)
    ensures ProducerStep(run[i], s')
    ensures i < |run| - 1 && ProducerStep(run[i], run[i + 1]) ==>
      ProducerStepsLeft(run[i + 1].p) < ProducerStepsLeft(run[i].p)
  {
    hide Step, Init;
    RunKeepsInvariant(run, i);
    s' := NextOfProducer(run[i], id);
    if i < |run| - 1 && ProducerStep(run[i], run[i + 1]) {
      OneProducerStepLess(run[i], run[i + 1]);
    }
  }

  lemma NextProducerAccess(s: State, s': State)
    requires ProducerStep(s, s')
    ensures match s.p
            case PIdle => false
            case PStart(_, _) => DoStart(s, s')
            case PLook(_, _) => DoLook(s, s')
            case PGrow(_, _) => exists more :: DoGrow(s, s', more)
            case PKey(_, _, _) => DoKey(s, s')
            case PTail(_, _, _) => DoTail(s, s')
            case PRequisition(_, _, _) => exists id :: DoRequisition(s, s', id)
            case PRewind(_, _) => DoRewind(s, s')
            case PDrop(_, _) => DoDrop(s, s')
            case PReset(_, _, _) => DoReset(s, s')
            case PPublish(_, _, _) => DoPublish(s, s')
            case PWrite(_) => DoWrite(s, s')
            case PStoreTail(_) => DoStoreTail(s, s')
  {
  }

  lemma OneProducerStepLess(s: State, s': State)
    requires ProducerStep(s, s')
    ensures ProducerStepsLeft(s'.p) < ProducerStepsLeft(s.p)
  {
    NextProducerAccess(s, s');
    hide ProducerStep, HasNext, NextIsFree;
  }

  lemma NextOfProducer(s: State, id: Id) returns (s': State)
    requires Inv(s) && !s.p.PIdle? && BlockIsThere(s, id)
    ensures ProducerStep(s, s')
  {
    match s.p
    case PStart(e, a) =>
      s' := s.(p :=
        if s.tail % BLOCK_SIZE != 0 then PWrite(e)
        else if a.mayGrow then PLook(e, a)
        else PIdle);
      assert DoStart(s, s');
    case PReset(e, x, block) =>
      s' := s.(blocks := s.blocks[block := s.blocks[block].(count := 0)], p := PPublish(e, x, block));
      assert DoReset(s, s');
    case PWrite(e) =>
      s' := NextOfWrite(s);
    case PStoreTail(e) =>
      s' := s.(tail := s.tail + 1, enqueued := s.enqueued + [e], p := PIdle);
      assert DoStoreTail(s, s');
    case PRequisition(e, a, x) =>
      s' := if !a.block then s.(p := PRewind(e, x)) else s.(p := PReset(e, x, id));
      assert DoRequisition(s, s', id);
    case PLook(e, a) =>
      s' := NextOfLook(s);
    case _ =>
      s' := NextOfIndexWrite(s);
  }

  lemma NextOfWrite(s: State) returns (s': State)
    requires Inv(s) && s.p.PWrite?
    ensures DoWrite(s, s')
  {
    var r := |s.rg.used| - 1;
    assert r >= 0 && s.tail / BLOCK_SIZE == r && s.tail !in s.done;
    UndoneIsLive(s.rg, s.blocks, s.done, s.enqueued, s.tail);
    assert RangeOk(s.rg, s.blocks, s.done, s.enqueued, r);
    hide Inv, RangeOk;
    var id := B.Last(s.rg.used);
    s' := s.(
      blocks := s.blocks[id := s.blocks[id].(data := s.blocks[id].data[s.tail % BLOCK_SIZE := s.p.e])],
      p := PStoreTail(s.p.e));
  }

  lemma NextOfLook(s: State) returns (s': State)
    requires Inv(s) && s.p.PLook?
    ensures DoLook(s, s')
  {
    if s.ix.headers == [] {
      s' := s.(p := PIdle);
    } else {
      NextIsRange(s.ix);
      s' := s.(p :=
        if NextIsFree(s.ix) then PKey(s.p.e, s.p.a, false)
        else if s.p.a.index then PGrow(s.p.e, s.p.a)
        else PIdle);
    }
  }

  lemma NextOfIndexWrite(s: State) returns (s': State)
    requires Inv(s) && (s.p.PGrow? || s.p.PKey? || s.p.PTail? || s.p.PRewind? || s.p.PDrop? || s.p.PPublish?)
    ensures ProducerStep(s, s')
  {
    assert IndexOk(s.ix, s.rg, s.p) && s.ix.headers != [];
    NextIsRange(s.ix);
    var h, e := B.Last(s.ix.headers), s.p.e;
    assert HeaderOk(h, s.ix.eof, |s.ix.entries|);
    assert s.p.PDrop? || s.p.PPublish? ==> s.p.entry < |s.ix.entries| by {
      if s.p.PDrop? || s.p.PPublish? {
        assert KeyOk(s.ix, |s.rg.used|);
      }
    }
    assert s.p.PRewind? ==> h.shown > 0;
    hide Inv, IndexOk, HasNext, HeaderOk;
    match s.p
    case PGrow(_, a) =>
      var more := seq(h.size, _ => Entry(INVALID_BLOCK_BASE, Null));
      s' := s.(ix := Index(s.ix.headers + [Doubled(s.ix)], s.ix.entries + more, s.ix.eof), p := PKey(e, a, true));
      assert DoGrow(s, s', more);
    case PKey(_, a, _) =>
      s' := s.(ix := Keyed(s.ix, |s.rg.used|, s.tail), p := PTail(e, a, NextEntry(s.ix)));
      assert DoKey(s, s');
    case PTail(_, a, x) =>
      s' := s.(ix := WithLast(s.ix, h.(tail := NextSlot(h), shown := h.shown + 1)), p := PRequisition(e, a, x));
      assert DoTail(s, s');
    case PRewind(_, x) =>
      s' := s.(ix := WithLast(s.ix, h.(tail := B.Slot(h.tail - 1, h.size), shown := h.shown - 1)), p := PDrop(e, x));
      assert DoRewind(s, s');
    case PDrop(_, x) =>
      s' := s.(ix := WithValue(s.ix, x, Null), p := PIdle);
      assert DoDrop(s, s');
    case PPublish(_, x, id) =>
      s' := s.(
        ix := WithValue(s.ix, x, At(id)),
        rg := Ranges(s.rg.used + [id], s.rg.phase + [Live]),
        p := PWrite(e));
      assert DoPublish(s, s');
  }

  // ---------------------------------------------------------------- what an enqueue answers

  ghost predicate InEnqueue(run: seq<State>, b: nat, i: nat)
    requires i < |run|
  {
    forall j | b < j <= i :: !run[j].p.PIdle?
  }

  /** When the call looked at the entry after the tail, there was an index, the entry was free or a larger index was
      to be had, and so was a block. */
  predicate Served(ix: Index, a: B.Answers) {
    ix.headers != [] && HasNext(ix) && (NextIsFree(ix) || a.index) && a.block
  }

  predicate LookedAt(run: seq<State>, b: nat, m: nat, i: nat) {
    b < m < i && m < |run| && run[m].p.PLook?
  }

  /** What the program point of the producer says about a call enqueue(e) that began at state `b` and looked at the
      entry after the tail at state `m`, if it got that far. */
  predicate EnqueueInformed(run: seq<State>, b: nat, m: nat, i: nat, e: Elem, a: B.Answers)
    requires b < i < |run|
  {
    var s := run[i];
    var boundary := run[b].tail % BLOCK_SIZE == 0;
    && s.enqueued == run[b].enqueued && s.tail == run[b].tail
    && (s.p.PIdle? || s.p.e == e)
    && match s.p
       case PIdle => false
       case PStart(_, y) => y == a
       case PLook(_, y) => y == a && boundary && a.mayGrow
       case PWrite(_) => boundary ==> LookedAt(run, b, m, i) && a.mayGrow && Served(run[m].ix, a)
       case PStoreTail(_) => boundary ==> LookedAt(run, b, m, i) && a.mayGrow && Served(run[m].ix, a)
       case PReset(_, _, _) => boundary && LookedAt(run, b, m, i) && a.mayGrow && Served(run[m].ix, a)
       case PPublish(_, _, _) => boundary && LookedAt(run, b, m, i) && a.mayGrow && Served(run[m].ix, a)
       case PRewind(_, _) => boundary && LookedAt(run, b, m, i) && a.mayGrow && !a.block
       case PDrop(_, _) => boundary && LookedAt(run, b, m, i) && a.mayGrow && !a.block
       case _ =>
         && s.p.a == a && boundary && LookedAt(run, b, m, i) && a.mayGrow
         && Served(run[m].ix, a.(block := true))
  }

  /** A call that returned after state `r` appended its element, or not, as the environment and the index decided. */
  predicate EnqueueAnswer(run: seq<State>, b: nat, m: nat, r: nat, a: B.Answers, appended: bool)
    requires b < |run|
  {
    if run[b].tail % BLOCK_SIZE != 0 then appended
    else if !a.mayGrow then !appended
    else LookedAt(run, b, m, r + 1) && (appended <==> Served(run[m].ix, a))
  }

  lemma EnqueueInformedNext(run: seq<State>, b: nat, m: nat, i: nat, e: Elem, a: B.Answers) returns (m': nat)
    requires b < i < |run| - 1 && EnqueueInformed(run, b, m, i, e, a) && ProducerStep(run[i], run[i + 1])
    ensures !run[i + 1].p.PIdle? ==> EnqueueInformed(run, b, m', i + 1, e, a)
    ensures run[i + 1].p.PIdle? ==> EnqueueAnswer(run, b, m', i, a, run[i + 1].enqueued == run[b].enqueued + [e])
    ensures run[i + 1].p.PIdle? ==> run[i + 1].enqueued in {run[b].enqueued, run[b].enqueued + [e]}
  {
    m' := if run[i].p.PLook? then i else m;
    NextProducerAccess(run[i], run[i + 1]);
    hide ProducerStep, HasNext, NextIsFree, Keyed, Doubled;
  }

  lemma ConsumerLeavesEnqueue(s: State, s': State, t: Thread)
    requires ConsumerStep(s, s', t)
    ensures s'.p == s.p && s'.enqueued == s.enqueued && s'.tail == s.tail
  {
  }

  lemma {:induction false} CallIsInformed(run: seq<State>, b: nat, i: nat, e: Elem, a: B.Answers) returns (m: nat)
    requires IsRun(run) && b < i < |run| && BeginEnqueue(run[b], run[b + 1], e, a) && InEnqueue(run, b, i)
    ensures EnqueueInformed(run, b, m, i, e, a)
  {
    hide Init, ProducerStep, ConsumerStep;
    if b + 1 == i {
      m := 0;
    } else {
      m := CallIsInformed(run, b, i - 1, e, a);
      var s, s' := run[i - 1], run[i];
      assert Step(s, s');
      if ProducerStep(s, s') {
        m := EnqueueInformedNext(run, b, m, i - 1, e, a);
      } else if t: Thread :| ConsumerStep(s, s', t) {
        ConsumerLeavesEnqueue(s, s', t);
      }
    }
  }

  /**
   * Main result: an enqueue appends its element, and nothing else, or leaves the queue alone. Within a block it
   * always appends; at the end of a block exactly if the sub-queue might grow, there was an index, the entry after
   * its tail was free or a larger index was to be had, and so was a block.
   */
  lemma EnqueueAppendsWhenServed(run: seq<State>, b: nat, r: nat, e: Elem, a: B.Answers) returns (m: nat)
    requires IsRun(run) && b < r < |run| - 1 && BeginEnqueue(run[b], run[b + 1], e, a) && InEnqueue(run, b, r)
    requires run[r + 1].p.PIdle?
    ensures run[r + 1].enqueued in {run[b].enqueued, run[b].enqueued + [e]}
    ensures EnqueueAnswer(run, b, m, r, a, run[r + 1].enqueued == run[b].enqueued + [e])
  {
    hide Init, ProducerStep, ConsumerStep;
    m := CallIsInformed(run, b, r, e, a);
    var s, s' := run[r], run[r + 1];
    assert Step(s, s');
    if t: Thread :| ConsumerStep(s, s', t) {
      ConsumerLeavesEnqueue(s, s', t);
    } else {
      hide EnqueueInformed, EnqueueAnswer;
      m := EnqueueInformedNext(run, b, m, r, e, a);
    }
  }
}
