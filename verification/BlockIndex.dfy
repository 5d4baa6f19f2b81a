/**
 * How the consumers of libs/moodycamel/concurrentqueue.h find elements: ExplicitProducer's blocks and
 * its circular block index, which doubles while consumers still read the old one (enqueue, lines
 * 1783-1883; dequeue, lines 1939-1975; dequeue_bulk, lines 2171-2256; new_block_index, lines 2279-2316;
 * Block, lines 1486-1580).
 *
 * One transition is one access to memory that another thread may touch; the producer's private
 * variables go with the access they lead up to. Any number of consumers interleave with the producer.
 * A consumer may claim any number of indexes from `head` on that are below `tail`; that the counters
 * grant claims in no other case is what module DequeueCounters proves. A single dequeue is a claim of one
 * index. Blocks have 32 elements and one emptiness flag per element (the default traits); constructors
 * and assignments do not throw, and elements are enqueued one at a time.
 *
 * The circular list of the producer's own blocks is the sequence `list`, from the block after the
 * tail block round to the tail block. History, read by no step: `used`, which block was given to each
 * range of 32 indexes; `done`, the indexes whose flag has been set; `enqueued`; for each index header
 * the ranges it covers; and, with a consumer that has read a header's front, how many ranges that
 * front exposed.
 */
module BlockIndex {

  type Elem = int
  type Id = nat
  type Thread = nat

  const BLOCK_SIZE: nat := 32

  datatype Block = Block(flags: set<nat>, data: seq<Elem>)

  datatype Entry = Entry(base: nat, block: Id)

  /** Range j (indexes from j * 32) sits in slot (j - origin) mod size, for lo <= j < hi; the front
      slot is that of range shown - 1. */
  datatype Header = Header(size: nat, front: int, entries: seq<Entry>, origin: nat, lo: nat, hi: nat, shown: nat)

  /** What the environment answers in the course of an enqueue: whether the sub-queue may grow by a block, whether
      a larger index may be allocated and is, and whether requisition_block has a block. */
  datatype Answers = Answers(mayGrow: bool, index: bool, block: bool)

  datatype Producer =
    | PIdle
    | PStart(e: Elem, a: Answers)
    | PNewBlock(e: Elem, a: Answers)
    | PNeedIndex(e: Elem, a: Answers)
    | PRequisition(e: Elem, a: Answers)
    | PReset(e: Elem)
    | PWriteBase(e: Elem)
    | PWriteBlock(e: Elem)
    | PStoreFront(e: Elem)
    | PWriteElem(e: Elem)
    | PStoreTail(e: Elem)

  /** A claim of the indexes from `first` to `stop`, worked off block by block: the part in the block of
      range index / 32 is looked up, moved out from its first element on, and marked empty from its last. */
  datatype Consumer =
    | Idle
    | Claimed(first: nat, stop: nat)
    | HasHeader(first: nat, stop: nat, header: nat)
    | HasFront(first: nat, stop: nat, header: nat, front: nat, exposed: nat)
    | AtSlot(first: nat, stop: nat, header: nat, slot: nat, index: nat, out: seq<Elem>)
    | HasBlock(first: nat, stop: nat, header: nat, slot: nat, index: nat, out: seq<Elem>, block: Id)
    | Marking(first: nat, stop: nat, header: nat, slot: nat, index: nat, out: seq<Elem>, block: Id, left: nat)
    | Returned(first: nat, stop: nat, out: seq<Elem>)

  datatype State = State(
    tail: nat,
    head: nat,
    headers: seq<Header>,
    indexSize: nat,
    front: nat,
    list: seq<Id>,
    blocks: seq<Block>,
    p: Producer,
    pc: seq<Consumer>,
    used: seq<Id>,
    done: set<nat>,
    enqueued: seq<Elem>)

  function AllOffsets(): (r: set<nat>) {
    set o | 0 <= o < BLOCK_SIZE && IsOffset(o)
  }

  predicate IsOffset(o: nat) {
    o < BLOCK_SIZE
  }

  function Last<T>(s: seq<T>): T
    requires s != []
  {
    s[|s| - 1]
  }

  /** `x & (size - 1)` for a size that is a power of two. */
  function Slot(x: int, size: nat): (slot: nat)
    requires size > 0
    ensures slot < size
  {
    x % size
  }

  // ---------------------------------------------------------------- transitions

  /** The constructor's own index allocation may have failed, and is then made up for later. */
  ghost predicate Init(s: State) {
    && s.tail == s.head == s.front == 0
    && s.indexSize > 0
    && (s.headers == [] || s.headers == [EmptyHeader(s.indexSize)])
    && s.list == [] && s.used == [] && s.enqueued == [] && s.done == {}
    && (forall b | 0 <= b < |s.blocks| :: |s.blocks[b].data| == BLOCK_SIZE)
    && s.p == PIdle
    && (forall t | 0 <= t < |s.pc| :: s.pc[t] == Idle)
  }

  function EmptyHeader(size: nat): Header {
    Header(size, -1, seq(size, _ => Entry(0, 0)), 0, 0, 0, 0)
  }

  /** What new_block_index(pr_blockIndexSlotsUsed) builds: twice the size, the old entries from the
      oldest on at the start, the front at the newest. */
  function NewHeader(s: State): Header
    requires s.indexSize > 0
  {
    var n := |s.list|;
    Header(
      2 * s.indexSize,
      n - 1,
      seq(2 * s.indexSize, j requires 0 <= j => CopiedEntry(s, j)),
      if |s.used| >= n then |s.used| - n else 0,
      if |s.used| >= n then |s.used| - n else 0,
      |s.used|,
      |s.used|)
  }

  function CopiedEntry(s: State, j: nat): Entry {
    if s.headers != [] && j < |s.list| && Last(s.headers).size > 0
       && Slot(s.front - |s.list| + j, Last(s.headers).size) < |Last(s.headers).entries|
    then Last(s.headers).entries[Slot(s.front - |s.list| + j, Last(s.headers).size)]
    else Entry(0, 0)
  }

  ghost predicate BeginEnqueue(s: State, s': State, e: Elem, a: Answers) {
    s.p == PIdle && s' == s.(p := PStart(e, a))
  }

  ghost predicate DoStart(s: State, s': State) {
    && s.p.PStart?
    && s' == s.(p := if s.tail % BLOCK_SIZE == 0 then PNewBlock(s.p.e, s.p.a) else PWriteElem(s.p.e))
  }

  function WithLast(s: State, h: Header): State
    requires s.headers != []
  {
    s.(headers := s.headers[|s.headers| - 1 := h])
  }

  /** All elements of the block ahead have been moved out. */
  predicate AheadIsEmpty(s: State) {
    s.list != [] && s.list[0] < |s.blocks| && s.blocks[s.list[0]].flags == AllOffsets()
  }

  predicate IndexIsFull(s: State) {
    s.headers == [] || |s.list| == Last(s.headers).size
  }

  /** Reuse the block ahead if every element in it has been moved out; otherwise a new block is needed,
      unless the sub-queue may not grow. */
  ghost predicate DoNewBlock(s: State, s': State) {
    && s.p.PNewBlock?
    && if AheadIsEmpty(s) then
         && s.headers != []
         && s' == WithLast(s, Last(s.headers).(lo := Last(s.headers).lo + 1)).(
           list := s.list[1..] + [s.list[0]],
           used := s.used + [s.list[0]],
           p := PReset(s.p.e))
       else
         s' == s.(p := if s.p.a.mayGrow then PNeedIndex(s.p.e, s.p.a) else PIdle)
  }

  ghost predicate DoNeedIndex(s: State, s': State) {
    && s.p.PNeedIndex? && s.indexSize > 0
    && s' ==
       if !IndexIsFull(s) then s.(p := PRequisition(s.p.e, s.p.a))
       else if !s.p.a.index then s.(p := PIdle)
       else
         s.(
           headers := s.headers + [NewHeader(s)],
           indexSize := 2 * s.indexSize,
           front := |s.list|,
           p := PRequisition(s.p.e, s.p.a))
  }

  /** requisition_block yields some block that is not in use here (module FreeList), or none. */
  ghost predicate DoRequisition(s: State, s': State, id: Id) {
    && s.p.PRequisition?
    && if !s.p.a.block then
         s' == s.(p := PIdle)
       else
         && id < |s.blocks| && id !in s.list
         && s' == s.(
           blocks := s.blocks[id := s.blocks[id].(flags := {})],
           list := s.list + [id],
           used := s.used + [id],
           p := PWriteBase(s.p.e))
  }

  ghost predicate DoReset(s: State, s': State) {
    && s.p.PReset? && s.list != [] && Last(s.list) < |s.blocks|
    && var id := Last(s.list);
    && s' == s.(blocks := s.blocks[id := s.blocks[id].(flags := {})], p := PWriteBase(s.p.e))
  }

  ghost predicate DoWriteBase(s: State, s': State) {
    && s.p.PWriteBase? && s.headers != []
    && var h := Last(s.headers);
    && s.front < |h.entries|
    && s' == WithLast(s, h.(entries := h.entries[s.front := h.entries[s.front].(base := s.tail)])).(
      p := PWriteBlock(s.p.e))
  }

  ghost predicate DoWriteBlock(s: State, s': State) {
    && s.p.PWriteBlock? && s.headers != [] && s.list != []
    && var h := Last(s.headers);
    && s.front < |h.entries|
    && s' == WithLast(s, h.(
         entries := h.entries[s.front := h.entries[s.front].(block := Last(s.list))],
         hi := |s.used|)).(
      p := PStoreFront(s.p.e))
  }

  ghost predicate DoStoreFront(s: State, s': State) {
    && s.p.PStoreFront? && s.headers != []
    && var h := Last(s.headers);
    && h.size > 0
    && s' == WithLast(s, h.(front := s.front, shown := |s.used|)).(
      front := Slot(s.front + 1, h.size),
      p := PWriteElem(s.p.e))
  }

  ghost predicate DoWriteElem(s: State, s': State) {
    && s.p.PWriteElem? && s.list != [] && Last(s.list) < |s.blocks|
    && var id := Last(s.list);
    && |s.blocks[id].data| == BLOCK_SIZE
    && s' == s.(
      blocks := s.blocks[id := s.blocks[id].(data := s.blocks[id].data[s.tail % BLOCK_SIZE := s.p.e])],
      p := PStoreTail(s.p.e))
  }

  ghost predicate DoStoreTail(s: State, s': State) {
    && s.p.PStoreTail?
    && s' == s.(tail := s.tail + 1, enqueued := s.enqueued + [s.p.e], p := PIdle)
  }

  ghost predicate ProducerStep(s: State, s': State) {
    || DoStart(s, s')
    || DoNewBlock(s, s')
    || DoNeedIndex(s, s')
    || (exists id :: DoRequisition(s, s', id))
    || DoReset(s, s')
    || DoWriteBase(s, s')
    || DoWriteBlock(s, s')
    || DoStoreFront(s, s')
    || DoWriteElem(s, s')
    || DoStoreTail(s, s')
  }

  ghost predicate Claim(s: State, s': State, t: Thread, count: nat) {
    && t < |s.pc| && s.pc[t] == Idle && count > 0 && s.head + count <= s.tail
    && s' == s.(head := s.head + count, pc := s.pc[t := Claimed(s.head, s.head + count)])
  }

  ghost predicate DoLoadHeader(s: State, s': State, t: Thread) {
    && t < |s.pc| && s.pc[t].Claimed? && s.headers != []
    && s' == s.(pc := s.pc[t := HasHeader(s.pc[t].first, s.pc[t].stop, |s.headers| - 1)])
  }

  ghost predicate DoLoadFront(s: State, s': State, t: Thread) {
    && t < |s.pc| && s.pc[t].HasHeader? && s.pc[t].header < |s.headers|
    && var HasHeader(first, stop, header) := s.pc[t];
    && var h := s.headers[header];
    && h.front >= 0
    && s' == s.(pc := s.pc[t := HasFront(first, stop, header, h.front, h.shown)])
  }

  /** The slot the code computes: the signed distance of the bases, in blocks, from the front slot. */
  function LookupSlot(index: nat, front: nat, base: nat, size: nat): nat
    requires size > 0
  {
    var blockBase := index - index % BLOCK_SIZE;
    var offset := if blockBase >= base then (blockBase - base) / BLOCK_SIZE else -((base - blockBase) / BLOCK_SIZE);
    Slot(front + offset, size)
  }

  /** Read the base in the front slot, and compute the slot of the first index. */
  ghost predicate DoLoadBase(s: State, s': State, t: Thread) {
    && t < |s.pc| && s.pc[t].HasFront? && s.pc[t].header < |s.headers|
    && var HasFront(first, stop, header, front, exposed) := s.pc[t];
    && var h := s.headers[header];
    && h.size > 0 && front < |h.entries|
    && s' == s.(pc := s.pc[t :=
         AtSlot(first, stop, header, LookupSlot(first, front, h.entries[front].base, h.size), first, [])])
  }

  ghost predicate DoLoadBlock(s: State, s': State, t: Thread) {
    && t < |s.pc| && s.pc[t].AtSlot? && s.pc[t].header < |s.headers|
    && var AtSlot(first, stop, header, slot, index, out) := s.pc[t];
    && slot < |s.headers[header].entries|
    && s' == s.(pc := s.pc[t :=
         HasBlock(first, stop, header, slot, index, out, s.headers[header].entries[slot].block)])
  }

  /** Where the part of a claim ends that starts at `index`: with its block, or with the claim. */
  function PartEnd(index: nat, stop: nat): nat {
    var end := index - index % BLOCK_SIZE + BLOCK_SIZE;
    if stop < end then stop else end
  }

  ghost predicate DoMoveOut(s: State, s': State, t: Thread) {
    && t < |s.pc| && s.pc[t].HasBlock? && s.pc[t].block < |s.blocks|
    && var HasBlock(first, stop, header, slot, index, out, id) := s.pc[t];
    && |s.blocks[id].data| == BLOCK_SIZE
    && var out' := out + [s.blocks[id].data[(first + |out|) % BLOCK_SIZE]];
    && s' == s.(pc := s.pc[t :=
         if first + |out'| == PartEnd(index, stop)
         then Marking(first, stop, header, slot, index, out', id, first + |out'|)
         else HasBlock(first, stop, header, slot, index, out', id)])
  }

  /** After the last flag of a part, the walk goes on to the next slot of the same header. */
  function AfterMark(c: Consumer, size: nat): Consumer
    requires c.Marking? && c.left > 0 && size > 0
  {
    var Marking(first, stop, header, slot, index, out, id, left) := c;
    if left - 1 > index then c.(left := left - 1)
    else if first + |out| < stop then AtSlot(first, stop, header, Slot(slot + 1, size), first + |out|, out)
    else Returned(first, stop, out)
  }

  ghost predicate DoSetEmpty(s: State, s': State, t: Thread) {
    && t < |s.pc| && s.pc[t].Marking? && s.pc[t].block < |s.blocks| && s.pc[t].header < |s.headers|
    && var Marking(first, stop, header, slot, index, out, id, left) := s.pc[t];
    && left > 0 && s.headers[header].size > 0
    && s' == s.(
      blocks := s.blocks[id := s.blocks[id].(flags := s.blocks[id].flags + {(left - 1) % BLOCK_SIZE})],
      pc := s.pc[t := AfterMark(s.pc[t], s.headers[header].size)],
      done := s.done + {left - 1})
  }

  ghost predicate DoReturn(s: State, s': State, t: Thread) {
    && t < |s.pc| && s.pc[t].Returned?
    && s' == s.(pc := s.pc[t := Idle])
  }

  ghost predicate ConsumerStep(s: State, s': State, t: Thread) {
    || (exists count :: Claim(s, s', t, count))
    || DoLoadHeader(s, s', t)
    || DoLoadFront(s, s', t)
    || DoLoadBase(s, s', t)
    || DoLoadBlock(s, s', t)
    || DoMoveOut(s, s', t)
    || DoSetEmpty(s, s', t)
    || DoReturn(s, s', t)
  }

  ghost predicate Step(s: State, s': State) {
    || (exists e, a :: BeginEnqueue(s, s', e, a))
    || ProducerStep(s, s')
    || (exists t :: ConsumerStep(s, s', t))
  }

  // ---------------------------------------------------------------- the invariant

  /** The oldest range whose block the producer still has. */
  function Oldest(s: State): int {
    |s.used| - |s.list|
  }

  /** The newest block is in `list`, but the index does not show it yet. */
  predicate Entering(p: Producer) {
    p.PReset? || p.PWriteBase? || p.PWriteBlock? || p.PStoreFront?
  }

  function Bit(b: bool): nat {
    if b then 1 else 0
  }

  predicate EntryOk(h: Header, used: seq<Id>, j: nat)
    requires h.size > 0 && |h.entries| == h.size && h.origin <= j < |used|
  {
    h.entries[Slot(j - h.origin, h.size)] == Entry(j * BLOCK_SIZE, used[j])
  }

  predicate HeaderOk(h: Header, used: seq<Id>) {
    && h.size > 0 && |h.entries| == h.size
    && h.origin <= h.lo && h.shown <= h.hi <= |used| && h.hi <= h.lo + h.size
    && (forall j | h.lo <= j < h.hi :: EntryOk(h, used, j))
    && (h.shown > h.origin ==> h.front == Slot(h.shown - 1 - h.origin, h.size))
  }

  /** The header in use: it covers exactly the blocks in the list. */
  predicate CurrentOk(s: State) {
    if s.headers == [] then s.used == []
    else
      var h := Last(s.headers);
      && h.size > 0
      && h.size == s.indexSize
      && |s.list| <= h.size
      && h.lo == Oldest(s)
      && h.hi == |s.used| - Bit(Entering(s.p) && !s.p.PStoreFront?)
      && h.shown == |s.used| - Bit(Entering(s.p))
      && s.front == Slot(|s.used| - Bit(Entering(s.p)) - h.origin, h.size)
  }

  predicate ProducerOk(s: State) {
    && (Entering(s.p) ==> s.used != [] && s.list != [] && s.headers != [] && s.tail == (|s.used| - 1) * BLOCK_SIZE)
    && (s.p.PWriteElem? || s.p.PStoreTail? ==>
          s.list != [] && (|s.used| - 1) * BLOCK_SIZE <= s.tail < |s.used| * BLOCK_SIZE)
    && (s.p.PNewBlock? || s.p.PNeedIndex? || s.p.PRequisition? ==> s.tail == |s.used| * BLOCK_SIZE)
    && (s.p.PIdle? || s.p.PStart? ==> (|s.used| - 1) * BLOCK_SIZE < s.tail <= |s.used| * BLOCK_SIZE)
    && (s.used != [] ==> s.list != [])
    && (s.p.PRequisition? ==> s.headers != [] && |s.list| < Last(s.headers).size)
    && (s.p.PWriteBlock? ==>
          s.headers != [] && s.front < |Last(s.headers).entries| && Last(s.headers).entries[s.front].base == s.tail)
  }

  /** Block of range j: a flag is set exactly for the elements that are done, and the others are there. */
  predicate RangeOk(s: State, j: nat)
    requires j < |s.used|
  {
    && s.used[j] < |s.blocks|
    && |s.blocks[s.used[j]].data| == BLOCK_SIZE
    && (!(s.p.PReset? && j == |s.used| - 1) ==>
          forall o | 0 <= o < BLOCK_SIZE && IsOffset(o) ::
            o in s.blocks[s.used[j]].flags <==> j * BLOCK_SIZE + o in s.done)
    && (s.blocks[s.used[j]].flags <= AllOffsets())
    && (forall o | 0 <= o < BLOCK_SIZE && IsOffset(o) && j * BLOCK_SIZE + o < |s.enqueued| ::
          j * BLOCK_SIZE + o !in s.done ==> s.blocks[s.used[j]].data[o] == s.enqueued[j * BLOCK_SIZE + o])
    && (s.p.PStoreTail? && j == |s.used| - 1 ==> s.blocks[s.used[j]].data[s.tail % BLOCK_SIZE] == s.p.e)
  }

  predicate ListOk(s: State) {
    && Oldest(s) >= 0
    && (forall i | 0 <= i < |s.list| :: s.list[i] == s.used[Oldest(s) + i])
    && (forall i, k | 0 <= i < k < |s.list| :: s.list[i] != s.list[k])
  }

  /** An index that is claimed, or still to be claimed, and not done. */
  predicate Waiting(s: State, index: nat) {
    index < |s.enqueued| && index !in s.done
  }

  ghost predicate WindowOk(s: State) {
    && s.head <= s.tail == |s.enqueued|
    && (forall x | x in s.done :: x < s.head)
    && (forall x: nat | Waiting(s, x) :: x / BLOCK_SIZE >= Oldest(s))
  }

  /** The claimed indexes whose elements are not done yet. */
  predicate Holds(c: Consumer, x: nat) {
    match c
    case Idle => false
    case Claimed(first, stop) => first <= x < stop
    case HasHeader(first, stop, _) => first <= x < stop
    case HasFront(first, stop, _, _, _) => first <= x < stop
    case AtSlot(_, stop, _, _, index, _) => index <= x < stop
    case HasBlock(_, stop, _, _, index, _, _) => index <= x < stop
    case Marking(first, stop, _, _, index, out, _, left) => index <= x < left || first + |out| <= x < stop
    case Returned(_, _, _) => false
  }

  /** What was moved out is what was enqueued, from the first claimed index on. */
  predicate Delivers(first: nat, out: seq<Elem>, enqueued: seq<Elem>) {
    first + |out| <= |enqueued| && out == enqueued[first..first + |out|]
  }

  /** The walk is at the slot of the range of `index`, in a header that covers the rest of the claim. */
  predicate Walks(s: State, header: nat, slot: nat, index: nat, stop: nat) {
    && header < |s.headers|
    && var h := s.headers[header];
    && h.size > 0 && index < stop
    && h.origin <= h.lo <= index / BLOCK_SIZE && (stop - 1) / BLOCK_SIZE < h.hi
    && slot == Slot(index / BLOCK_SIZE - h.origin, h.size)
  }

  predicate Shows(h: Header, j: nat, k: nat, front: nat, exposed: nat) {
    && h.size > 0
    && h.origin <= h.lo <= j && k < exposed <= h.hi
    && front == Slot(exposed - 1 - h.origin, h.size)
  }

  predicate PlaceOk(s: State, c: Consumer)
    requires !c.Idle? ==> c.first < c.stop
  {
    match c
    case Idle => true
    case Claimed(first, stop) => s.headers != [] && (stop - 1) / BLOCK_SIZE < Last(s.headers).shown
    case HasHeader(first, stop, i) =>
      && i < |s.headers|
      && s.headers[i].lo <= first / BLOCK_SIZE && (stop - 1) / BLOCK_SIZE < s.headers[i].shown
    case HasFront(first, stop, i, front, exposed) =>
      i < |s.headers| && Shows(s.headers[i], first / BLOCK_SIZE, (stop - 1) / BLOCK_SIZE, front, exposed)
    case AtSlot(first, stop, i, slot, index, out) =>
      Walks(s, i, slot, index, stop) && index == first + |out|
    case HasBlock(first, stop, i, slot, index, out, id) =>
      && Walks(s, i, slot, index, stop)
      && index <= first + |out| < PartEnd(index, stop)
      && index / BLOCK_SIZE < |s.used| && id == s.used[index / BLOCK_SIZE]
    case Marking(first, stop, i, slot, index, out, id, left) =>
      && Walks(s, i, slot, index, stop)
      && index < left <= first + |out| == PartEnd(index, stop)
      && index / BLOCK_SIZE < |s.used| && id == s.used[index / BLOCK_SIZE]
    case Returned(first, stop, out) => first + |out| == stop
  }

  predicate HasOutput(c: Consumer) {
    c.AtSlot? || c.HasBlock? || c.Marking? || c.Returned?
  }

  ghost predicate ThreadOk(s: State, t: Thread)
    requires t < |s.pc|
  {
    var c := s.pc[t];
    && (!c.Idle? ==> c.first < c.stop <= s.head && (c.stop - 1) / BLOCK_SIZE < |s.used|)
    && (forall x: nat | Holds(c, x) :: Waiting(s, x))
    && (HasOutput(c) ==> Delivers(c.first, c.out, s.enqueued))
    && PlaceOk(s, c)
  }

  ghost predicate Apart(s: State, t: Thread, u: Thread)
    requires t < |s.pc| && u < |s.pc|
  {
    t != u ==> forall x :: !(Holds(s.pc[t], x) && Holds(s.pc[u], x))
  }

  ghost predicate ThreadsOk(s: State) {
    && (forall t | 0 <= t < |s.pc| :: ThreadOk(s, t))
    && (forall t, u | 0 <= t < |s.pc| && 0 <= u < |s.pc| :: Apart(s, t, u))
  }

  ghost predicate RangesOk(s: State) {
    forall j: nat | Oldest(s) <= j < |s.used| :: RangeOk(s, j)
  }

  ghost predicate HeadersOk(s: State) {
    forall i | 0 <= i < |s.headers| :: HeaderOk(s.headers[i], s.used)
  }

  ghost predicate Inv(s: State) {
    && s.indexSize > 0
    && ListOk(s)
    && (forall b | 0 <= b < |s.blocks| :: |s.blocks[b].data| == BLOCK_SIZE)
    && HeadersOk(s)
    && CurrentOk(s)
    && ProducerOk(s)
    && RangesOk(s)
    && WindowOk(s)
    && ThreadsOk(s)
  }

  // ---------------------------------------------------------------- slots of a circular index

  lemma NoSmallMultiple(k: int, size: nat)
    ensures k * size <= 0 || k * size >= size
  {
    if k > 0 {
      assert k * size == size + (k - 1) * size;
    }
  }

  lemma Distribute(x: int, y: int, size: int)
    ensures (x - y) * size == x * size - y * size
  {
  }

  lemma UniqueRemainder(x: int, q: int, r: int, size: nat)
    requires size > 0 && 0 <= r < size && x == q * size + r
    ensures x % size == r
  {
    var q', r' := x / size, x % size;
    Distribute(q, q', size);
    NoSmallMultiple(q - q', size);
    NoSmallMultiple(q' - q, size);
    Distribute(q', q, size);
  }

  lemma SlotShift(x: int, k: int, size: nat)
    requires size > 0
    ensures Slot(x + k * size, size) == Slot(x, size)
  {
    Distribute(x / size, -k, size);
    assert (-k) * size == -(k * size);
    UniqueRemainder(x + k * size, x / size + k, x % size, size);
  }

  /** Moving away from a slot and moving away from the position it stands for is the same. */
  lemma SlotOffset(x: int, d: int, size: nat)
    requires size > 0
    ensures Slot(Slot(x, size) + d, size) == Slot(x + d, size)
  {
    assert x == (x / size) * size + Slot(x, size);
    SlotShift(Slot(x, size) + d, x / size, size);
    assert x + d == Slot(x, size) + d + (x / size) * size;
  }

  /** Fewer than `size` apart, positions have different slots. */
  lemma SlotsDiffer(a: int, b: int, size: nat)
    requires a < b < a + size
    ensures Slot(a, size) != Slot(b, size)
  {
    assert a == (a / size) * size + Slot(a, size) && b == (b / size) * size + Slot(b, size);
    Distribute(b / size, a / size, size);
    NoSmallMultiple(b / size - a / size, size);
  }

  // ---------------------------------------------------------------- consumers only read

  /** Everything but the threads, which only looked at something. */
  predicate SameButThreads(s: State, s': State) {
    s' == s.(pc := s'.pc)
  }

  /** A consumer moves on with the claim it has, or ends it. */
  ghost predicate MovesOn(s: State, c: Consumer, c': Consumer) {
    && (!c'.Idle? ==> !c.Idle? && c'.first == c.first && c'.stop == c.stop && c'.first < c'.stop && PlaceOk(s, c'))
    && (forall x: nat | Holds(c', x) :: Holds(c, x))
    && (HasOutput(c') ==> Delivers(c'.first, c'.out, s.enqueued))
  }

  lemma ThreadsMove(s: State, s': State, t: Thread)
    requires ThreadsOk(s) && SameButThreads(s, s')
    requires t < |s.pc| == |s'.pc| && s'.pc == s.pc[t := s'.pc[t]]
    requires MovesOn(s, s.pc[t], s'.pc[t])
    ensures ThreadsOk(s')
  {
    hide Slot;
    forall u | 0 <= u < |s'.pc|
      ensures ThreadOk(s', u)
    {
      assert ThreadOk(s, u) && ThreadOk(s, t);
      assert forall x: nat | Holds(s'.pc[u], x) :: Holds(s.pc[u], x) && Waiting(s, x);
      SamePlace(s, s', s'.pc[u]);
    }
    forall u, v | 0 <= u < |s'.pc| && 0 <= v < |s'.pc|
      ensures Apart(s', u, v)
    {
      assert Apart(s, u, v);
    }
  }

  lemma SamePlace(s: State, s': State, c: Consumer)
    requires s'.headers == s.headers && s'.used == s.used && (!c.Idle? ==> c.first < c.stop && PlaceOk(s, c))
    ensures PlaceOk(s', c)
  {
  }

  lemma LooksKeep(s: State, s': State, t: Thread)
    requires Inv(s) && SameButThreads(s, s')
    requires ThreadsOk(s')
    ensures Inv(s')
  {
    forall j: nat | Oldest(s') <= j < |s'.used|
      ensures RangeOk(s', j)
    {
      assert RangeOk(s, j);
    }
    forall x: nat | Waiting(s', x)
      ensures x / BLOCK_SIZE >= Oldest(s')
    {
      assert Waiting(s, x);
    }
  }

  lemma LoadHeaderKeeps(s: State, s': State, t: Thread)
    requires Inv(s) && DoLoadHeader(s, s', t)
    ensures Inv(s')
  {
    hide Slot;
    assert ThreadOk(s, t);
    assert Holds(s.pc[t], s.pc[t].first);
    assert Waiting(s, s.pc[t].first);
    assert HeaderOk(Last(s.headers), s.used);
    ThreadsMove(s, s', t);
    LooksKeep(s, s', t);
  }

  lemma LoadFrontKeeps(s: State, s': State, t: Thread)
    requires Inv(s) && DoLoadFront(s, s', t)
    ensures Inv(s')
  {
    assert ThreadOk(s, t);
    assert HeaderOk(s.headers[s.pc[t].header], s.used);
    ThreadsMove(s, s', t);
    LooksKeep(s, s', t);
  }

  lemma LookupOffset(index: nat, front: nat, exposed: nat, size: nat)
    requires size > 0 && index / BLOCK_SIZE < exposed
    ensures LookupSlot(index, front, (exposed - 1) * BLOCK_SIZE, size)
         == Slot(front + (index / BLOCK_SIZE - (exposed - 1)), size)
  {
  }

  /** The slot computed from the front that was read is the one of the range of the index. */
  lemma LookupIsSlot(index: nat, front: nat, exposed: nat, origin: nat, size: nat)
    requires size > 0 && index / BLOCK_SIZE < exposed && front == Slot(exposed - 1 - origin, size)
    ensures LookupSlot(index, front, (exposed - 1) * BLOCK_SIZE, size) == Slot(index / BLOCK_SIZE - origin, size)
  {
    hide LookupSlot, Slot;
    LookupOffset(index, front, exposed, size);
    var x, d := exposed - 1 - origin, index / BLOCK_SIZE - (exposed - 1);
    SlotOffset(x, d, size);
    assert x + d == index / BLOCK_SIZE - origin;
  }

  lemma FrontHasBase(h: Header, used: seq<Id>, j: nat, k: nat, front: nat, exposed: nat)
    requires HeaderOk(h, used) && Shows(h, j, k, front, exposed) && j <= k
    ensures front < |h.entries| && h.entries[front].base == (exposed - 1) * BLOCK_SIZE
  {
    assert EntryOk(h, used, exposed - 1);
  }

  lemma BaseIsWalked(s: State, first: nat, stop: nat, header: nat, front: nat, exposed: nat)
    requires first < stop && PlaceOk(s, HasFront(first, stop, header, front, exposed)) && HeadersOk(s)
    ensures var h := s.headers[header];
            && front < |h.entries|
            && Walks(s, header, LookupSlot(first, front, h.entries[front].base, h.size), first, stop)
  {
    var h := s.headers[header];
    assert HeaderOk(h, s.used);
    FrontHasBase(h, s.used, first / BLOCK_SIZE, (stop - 1) / BLOCK_SIZE, front, exposed);
    LookupIsSlot(first, front, exposed, h.origin, h.size);
  }

  lemma LoadBaseKeeps(s: State, s': State, t: Thread)
    requires Inv(s) && DoLoadBase(s, s', t)
    ensures Inv(s')
  {
    assert ThreadOk(s, t);
    var HasFront(first, stop, header, front, exposed) := s.pc[t];
    BaseIsWalked(s, first, stop, header, front, exposed);
    hide LookupSlot, Walks;
    ThreadsMove(s, s', t);
    LooksKeep(s, s', t);
  }

  /** Every slot that a consumer comes to, the one it computed and those it walks on to, holds the base and
      block of the range of its index, whatever the producer has done to the index since. */
  lemma LookupFindsRange(s: State, t: Thread)
    requires Inv(s) && t < |s.pc| && s.pc[t].AtSlot?
    ensures s.pc[t].header < |s.headers|
    ensures var AtSlot(first, stop, header, slot, index, out) := s.pc[t];
      var h := s.headers[header];
      && slot < |h.entries| && index / BLOCK_SIZE < |s.used|
      && h.entries[slot] == Entry(index / BLOCK_SIZE * BLOCK_SIZE, s.used[index / BLOCK_SIZE])
  {
    assert ThreadOk(s, t);
    var AtSlot(first, stop, header, slot, index, out) := s.pc[t];
    assert HeaderOk(s.headers[header], s.used);
    assert EntryOk(s.headers[header], s.used, index / BLOCK_SIZE);
  }

  lemma LoadBlockKeeps(s: State, s': State, t: Thread)
    requires Inv(s) && DoLoadBlock(s, s', t)
    ensures Inv(s')
  {
    hide Slot;
    assert ThreadOk(s, t);
    LookupFindsRange(s, t);
    ThreadsMove(s, s', t);
    LooksKeep(s, s', t);
  }

  /** The indexes of a part lie in one block. */
  lemma PartInBlock(index: nat, stop: nat, x: nat)
    requires index <= x < PartEnd(index, stop)
    ensures x / BLOCK_SIZE == index / BLOCK_SIZE && x < stop
  {
  }

  lemma MovedOut(s: State, t: Thread)
    requires Inv(s) && t < |s.pc| && s.pc[t].HasBlock?
    ensures var x := s.pc[t].first + |s.pc[t].out|;
            && x < |s.enqueued| && s.pc[t].block < |s.blocks| && |s.blocks[s.pc[t].block].data| == BLOCK_SIZE
            && s.blocks[s.pc[t].block].data[x % BLOCK_SIZE] == s.enqueued[x]
  {
    assert ThreadOk(s, t);
    var c := s.pc[t];
    var x := c.first + |c.out|;
    PartInBlock(c.index, c.stop, x);
    assert Holds(c, x);
    assert Waiting(s, x);
    assert RangeOk(s, x / BLOCK_SIZE);
    assert IsOffset(x % BLOCK_SIZE);
    assert x == x / BLOCK_SIZE * BLOCK_SIZE + x % BLOCK_SIZE;
  }

  /** One more element of the part was moved out. */
  lemma MoveOutMoves(s: State, s': State, t: Thread)
    requires t < |s.pc| && ThreadOk(s, t) && DoMoveOut(s, s', t)
    requires var x := s.pc[t].first + |s.pc[t].out|;
             && x < |s.enqueued| && s.blocks[s.pc[t].block].data[x % BLOCK_SIZE] == s.enqueued[x]
             && x < s.pc[t].stop
    ensures MovesOn(s, s.pc[t], s'.pc[t])
  {
    hide Walks, PartEnd, Waiting;
    var c := s.pc[t];
    DeliversNext(c.first, c.out, s.enqueued);
    hide Delivers;
  }

  lemma DeliversNext(first: nat, out: seq<Elem>, enqueued: seq<Elem>)
    requires Delivers(first, out, enqueued) && first + |out| < |enqueued|
    ensures Delivers(first, out + [enqueued[first + |out|]], enqueued)
  {
  }

  lemma MoveOutKeeps(s: State, s': State, t: Thread)
    requires Inv(s) && DoMoveOut(s, s', t)
    ensures Inv(s')
  {
    assert ThreadOk(s, t);
    MovedOut(s, t);
    PartInBlock(s.pc[t].index, s.pc[t].stop, s.pc[t].first + |s.pc[t].out|);
    MoveOutMoves(s, s', t);
    hide MovesOn, ThreadOk, PlaceOk, Delivers, PartEnd;
    ThreadsMove(s, s', t);
    LooksKeep(s, s', t);
  }

  lemma ReturnKeeps(s: State, s': State, t: Thread)
    requires Inv(s) && DoReturn(s, s', t)
    ensures Inv(s')
  {
    ThreadsMove(s, s', t);
    LooksKeep(s, s', t);
  }

  lemma ClaimKeepsThread(s: State, s': State, t: Thread, count: nat, u: Thread)
    requires Inv(s) && Claim(s, s', t, count) && u < |s.pc|
    ensures ThreadOk(s', u)
  {
    assert (s'.head - 1) / BLOCK_SIZE < |s.used|;
    assert ThreadOk(s, u);
    if u == t {
      assert forall x: nat | s.head <= x < s.tail :: Waiting(s', x);
    } else {
      hide RangesOk, HeadersOk, ListOk, CurrentOk, ProducerOk;
      assert forall x: nat | Waiting(s, x) :: Waiting(s', x);
      SamePlace(s, s', s.pc[u]);
    }
  }

  lemma ClaimKeepsThreads(s: State, s': State, t: Thread, count: nat)
    requires Inv(s) && Claim(s, s', t, count)
    ensures ThreadsOk(s')
  {
    forall u | 0 <= u < |s'.pc|
      ensures ThreadOk(s', u)
    {
      ClaimKeepsThread(s, s', t, count, u);
    }
    forall u, v | 0 <= u < |s'.pc| && 0 <= v < |s'.pc|
      ensures Apart(s', u, v)
    {
      assert Apart(s, u, v) && ThreadOk(s, u) && ThreadOk(s, v);
      HeldBelowHead(s, u);
      HeldBelowHead(s, v);
      hide ThreadOk;
    }
  }

  lemma HeldBelowHead(s: State, t: Thread)
    requires t < |s.pc| && ThreadOk(s, t)
    ensures forall x: nat | Holds(s.pc[t], x) :: x < s.head
  {
  }

  lemma ClaimKeeps(s: State, s': State, t: Thread, count: nat)
    requires Inv(s) && Claim(s, s', t, count)
    ensures Inv(s')
  {
    ClaimKeepsThreads(s, s', t, count);
    hide ThreadsOk;
    forall j: nat | Oldest(s') <= j < |s'.used|
      ensures RangeOk(s', j)
    {
      assert RangeOk(s, j);
    }
    forall x: nat | Waiting(s', x)
      ensures x / BLOCK_SIZE >= Oldest(s')
    {
      assert Waiting(s, x);
    }
  }

  /** The element whose flag is set next is in the part, and was not done before. */
  lemma MarkedIsWaiting(s: State, t: Thread)
    requires Inv(s) && t < |s.pc| && s.pc[t].Marking?
    ensures var c := s.pc[t];
            var x := c.left - 1;
            && 0 <= x < s.head && Holds(c, x) && Waiting(s, x) && x / BLOCK_SIZE == c.index / BLOCK_SIZE
            && x / BLOCK_SIZE < |s.used| && c.block == s.used[x / BLOCK_SIZE] && Oldest(s) <= x / BLOCK_SIZE
  {
    assert ThreadOk(s, t);
    var c := s.pc[t];
    PartInBlock(c.index, c.stop, c.left - 1);
    assert Holds(c, c.left - 1);
  }

  /** Setting a flag: the block is still the one of the index's range, so this marks the right element. */
  /** What a step does that sets the flag of the element `x`, in the block `id`. */
  predicate Marks(s: State, s': State, x: nat, id: Id) {
    && id < |s.blocks|
    && s'.blocks == s.blocks[id := s.blocks[id].(flags := s.blocks[id].flags + {x % BLOCK_SIZE})]
    && s'.done == s.done + {x}
    && s'.used == s.used && s'.enqueued == s.enqueued && s'.p == s.p && s'.tail == s.tail
  }

  lemma MarkedRange(s: State, s': State, x: nat)
    requires x / BLOCK_SIZE < |s.used| && RangeOk(s, x / BLOCK_SIZE) && Marks(s, s', x, s.used[x / BLOCK_SIZE])
    ensures RangeOk(s', x / BLOCK_SIZE)
  {
    assert IsOffset(x % BLOCK_SIZE);
    assert x == x / BLOCK_SIZE * BLOCK_SIZE + x % BLOCK_SIZE;
  }

  lemma OtherRange(s: State, s': State, x: nat, id: Id, j: nat)
    requires j < |s.used| && RangeOk(s, j) && Marks(s, s', x, id) && s.used[j] != id && x / BLOCK_SIZE != j
    ensures RangeOk(s', j)
  {
    assert forall o | 0 <= o < BLOCK_SIZE && IsOffset(o) :: (j * BLOCK_SIZE + o) / BLOCK_SIZE == j;
  }

  lemma SetEmptyRanges(s: State, s': State, t: Thread)
    requires Inv(s) && DoSetEmpty(s, s', t)
    ensures RangesOk(s')
  {
    MarkedIsWaiting(s, t);
    var x: nat, id := s.pc[t].left - 1, s.pc[t].block;
    var j0 := x / BLOCK_SIZE;
    hide ThreadsOk, HeadersOk, CurrentOk, ProducerOk, WindowOk, RangeOk, AfterMark;
    forall j: nat | Oldest(s') <= j < |s'.used|
      ensures RangeOk(s', j)
    {
      assert RangeOk(s, j);
      if j == j0 {
        MarkedRange(s, s', x);
      } else {
        assert s.list[j - Oldest(s)] != s.list[j0 - Oldest(s)];
        OtherRange(s, s', x, id, j);
      }
    }
  }

  /** The walk goes on to the slot of the next range. */
  lemma NextSlotWalks(s: State, header: nat, slot: nat, index: nat, stop: nat)
    requires Walks(s, header, slot, index, stop) && PartEnd(index, stop) < stop
    ensures Walks(s, header, Slot(slot + 1, s.headers[header].size), PartEnd(index, stop), stop)
  {
    var h := s.headers[header];
    assert PartEnd(index, stop) / BLOCK_SIZE == index / BLOCK_SIZE + 1;
    SlotOffset(index / BLOCK_SIZE - h.origin, 1, h.size);
    assert index / BLOCK_SIZE - h.origin + 1 == PartEnd(index, stop) / BLOCK_SIZE - h.origin;
  }

  lemma AfterMarkHolds(c: Consumer, size: nat)
    requires c.Marking? && size > 0 && c.index < c.left <= c.first + |c.out| <= c.stop
    ensures forall x :: Holds(AfterMark(c, size), x) <==> Holds(c, x) && x != c.left - 1
  {
  }

  lemma AfterMarkPlace(s: State, c: Consumer)
    requires c.Marking? && c.first < c.stop && PlaceOk(s, c)
    ensures PlaceOk(s, AfterMark(c, s.headers[c.header].size))
  {
    if c.left - 1 == c.index && c.first + |c.out| < c.stop {
      NextSlotWalks(s, c.header, c.slot, c.index, c.stop);
    }
    hide Walks;
  }

  lemma SetEmptyThread(s: State, s': State, t: Thread)
    requires Inv(s) && DoSetEmpty(s, s', t)
    ensures ThreadOk(s', t)
    ensures forall x: nat | Holds(s'.pc[t], x) :: Holds(s.pc[t], x)
  {
    hide Slot;
    assert ThreadOk(s, t);
    AfterMarkHolds(s.pc[t], s.headers[s.pc[t].header].size);
    AfterMarkPlace(s, s.pc[t]);
    hide RangesOk, ThreadsOk, HeadersOk, ListOk, CurrentOk, ProducerOk, PlaceOk, Holds;
    SamePlace(s, s', s'.pc[t]);
    assert forall x: nat | Holds(s'.pc[t], x) :: Waiting(s, x) && x != s.pc[t].left - 1;
  }

  lemma SetEmptyOtherThread(s: State, s': State, t: Thread, u: Thread)
    requires Inv(s) && DoSetEmpty(s, s', t) && u < |s.pc| && u != t
    ensures ThreadOk(s', u)
  {
    hide RangesOk, ListOk, HeadersOk, CurrentOk, ProducerOk, WindowOk;
    MarkedIsWaiting(s, t);
    assert ThreadOk(s, u) && Apart(s, t, u);
    assert forall x: nat | Holds(s.pc[u], x) :: Waiting(s, x) && x != s.pc[t].left - 1;
    SamePlace(s, s', s.pc[u]);
  }

  lemma SetEmptyThreads(s: State, s': State, t: Thread)
    requires Inv(s) && DoSetEmpty(s, s', t)
    ensures ThreadsOk(s')
  {
    SetEmptyThread(s, s', t);
    forall u | 0 <= u < |s'.pc|
      ensures ThreadOk(s', u)
    {
      if u != t {
        SetEmptyOtherThread(s, s', t, u);
      }
    }
    hide ThreadOk, RangesOk;
    forall u, v | 0 <= u < |s'.pc| && 0 <= v < |s'.pc|
      ensures Apart(s', u, v)
    {
      assert Apart(s, u, v);
    }
  }

  lemma SetEmptyWindow(s: State, s': State, t: Thread)
    requires Inv(s) && DoSetEmpty(s, s', t)
    ensures WindowOk(s')
  {
    hide RangesOk;
    MarkedIsWaiting(s, t);
    forall x: nat | Waiting(s', x)
      ensures x / BLOCK_SIZE >= Oldest(s')
    {
      assert Waiting(s, x);
    }
  }

  lemma SetEmptyKeeps(s: State, s': State, t: Thread)
    requires Inv(s) && DoSetEmpty(s, s', t)
    ensures Inv(s')
  {
    hide RangesOk, ThreadsOk, WindowOk;
    SetEmptyRanges(s, s', t);
    SetEmptyThreads(s, s', t);
    SetEmptyWindow(s, s', t);
  }

  // ---------------------------------------------------------------- the producer's steps

  /** A header only grows, except that the one in use drops ranges whose blocks are gone. */
  predicate Grows(h: Header, h': Header, oldest: int) {
    && h'.origin == h.origin && h'.size == h.size
    && h'.origin <= h'.lo && (h'.lo == h.lo || h'.lo == oldest)
    && h.hi <= h'.hi && h.shown <= h'.shown
  }

  lemma PlaceStays(s: State, s': State, c: Consumer)
    requires (!c.Idle? ==> c.first < c.stop) && PlaceOk(s, c)
    requires s.used <= s'.used && |s'.headers| >= |s.headers|
    requires forall i | 0 <= i < |s.headers| :: Grows(s.headers[i], s'.headers[i], Oldest(s'))
    requires s.headers != [] ==> Last(s'.headers).shown >= Last(s.headers).shown
    requires c.HasHeader? || c.HasFront? ==> c.first / BLOCK_SIZE >= Oldest(s')
    requires c.AtSlot? || c.HasBlock? || c.Marking? ==> c.index / BLOCK_SIZE >= Oldest(s')
    ensures PlaceOk(s', c)
  {
    hide Slot;
    if !c.Idle? && !c.Claimed? && !c.Returned? {
      assert Grows(s.headers[c.header], s'.headers[c.header], Oldest(s'));
    }
  }

  lemma ThreadStays(s: State, s': State, t: Thread)
    requires t < |s.pc| && ThreadOk(s, t) && s'.pc == s.pc && s'.head == s.head && s'.done == s.done
    requires s.used <= s'.used && s.enqueued <= s'.enqueued && |s'.headers| >= |s.headers|
    requires forall i | 0 <= i < |s.headers| :: Grows(s.headers[i], s'.headers[i], Oldest(s'))
    requires s.headers != [] ==> Last(s'.headers).shown >= Last(s.headers).shown
    requires forall x: nat | Holds(s.pc[t], x) :: x / BLOCK_SIZE >= Oldest(s')
    ensures ThreadOk(s', t)
  {
    hide Slot;
    var c := s.pc[t];
    assert forall x: nat | Waiting(s, x) :: Waiting(s', x);
    if c.HasHeader? || c.HasFront? {
      assert Holds(c, c.first);
    } else if c.AtSlot? || c.HasBlock? || c.Marking? {
      assert Holds(c, c.index);
    }
    PlaceStays(s, s', c);
    hide PlaceOk;
  }

  /** What the consumers see of a producer's step. */
  lemma ThreadsStay(s: State, s': State)
    requires ThreadsOk(s) && s'.pc == s.pc && s'.head == s.head && s'.done == s.done
    requires s.used <= s'.used && s.enqueued <= s'.enqueued && |s'.headers| >= |s.headers|
    requires forall i | 0 <= i < |s.headers| :: Grows(s.headers[i], s'.headers[i], Oldest(s'))
    requires s.headers != [] ==> Last(s'.headers).shown >= Last(s.headers).shown
    requires WindowOk(s')
    ensures ThreadsOk(s')
  {
    forall u | 0 <= u < |s'.pc|
      ensures ThreadOk(s', u)
    {
      assert ThreadOk(s, u);
      assert forall x: nat | Holds(s.pc[u], x) :: Waiting(s', x);
      ThreadStays(s, s', u);
    }
    forall u, v | 0 <= u < |s'.pc| && 0 <= v < |s'.pc|
      ensures Apart(s', u, v)
    {
      assert Apart(s, u, v);
    }
  }

  lemma SameWindow(s: State, s': State)
    requires WindowOk(s) && s'.enqueued == s.enqueued && s'.done == s.done && s'.head == s.head && s'.tail == s.tail
    requires Oldest(s') == Oldest(s)
    ensures WindowOk(s')
  {
    forall x: nat | Waiting(s', x)
      ensures x / BLOCK_SIZE >= Oldest(s')
    {
      assert Waiting(s, x);
    }
  }

  lemma SameRanges(s: State, s': State)
    requires RangesOk(s) && s'.used == s.used && |s'.list| == |s.list| && s'.blocks == s.blocks
    requires s'.done == s.done && s'.enqueued == s.enqueued && s'.tail == s.tail
    requires (s'.p.PReset? <==> s.p.PReset?) && !s'.p.PStoreTail?
    ensures RangesOk(s')
  {
    forall j: nat | Oldest(s') <= j < |s'.used|
      ensures RangeOk(s', j)
    {
      assert RangeOk(s, j);
    }
  }

  /** The producer only moved on. */
  lemma QuietStepKeeps(s: State, s': State)
    requires Inv(s) && s' == s.(p := s'.p)
    requires !Entering(s.p) && !Entering(s'.p) && !s'.p.PStoreTail? && ProducerOk(s')
    ensures Inv(s')
  {
    SameWindow(s, s');
    SameRanges(s, s');
    ThreadsStay(s, s');
  }

  lemma BeginKeeps(s: State, s': State, e: Elem, a: Answers)
    requires Inv(s) && BeginEnqueue(s, s', e, a)
    ensures Inv(s')
  {
    QuietStepKeeps(s, s');
  }

  lemma StartKeeps(s: State, s': State)
    requires Inv(s) && DoStart(s, s')
    ensures Inv(s')
  {
    hide Slot;
    QuietStepKeeps(s, s');
  }

  /** A block is taken for reuse only when all its elements have been moved out. */
  lemma ReusedBlockIsDone(s: State, x: nat)
    requires Inv(s) && s.list != [] && s.list[0] < |s.blocks| && s.blocks[s.list[0]].flags == AllOffsets()
    requires s.p.PNewBlock?
    requires x / BLOCK_SIZE == Oldest(s)
    ensures x in s.done
  {
    assert RangeOk(s, Oldest(s));
    assert IsOffset(x % BLOCK_SIZE);
    assert x == Oldest(s) * BLOCK_SIZE + x % BLOCK_SIZE;
  }

  lemma ReuseRanges(s: State, s': State)
    requires Inv(s) && DoNewBlock(s, s') && s'.p.PReset?
    ensures ListOk(s') && RangesOk(s') && WindowOk(s')
  {
    hide Slot;
    assert s.list[0] == s.used[Oldest(s)];
    assert Oldest(s') == Oldest(s) + 1;
    forall j: nat | Oldest(s') <= j < |s'.used|
      ensures RangeOk(s', j)
    {
      if j < |s.used| {
        assert RangeOk(s, j);
      } else {
        assert RangeOk(s, Oldest(s));
      }
    }
    forall x: nat | Waiting(s', x)
      ensures x / BLOCK_SIZE >= Oldest(s')
    {
      assert Waiting(s, x);
      if x / BLOCK_SIZE == Oldest(s) {
        ReusedBlockIsDone(s, x);
      }
    }
  }

  lemma HeadersStay(s: State, s': State, i: nat)
    requires HeadersOk(s) && i < |s.headers| && i < |s'.headers| && s'.headers[i] == s.headers[i]
    requires s.used <= s'.used
    ensures HeaderOk(s'.headers[i], s'.used)
  {
    var h := s.headers[i];
    assert HeaderOk(h, s.used);
    forall j | h.lo <= j < h.hi
      ensures EntryOk(h, s'.used, j)
    {
      assert EntryOk(h, s.used, j);
      assert s'.used[j] == s.used[j];
    }
  }

  lemma ReuseHeaders(s: State, s': State)
    requires Inv(s) && DoNewBlock(s, s') && s'.p.PReset?
    ensures HeadersOk(s') && CurrentOk(s')
  {
    hide Slot;
    forall i | 0 <= i < |s'.headers|
      ensures HeaderOk(s'.headers[i], s'.used)
    {
      if i < |s.headers| - 1 {
        HeadersStay(s, s', i);
      } else {
        var h := Last(s.headers);
        assert HeaderOk(h, s.used);
        forall j | h.lo + 1 <= j < h.hi
          ensures EntryOk(s'.headers[i], s'.used, j)
        {
          assert EntryOk(h, s.used, j);
        }
      }
    }
  }

  lemma NewBlockKeeps(s: State, s': State)
    requires Inv(s) && DoNewBlock(s, s')
    ensures Inv(s')
  {
    hide Slot;
    if s'.p.PReset? {
      ReuseRanges(s, s');
      ReuseHeaders(s, s');
      assert HeaderOk(Last(s.headers), s.used);
      ThreadsStay(s, s');
    } else {
      QuietStepKeeps(s, s');
    }
  }

  /** The doubled index lists the same ranges, from its first slot on. */
  lemma NewHeaderOk(s: State)
    requires Inv(s) && s.p.PNeedIndex? && IndexIsFull(s)
    ensures HeaderOk(NewHeader(s), s.used)
  {
    hide Slot;
    var h := NewHeader(s);
    forall j | h.lo <= j < h.hi
      ensures EntryOk(h, s.used, j)
    {
      var k := j - h.origin;
      assert k < h.size;
      SlotOfSmall(k, h.size);
      var was := Last(s.headers);
      assert HeaderOk(was, s.used);
      assert EntryOk(was, s.used, j);
      SlotOffset(|s.used| - was.origin, k - |s.list|, was.size);
      assert |s.used| - was.origin + (k - |s.list|) == j - was.origin;
    }
    if h.shown > h.origin {
      SlotOfSmall(h.shown - 1 - h.origin, h.size);
    }
  }

  lemma SlotOfSmall(x: int, size: nat)
    requires 0 <= x < size
    ensures Slot(x, size) == x
  {
  }

  lemma NeedIndexHeaders(s: State, s': State)
    requires Inv(s) && DoNeedIndex(s, s') && s'.headers != s.headers
    ensures HeadersOk(s')
  {
    NewHeaderOk(s);
    forall i | 0 <= i < |s'.headers|
      ensures HeaderOk(s'.headers[i], s'.used)
    {
      if i < |s.headers| {
        HeadersStay(s, s', i);
      }
    }
  }

  lemma NeedIndexKeeps(s: State, s': State)
    requires Inv(s) && DoNeedIndex(s, s')
    ensures Inv(s')
  {
    hide Slot;
    if s'.headers == s.headers {
      QuietStepKeeps(s, s');
    } else {
      NeedIndexHeaders(s, s');
      assert s.headers != [] ==> HeaderOk(Last(s.headers), s.used);
      hide RangesOk, ThreadsOk, WindowOk, HeadersOk;
      SlotOfSmall(|s.list|, 2 * s.indexSize);
      hide Slot;
      SameWindow(s, s');
      SameRanges(s, s');
      ThreadsStay(s, s');
    }
  }

  lemma RequisitionRanges(s: State, s': State, id: Id)
    requires Inv(s) && DoRequisition(s, s', id) && s'.p.PWriteBase?
    ensures ListOk(s') && RangesOk(s') && WindowOk(s')
  {
    hide Slot;
    SameWindow(s, s');
    forall j: nat | Oldest(s') <= j < |s'.used|
      ensures RangeOk(s', j)
    {
      if j < |s.used| {
        assert RangeOk(s, j);
        assert s.list[j - Oldest(s)] == s.used[j];
      } else {
        assert forall o | 0 <= o < BLOCK_SIZE && IsOffset(o) :: j * BLOCK_SIZE + o !in s.done;
      }
    }
  }

  lemma RequisitionKeeps(s: State, s': State, id: Id)
    requires Inv(s) && DoRequisition(s, s', id)
    ensures Inv(s')
  {
    if s'.p.PIdle? {
      QuietStepKeeps(s, s');
    } else {
      RequisitionRanges(s, s', id);
      forall i | 0 <= i < |s'.headers|
        ensures HeaderOk(s'.headers[i], s'.used)
      {
        HeadersStay(s, s', i);
      }
      ThreadsStay(s, s');
    }
  }

  lemma ResetRanges(s: State, s': State)
    requires Inv(s) && DoReset(s, s')
    ensures RangesOk(s') && WindowOk(s')
  {
    SameWindow(s, s');
    var newest := |s.used| - 1;
    assert Last(s.list) == s.used[newest];
    forall j: nat | Oldest(s') <= j < |s'.used|
      ensures RangeOk(s', j)
    {
      assert RangeOk(s, j);
      if j == newest {
        assert forall o | 0 <= o < BLOCK_SIZE && IsOffset(o) :: j * BLOCK_SIZE + o !in s.done;
      } else {
        assert s.list[j - Oldest(s)] != Last(s.list);
      }
    }
  }

  lemma ResetKeeps(s: State, s': State)
    requires Inv(s) && DoReset(s, s')
    ensures Inv(s')
  {
    hide Slot;
    ResetRanges(s, s');
    ThreadsStay(s, s');
  }

  /** Writing the slot after the front cannot touch a covered one. */
  lemma FreshSlot(s: State, j: nat)
    requires Inv(s) && s.headers != [] && Entering(s.p) && !s.p.PStoreFront?
    requires Last(s.headers).lo <= j < Last(s.headers).hi
    ensures s.front != Slot(j - Last(s.headers).origin, Last(s.headers).size)
  {
    var h := Last(s.headers);
    assert HeaderOk(h, s.used);
    SlotsDiffer(j - h.origin, |s.used| - 1 - h.origin, h.size);
  }

  lemma WriteBaseHeader(s: State, s': State)
    requires Inv(s) && DoWriteBase(s, s')
    ensures HeaderOk(Last(s'.headers), s'.used)
  {
    hide Slot;
    var h, h' := Last(s.headers), Last(s'.headers);
    assert HeaderOk(h, s.used);
    forall j | h'.lo <= j < h'.hi
      ensures EntryOk(h', s.used, j)
    {
      assert EntryOk(h, s.used, j);
      FreshSlot(s, j);
    }
  }

  lemma WriteBaseKeeps(s: State, s': State)
    requires Inv(s) && DoWriteBase(s, s')
    ensures Inv(s')
  {
    hide Slot;
    WriteBaseHeader(s, s');
    assert HeaderOk(Last(s.headers), s.used);
    hide EntryOk, RangesOk, ThreadsOk, WindowOk;
    SameWindow(s, s');
    SameRanges(s, s');
    ThreadsStay(s, s');
  }

  lemma WriteBlockHeader(s: State, s': State)
    requires Inv(s) && DoWriteBlock(s, s')
    ensures HeaderOk(Last(s'.headers), s'.used)
  {
    hide Slot;
    var h, h' := Last(s.headers), Last(s'.headers);
    assert HeaderOk(h, s.used);
    forall j | h'.lo <= j < h'.hi
      ensures EntryOk(h', s.used, j)
    {
      if j < |s.used| - 1 {
        assert EntryOk(h, s.used, j);
        FreshSlot(s, j);
      } else {
        assert Last(s.list) == s.used[j];
      }
    }
  }

  lemma WriteBlockKeeps(s: State, s': State)
    requires Inv(s) && DoWriteBlock(s, s')
    ensures Inv(s')
  {
    hide Slot;
    WriteBlockHeader(s, s');
    assert HeaderOk(Last(s.headers), s.used);
    hide EntryOk, RangesOk, ThreadsOk, WindowOk;
    SameWindow(s, s');
    SameRanges(s, s');
    ThreadsStay(s, s');
  }

  lemma StoreFrontHeader(s: State, s': State)
    requires Inv(s) && DoStoreFront(s, s')
    ensures HeaderOk(Last(s'.headers), s'.used)
  {
    hide Slot;
    var h, h' := Last(s.headers), Last(s'.headers);
    assert HeaderOk(h, s.used);
    forall j | h'.lo <= j < h'.hi
      ensures EntryOk(h', s.used, j)
    {
      assert EntryOk(h, s.used, j);
    }
  }

  lemma StoreFrontCurrent(s: State, s': State)
    requires Inv(s) && DoStoreFront(s, s')
    ensures CurrentOk(s') && ProducerOk(s')
  {
    var h := Last(s.headers);
    SlotOffset(|s.used| - 1 - h.origin, 1, h.size);
    assert |s.used| - 1 - h.origin + 1 == |s.used| - h.origin;
    hide Slot, EntryOk, RangesOk, ThreadsOk, WindowOk, HeadersOk, ListOk;
  }

  lemma StoreFrontKeeps(s: State, s': State)
    requires Inv(s) && DoStoreFront(s, s')
    ensures Inv(s')
  {
    StoreFrontHeader(s, s');
    StoreFrontCurrent(s, s');
    assert HeaderOk(Last(s.headers), s.used);
    hide Slot, EntryOk, RangesOk, ThreadsOk, WindowOk;
    SameWindow(s, s');
    SameRanges(s, s');
    ThreadsStay(s, s');
  }

  lemma WriteElemRanges(s: State, s': State)
    requires Inv(s) && DoWriteElem(s, s')
    ensures RangesOk(s')
  {
    hide HeadersOk, ThreadsOk, CurrentOk;
    var newest := |s.used| - 1;
    assert Last(s.list) == s.used[newest];
    forall j: nat | Oldest(s') <= j < |s'.used|
      ensures RangeOk(s', j)
    {
      assert RangeOk(s, j);
      if j != newest {
        assert s.list[j - Oldest(s)] != Last(s.list);
      }
    }
  }

  lemma WriteElemKeeps(s: State, s': State)
    requires Inv(s) && DoWriteElem(s, s')
    ensures Inv(s')
  {
    WriteElemRanges(s, s');
    SameWindow(s, s');
    ThreadsStay(s, s');
  }

  lemma StoreTailRange(s: State, s': State, j: nat)
    requires DoStoreTail(s, s') && ProducerOk(s) && s.tail == |s.enqueued|
    requires j < |s.used| && RangeOk(s, j)
    ensures RangeOk(s', j)
  {
    assert s.tail / BLOCK_SIZE == |s.used| - 1;
    forall o | 0 <= o < BLOCK_SIZE && IsOffset(o) && j * BLOCK_SIZE + o < |s'.enqueued| && j * BLOCK_SIZE + o !in s.done
      ensures s'.blocks[s.used[j]].data[o] == s'.enqueued[j * BLOCK_SIZE + o]
    {
      if j * BLOCK_SIZE + o == s.tail {
        assert j == |s.used| - 1 && o == s.tail % BLOCK_SIZE;
      }
    }
  }

  lemma StoreTailRanges(s: State, s': State)
    requires Inv(s) && DoStoreTail(s, s')
    ensures RangesOk(s') && WindowOk(s')
  {
    forall j: nat | Oldest(s') <= j < |s'.used|
      ensures RangeOk(s', j)
    {
      assert RangeOk(s, j);
      StoreTailRange(s, s', j);
    }
    forall x: nat | Waiting(s', x)
      ensures x / BLOCK_SIZE >= Oldest(s')
    {
      assert x < s.tail ==> Waiting(s, x);
    }
  }

  lemma StoreTailKeeps(s: State, s': State)
    requires Inv(s) && DoStoreTail(s, s')
    ensures Inv(s')
  {
    hide Slot;
    StoreTailRanges(s, s');
    ThreadsStay(s, s');
  }

  lemma ProducerStepKeeps(s: State, s': State)
    requires Inv(s) && ProducerStep(s, s')
    ensures Inv(s')
  {
    if {
      case DoStart(s, s') => StartKeeps(s, s');
      case DoNewBlock(s, s') => NewBlockKeeps(s, s');
      case DoNeedIndex(s, s') => NeedIndexKeeps(s, s');
      case exists id :: DoRequisition(s, s', id) =>
        var id: Id :| DoRequisition(s, s', id);
        RequisitionKeeps(s, s', id);
      case DoReset(s, s') => ResetKeeps(s, s');
      case DoWriteBase(s, s') => WriteBaseKeeps(s, s');
      case DoWriteBlock(s, s') => WriteBlockKeeps(s, s');
      case DoStoreFront(s, s') => StoreFrontKeeps(s, s');
      case DoWriteElem(s, s') => WriteElemKeeps(s, s');
      case DoStoreTail(s, s') => StoreTailKeeps(s, s');
    }
  }

  lemma ConsumerStepKeeps(s: State, s': State, t: Thread)
    requires Inv(s) && ConsumerStep(s, s', t)
    ensures Inv(s')
  {
    if {
      case exists count :: Claim(s, s', t, count) =>
        var count: nat :| Claim(s, s', t, count);
        ClaimKeeps(s, s', t, count);
      case DoLoadHeader(s, s', t) => LoadHeaderKeeps(s, s', t);
      case DoLoadFront(s, s', t) => LoadFrontKeeps(s, s', t);
      case DoLoadBase(s, s', t) => LoadBaseKeeps(s, s', t);
      case DoLoadBlock(s, s', t) => LoadBlockKeeps(s, s', t);
      case DoMoveOut(s, s', t) => MoveOutKeeps(s, s', t);
      case DoSetEmpty(s, s', t) => SetEmptyKeeps(s, s', t);
      case DoReturn(s, s', t) => ReturnKeeps(s, s', t);
    }
  }

  lemma StepKeeps(s: State, s': State)
    requires Inv(s) && Step(s, s')
    ensures Inv(s')
  {
    if ProducerStep(s, s') {
      ProducerStepKeeps(s, s');
    } else if t: Thread :| ConsumerStep(s, s', t) {
      ConsumerStepKeeps(s, s', t);
    } else {
      var e, a :| BeginEnqueue(s, s', e, a);
      BeginKeeps(s, s', e, a);
    }
  }

  // ---------------------------------------------------------------- results over whole runs

  ghost predicate IsRun(run: seq<State>) {
    && run != []
    && Init(run[0])
    && forall i | 0 <= i < |run| - 1 :: Step(run[i], run[i + 1])
  }

  lemma InitKeeps(s: State)
    requires Init(s)
    ensures Inv(s)
  {
    SlotOfSmall(0, s.indexSize);
  }

  lemma RunStepKeeps(run: seq<State>, i: nat)
    requires IsRun(run) && 0 < i < |run| && Inv(run[i - 1])
    ensures Inv(run[i])
  {
    StepKeeps(run[i - 1], run[i]);
  }

  lemma {:induction false} RunKeepsInvariant(run: seq<State>, i: nat)
    requires IsRun(run) && i < |run|
    ensures Inv(run[i])
  {
    if i == 0 {
      InitKeeps(run[0]);
    } else {
      RunKeepsInvariant(run, i - 1);
      RunStepKeeps(run, i);
    }
  }

  /** Every consumer finds the blocks that were given to the ranges of its indexes, even if the index was
      doubled or wrapped round while it walked, and takes out exactly the elements that were enqueued
      at these indexes, in their order. */
  lemma ConsumersGetTheirElements(run: seq<State>, i: nat, t: Thread)
    requires IsRun(run) && i < |run| && t < |run[i].pc|
    ensures run[i].pc[t].HasBlock? || run[i].pc[t].Marking? ==>
      && run[i].pc[t].index / BLOCK_SIZE < |run[i].used|
      && run[i].pc[t].block == run[i].used[run[i].pc[t].index / BLOCK_SIZE]
    ensures HasOutput(run[i].pc[t]) ==> Delivers(run[i].pc[t].first, run[i].pc[t].out, run[i].enqueued)
    ensures run[i].pc[t].Returned? ==>
      && run[i].pc[t].first <= run[i].pc[t].stop <= |run[i].enqueued|
      && run[i].pc[t].out == run[i].enqueued[run[i].pc[t].first..run[i].pc[t].stop]
  {
    RunKeepsInvariant(run, i);
    assert ThreadOk(run[i], t);
  }

  /** While a consumer has an index, the block of its range stays with the producer's sub-queue and is given
      to no other range. */
  lemma BlockIsHeldForItsConsumer(run: seq<State>, i: nat, t: Thread, x: nat, j: nat)
    requires IsRun(run) && i < |run| && t < |run[i].pc| && Holds(run[i].pc[t], x)
    requires x / BLOCK_SIZE < j < |run[i].used|
    ensures x / BLOCK_SIZE >= Oldest(run[i])
    ensures run[i].used[j] != run[i].used[x / BLOCK_SIZE]
  {
    RunKeepsInvariant(run, i);
    hide RangesOk, HeadersOk, CurrentOk, ProducerOk, Step, Init;
    var s := run[i];
    assert ThreadOk(s, t);
    assert Waiting(s, x);
    hide ThreadOk, PlaceOk;
    var k := x / BLOCK_SIZE;
    assert s.list[k - Oldest(s)] == s.used[k] && s.list[j - Oldest(s)] == s.used[j];
  }

  /** When the producer takes the block ahead for reuse, all 32 elements of that block's range have
      been moved out and marked, and no consumer has one of them any more. */
  lemma BlocksAreReusedOnlyWhenEmpty(run: seq<State>, i: nat, x: nat, t: Thread)
    requires IsRun(run) && i < |run| - 1 && DoNewBlock(run[i], run[i + 1]) && run[i + 1].p.PReset?
    requires x / BLOCK_SIZE == Oldest(run[i]) && t < |run[i].pc|
    ensures run[i].list != [] && run[i].list[0] == run[i].used[Oldest(run[i])]
    ensures x in run[i].done && !Holds(run[i].pc[t], x)
  {
    RunKeepsInvariant(run, i);
    ReusedBlockIsDone(run[i], x);
    assert ThreadOk(run[i], t);
  }

  /** And it does so whenever they are: the test finds the block ahead empty exactly when all 32 elements of the oldest
      range have been moved out and marked. */
  lemma AheadIsEmptyExactlyWhen(run: seq<State>, i: nat)
    requires IsRun(run) && i < |run| && run[i].p.PNewBlock?
    ensures AheadIsEmpty(run[i]) <==>
      && run[i].list != []
      && forall o: nat | o < BLOCK_SIZE && IsOffset(o) :: Oldest(run[i]) * BLOCK_SIZE + o in run[i].done
  {
    RunKeepsInvariant(run, i);
    if run[i].list != [] {
      EmptyMeansDone(run[i]);
    }
  }

  lemma EmptyMeansDone(s: State)
    requires Inv(s) && s.p.PNewBlock? && s.list != []
    ensures s.list[0] < |s.blocks|
    ensures s.blocks[s.list[0]].flags == AllOffsets() <==>
      forall o: nat | o < BLOCK_SIZE && IsOffset(o) :: Oldest(s) * BLOCK_SIZE + o in s.done
  {
    hide HeadersOk, CurrentOk, ProducerOk, WindowOk, ThreadOk;
    assert s.list[0] == s.used[Oldest(s)];
    assert RangeOk(s, Oldest(s));
    var flags := s.blocks[s.list[0]].flags;
    assert flags <= AllOffsets();
    if forall o: nat | o < BLOCK_SIZE && IsOffset(o) :: Oldest(s) * BLOCK_SIZE + o in s.done {
      forall o | o in AllOffsets()
        ensures o in flags
      {
        assert IsOffset(o);
      }
    }
  }

  /** A larger index is made only when the one in use has no slot left, or there is none. */
  lemma IndexGrowsOnlyWhenFull(run: seq<State>, i: nat)
    requires IsRun(run) && i < |run| - 1 && |run[i + 1].headers| != |run[i].headers|
    ensures |run[i + 1].headers| == |run[i].headers| + 1
    ensures run[i].headers == [] || |run[i].list| == Last(run[i].headers).size
  {
    hide ProducerStep, ConsumerStep, Init;
    var s, s' := run[i], run[i + 1];
    assert Step(s, s');
    if ProducerStep(s, s') {
      ProducerHeaders(s, s');
    } else {
      OtherHeaders(s, s');
    }
  }

  lemma ProducerHeaders(s: State, s': State)
    requires ProducerStep(s, s') && |s'.headers| != |s.headers|
    ensures |s'.headers| == |s.headers| + 1
    ensures s.headers == [] || |s.list| == Last(s.headers).size
  {
    NextProducerAccess(s, s');
    hide ProducerStep, AllOffsets, NewHeader, Slot;
  }

  lemma OtherHeaders(s: State, s': State)
    requires Step(s, s') && !ProducerStep(s, s')
    ensures s'.headers == s.headers
  {
    hide ProducerStep, AllOffsets, LookupSlot, AfterMark, PartEnd;
  }

  /** A consumer can always go on: no lookup ends at a slot or block that is not there. */
  lemma ConsumersAreNeverStuck(run: seq<State>, i: nat, t: Thread) returns (s': State)
    requires IsRun(run) && i < |run| && t < |run[i].pc| && !run[i].pc[t].Idle?
    ensures ConsumerStep(run[i], s', t)
  {
    RunKeepsInvariant(run, i);
    assert ThreadOk(run[i], t);
    s' := NextOf(run[i], t);
  }

  lemma NextOf(s: State, t: Thread) returns (s': State)
    requires Inv(s) && t < |s.pc| && ThreadOk(s, t) && !s.pc[t].Idle?
    ensures ConsumerStep(s, s', t)
  {
    hide Inv, ThreadOk;
    match s.pc[t]
    case Claimed(_, _) => s' := NextOfClaim(s, t);
    case HasHeader(_, _, _) => s' := NextOfClaim(s, t);
    case HasFront(_, _, _, _, _) => s' := NextOfFront(s, t);
    case AtSlot(_, _, _, _, _, _) => s' := NextOfSlot(s, t);
    case HasBlock(_, _, _, _, _, _, _) => s' := NextOfBlock(s, t);
    case Marking(_, _, _, _, _, _, _, _) => s' := NextOfMark(s, t);
    case Returned(_, _, _) =>
      s' := s.(pc := s.pc[t := Idle]);
      assert DoReturn(s, s', t);
  }

  lemma NextOfClaim(s: State, t: Thread) returns (s': State)
    requires Inv(s) && t < |s.pc| && ThreadOk(s, t) && (s.pc[t].Claimed? || s.pc[t].HasHeader?)
    ensures DoLoadHeader(s, s', t) || DoLoadFront(s, s', t)
  {
    var c := s.pc[t];
    if c.Claimed? {
      s' := s.(pc := s.pc[t := HasHeader(c.first, c.stop, |s.headers| - 1)]);
    } else {
      var h := s.headers[c.header];
      assert HeaderOk(h, s.used);
      s' := s.(pc := s.pc[t := HasFront(c.first, c.stop, c.header, h.front, h.shown)]);
    }
  }

  lemma NextOfFront(s: State, t: Thread) returns (s': State)
    requires Inv(s) && t < |s.pc| && ThreadOk(s, t) && s.pc[t].HasFront?
    ensures DoLoadBase(s, s', t)
  {
    var HasFront(first, stop, i, front, exposed) := s.pc[t];
    BaseIsWalked(s, first, stop, i, front, exposed);
    hide LookupSlot;
    var h := s.headers[i];
    s' := s.(pc := s.pc[t := AtSlot(first, stop, i, LookupSlot(first, front, h.entries[front].base, h.size),
        first, [])]);
  }

  lemma NextOfSlot(s: State, t: Thread) returns (s': State)
    requires Inv(s) && t < |s.pc| && s.pc[t].AtSlot?
    ensures DoLoadBlock(s, s', t)
  {
    hide Inv;
    LookupFindsRange(s, t);
    var AtSlot(first, stop, i, slot, index, out) := s.pc[t];
    s' := s.(pc := s.pc[t := HasBlock(first, stop, i, slot, index, out, s.headers[i].entries[slot].block)]);
  }

  lemma NextOfBlock(s: State, t: Thread) returns (s': State)
    requires Inv(s) && t < |s.pc| && s.pc[t].HasBlock?
    ensures DoMoveOut(s, s', t)
  {
    hide Inv, PartEnd;
    MovedOut(s, t);
    var HasBlock(first, stop, i, slot, index, out, id) := s.pc[t];
    var out' := out + [s.blocks[id].data[(first + |out|) % BLOCK_SIZE]];
    s' := s.(pc := s.pc[t :=
      if first + |out'| == PartEnd(index, stop) then Marking(first, stop, i, slot, index, out', id, first + |out'|)
      else HasBlock(first, stop, i, slot, index, out', id)]);
  }

  lemma NextOfMark(s: State, t: Thread) returns (s': State)
    requires Inv(s) && t < |s.pc| && ThreadOk(s, t) && s.pc[t].Marking?
    ensures DoSetEmpty(s, s', t)
  {
    hide Slot;
    var c := s.pc[t];
    MarkedIsWaiting(s, t);
    assert RangeOk(s, c.index / BLOCK_SIZE);
    hide Inv, AfterMark;
    s' := s.(
      blocks := s.blocks[c.block := s.blocks[c.block].(flags := s.blocks[c.block].flags + {(c.left - 1) % BLOCK_SIZE})],
      pc := s.pc[t := AfterMark(c, s.headers[c.header].size)],
      done := s.done + {c.left - 1});
  }

  /** Two consumers never have the same index. */
  lemma ConsumersAreApart(run: seq<State>, i: nat, t: Thread, u: Thread, x: nat)
    requires IsRun(run) && i < |run| && t < |run[i].pc| && u < |run[i].pc|
    requires Holds(run[i].pc[t], x) && Holds(run[i].pc[u], x)
    ensures t == u
  {
    RunKeepsInvariant(run, i);
    assert Apart(run[i], t, u);
  }

  // ---------------------------------------------------------------- calls come to an end

  /** How many accesses of its own a consumer needs at most before its call can return. */
  function StepsLeft(c: Consumer): int {
    match c
    case Idle => 0
    case Claimed(first, stop) => 4 * (stop - first) + 4
    case HasHeader(first, stop, _) => 4 * (stop - first) + 3
    case HasFront(first, stop, _, _, _) => 4 * (stop - first) + 2
    case AtSlot(_, stop, _, _, index, _) => 4 * (stop - index) + 1
    case HasBlock(first, stop, _, _, index, out, _) => 4 * (stop - index) - (first + |out| - index)
    case Marking(first, stop, _, _, index, out, _, left) => 4 * (stop - (first + |out|)) + 1 + left - index
    case Returned(_, _, _) => 1
  }

  /** Main result: whatever the others do, a consumer with a claim of n indexes finishes within 4 * n + 4 of its
      own accesses. */
  lemma ConsumersFinish(run: seq<State>, i: nat, t: Thread)
    requires IsRun(run) && i < |run| - 1 && t < |run[i].pc| && !run[i].pc[t].Idle?
    requires ConsumerStep(run[i], run[i + 1], t)
    ensures t < |run[i + 1].pc| && 0 <= StepsLeft(run[i + 1].pc[t]) < StepsLeft(run[i].pc[t])
  {
    hide Step, Init;
    RunKeepsInvariant(run, i);
    OneStepLess(run[i], run[i + 1], t);
  }

  lemma OneStepLess(s: State, s': State, t: Thread)
    requires Inv(s) && t < |s.pc| && !s.pc[t].Idle? && ConsumerStep(s, s', t)
    ensures t < |s'.pc| && 0 <= StepsLeft(s'.pc[t]) < StepsLeft(s.pc[t])
  {
    assert ThreadOk(s, t);
    hide Inv, LookupSlot, Slot, Walks, Shows;
    if DoMoveOut(s, s', t) || DoSetEmpty(s, s', t) {
      OneWalkStepLess(s, s', t);
    } else {
      hide DoMoveOut, DoSetEmpty, PartEnd;
    }
  }

  lemma OneWalkStepLess(s: State, s': State, t: Thread)
    requires t < |s.pc| && (DoMoveOut(s, s', t) || DoSetEmpty(s, s', t)) && ThreadOk(s, t)
    ensures t < |s'.pc| && 0 <= StepsLeft(s'.pc[t]) < StepsLeft(s.pc[t])
  {
    hide Slot, Walks, Delivers, Waiting;
    var c := s.pc[t];
    assert PlaceOk(s, c) && PartEnd(c.index, c.stop) <= c.stop;
    hide PartEnd;
  }

  /** How many accesses are left to the producer. */
  function ProducerStepsLeft(p: Producer): nat {
    match p
    case PIdle => 0
    case PStart(_, _) => 9
    case PNewBlock(_, _) => 8
    case PNeedIndex(_, _) => 7
    case PRequisition(_, _) => 6
    case PReset(_) => 6
    case PWriteBase(_) => 5
    case PWriteBlock(_) => 4
    case PStoreFront(_) => 3
    case PWriteElem(_) => 2
    case PStoreTail(_) => 1
  }

  /** There is a block to be had, if the environment says so. */
  predicate BlockIsThere(s: State, id: Id) {
    s.p.PRequisition? && s.p.a.block ==> id < |s.blocks| && id !in s.list
  }

  /** Main result: enqueue takes at most nine accesses, and can always take the next one. */
  lemma EnqueueFinishes(run: seq<State>, i: nat, id: Id) returns (s': State)
    requires IsRun(run) && i < |run| && !run[i].p.PIdle? && BlockIsThere(run[i], id)
    ensures ProducerStep(run[i], s')
    ensures i < |run| - 1 && ProducerStep(run[i], run[i + 1]) ==>
      ProducerStepsLeft(run[i + 1].p) < ProducerStepsLeft(run[i].p)
  {
    hide Step, Init;
    RunKeepsInvariant(run, i);
    s' := NextOfProducer(run[i], id);
    if i < |run| - 1 && ProducerStep(run[i], run[i + 1]) {
      OneProducerStepLess(run[i], run[i + 1]);
    }
  }

  lemma NextProducerAccess(s: State, s': State)
    requires ProducerStep(s, s')
    ensures match s.p
            case PIdle => false
            case PStart(_, _) => DoStart(s, s')
            case PNewBlock(_, _) => DoNewBlock(s, s')
            case PNeedIndex(_, _) => DoNeedIndex(s, s')
            case PRequisition(_, _) => exists id :: DoRequisition(s, s', id)
            case PReset(_) => DoReset(s, s')
            case PWriteBase(_) => DoWriteBase(s, s')
            case PWriteBlock(_) => DoWriteBlock(s, s')
            case PStoreFront(_) => DoStoreFront(s, s')
            case PWriteElem(_) => DoWriteElem(s, s')
            case PStoreTail(_) => DoStoreTail(s, s')
  {
  }

  lemma OneProducerStepLess(s: State, s': State)
    requires ProducerStep(s, s')
    ensures ProducerStepsLeft(s'.p) < ProducerStepsLeft(s.p)
  {
    NextProducerAccess(s, s');
    hide ProducerStep, AllOffsets, NewHeader, Slot;
  }

  lemma NextOfProducer(s: State, id: Id) returns (s': State)
    requires Inv(s) && !s.p.PIdle? && BlockIsThere(s, id)
    ensures ProducerStep(s, s')
  {
    match s.p
    case PStart(e, a) =>
      s' := s.(p := if s.tail % BLOCK_SIZE == 0 then PNewBlock(e, a) else PWriteElem(e));
      assert DoStart(s, s');
    case PNewBlock(e, a) =>
      s' := NextOfNewBlock(s);
    case PNeedIndex(e, a) =>
      s' := if !IndexIsFull(s) then s.(p := PRequisition(e, a)) else if !a.index then s.(p := PIdle)
            else s.(headers := s.headers + [NewHeader(s)], indexSize := 2 * s.indexSize, front := |s.list|,
                    p := PRequisition(e, a));
      assert DoNeedIndex(s, s');
    case PRequisition(e, a) =>
      s' := if !a.block then s.(p := PIdle)
            else s.(blocks := s.blocks[id := s.blocks[id].(flags := {})], list := s.list + [id], used := s.used + [id],
                    p := PWriteBase(e));
      assert DoRequisition(s, s', id);
    case _ =>
      s' := NextOfWrite(s);
  }

  lemma NextOfNewBlock(s: State) returns (s': State)
    requires Inv(s) && s.p.PNewBlock?
    ensures DoNewBlock(s, s')
  {
    hide AllOffsets;
    assert s.headers == [] ==> s.list == [];
    if AheadIsEmpty(s) {
      s' := WithLast(s, Last(s.headers).(lo := Last(s.headers).lo + 1)).(
        list := s.list[1..] + [s.list[0]],
        used := s.used + [s.list[0]],
        p := PReset(s.p.e));
    } else {
      s' := s.(p := if s.p.a.mayGrow then PNeedIndex(s.p.e, s.p.a) else PIdle);
    }
  }

  lemma NextOfWrite(s: State) returns (s': State)
    requires Inv(s)
    requires
      || s.p.PReset? || s.p.PWriteBase? || s.p.PWriteBlock?
      || s.p.PStoreFront? || s.p.PWriteElem? || s.p.PStoreTail?
    ensures ProducerStep(s, s')
  {
    var e := s.p.e;
    if s.p.PStoreTail? {
      s' := s.(tail := s.tail + 1, enqueued := s.enqueued + [e], p := PIdle);
      assert DoStoreTail(s, s');
    } else {
      assert RangeOk(s, |s.used| - 1);
      assert s.list != [] && Last(s.list) < |s.blocks| && |s.blocks[Last(s.list)].data| == BLOCK_SIZE;
      var id := Last(s.list);
      if s.p.PReset? {
        s' := s.(blocks := s.blocks[id := s.blocks[id].(flags := {})], p := PWriteBase(e));
        assert DoReset(s, s');
      } else if s.p.PWriteElem? {
        s' := s.(
          blocks := s.blocks[id := s.blocks[id].(data := s.blocks[id].data[s.tail % BLOCK_SIZE := e])],
          p := PStoreTail(e));
        assert DoWriteElem(s, s');
      } else {
        s' := NextOfEntry(s);
      }
    }
  }

  lemma NextOfEntry(s: State) returns (s': State)
    requires Inv(s) && (s.p.PWriteBase? || s.p.PWriteBlock? || s.p.PStoreFront?)
    ensures ProducerStep(s, s')
  {
    hide RangesOk, ThreadsOk, WindowOk;
    var h, e := Last(s.headers), s.p.e;
    assert HeaderOk(s.headers[|s.headers| - 1], s.used);
    assert s.front < |h.entries|;
    hide CurrentOk, HeadersOk, HeaderOk, Inv;
    if s.p.PWriteBase? {
      s' := WithLast(s, h.(entries := h.entries[s.front := h.entries[s.front].(base := s.tail)])).(p := PWriteBlock(e));
      assert DoWriteBase(s, s');
    } else if s.p.PWriteBlock? {
      s' := WithLast(s, h.(
        entries := h.entries[s.front := h.entries[s.front].(block := Last(s.list))],
        hi := |s.used|)).(p := PStoreFront(e));
      assert DoWriteBlock(s, s');
    } else {
      s' := WithLast(s, h.(front := s.front, shown := |s.used|)).(
        front := Slot(s.front + 1, h.size),
        p := PWriteElem(e));
      assert DoStoreFront(s, s');
    }
  }

  // ---------------------------------------------------------------- what an enqueue answers

  ghost predicate InEnqueue(run: seq<State>, b: nat, i: nat)
    requires i < |run|
  {
    forall j | b < j <= i :: !run[j].p.PIdle?
  }

  /** At moment `m` the call looked at the block ahead, and found what it needs there or with the environment. */
  predicate Served(s: State, a: Answers) {
    AheadIsEmpty(s) || (a.mayGrow && a.block && (IndexIsFull(s) ==> a.index))
  }

  predicate LookedAt(run: seq<State>, b: nat, m: nat, i: nat) {
    b < m < i && m < |run| && run[m].p.PNewBlock?
  }

  /** What the program point of the producer says about a call enqueue(e) that began at state `b` and looked at the
      block ahead at state `m`, if it got that far. */
  predicate EnqueueInformed(run: seq<State>, b: nat, m: nat, i: nat, e: Elem, a: Answers)
    requires b < i < |run|
  {
    var s := run[i];
    var boundary := run[b].tail % BLOCK_SIZE == 0;
    && s.enqueued == run[b].enqueued && s.tail == run[b].tail
    && match s.p
       case PIdle => false
       case PStart(x, y) => x == e && y == a
       case PNewBlock(x, y) => x == e && y == a && boundary
       case PNeedIndex(x, y) =>
         && x == e && y == a && boundary && LookedAt(run, b, m, i)
         && !AheadIsEmpty(run[m]) && a.mayGrow && IndexIsFull(s) == IndexIsFull(run[m])
       case PRequisition(x, y) =>
         && x == e && y == a && boundary && LookedAt(run, b, m, i)
         && !AheadIsEmpty(run[m]) && a.mayGrow && (IndexIsFull(run[m]) ==> a.index)
       case _ =>
         s.p.e == e && (boundary ==> LookedAt(run, b, m, i) && Served(run[m], a))
  }

  lemma EnqueueInformedNext(run: seq<State>, b: nat, m: nat, i: nat, e: Elem, a: Answers) returns (m': nat)
    requires b < i < |run| - 1 && EnqueueInformed(run, b, m, i, e, a) && ProducerStep(run[i], run[i + 1])
    ensures !run[i + 1].p.PIdle? ==> EnqueueInformed(run, b, m', i + 1, e, a)
    ensures run[i + 1].p.PIdle? ==> EnqueueAnswer(run, b, m', i, a, run[i + 1].enqueued == run[b].enqueued + [e])
    ensures run[i + 1].p.PIdle? ==> run[i + 1].enqueued in {run[b].enqueued, run[b].enqueued + [e]}
  {
    hide AllOffsets, NewHeader, Slot;
    m' := if run[i].p.PNewBlock? then i else m;
    NextProducerAccess(run[i], run[i + 1]);
    hide ProducerStep;
  }

  /** A call that returned after state `r` appended its element, or not, as the environment and the block ahead
      decided. */
  predicate EnqueueAnswer(run: seq<State>, b: nat, m: nat, r: nat, a: Answers, appended: bool)
    requires b < |run|
  {
    if run[b].tail % BLOCK_SIZE != 0 then appended
    else LookedAt(run, b, m, r + 1) && (appended <==> Served(run[m], a))
  }

  lemma ConsumerLeavesEnqueue(s: State, s': State, t: Thread)
    requires ConsumerStep(s, s', t)
    ensures s' == s.(head := s'.head, blocks := s'.blocks, pc := s'.pc, done := s'.done)
  {
  }

  lemma {:induction false} CallIsInformed(run: seq<State>, b: nat, i: nat, e: Elem, a: Answers) returns (m: nat)
    requires IsRun(run) && b < i < |run| && BeginEnqueue(run[b], run[b + 1], e, a) && InEnqueue(run, b, i)
    ensures EnqueueInformed(run, b, m, i, e, a)
  {
    hide Init, ProducerStep, ConsumerStep;
    if b + 1 == i {
      m := 0;
    } else {
      m := CallIsInformed(run, b, i - 1, e, a);
      var s, s' := run[i - 1], run[i];
      assert Step(s, s');
      if ProducerStep(s, s') {
        m := EnqueueInformedNext(run, b, m, i - 1, e, a);
      } else if t: Thread :| ConsumerStep(s, s', t) {
        ConsumerLeavesEnqueue(s, s', t);
      }
    }
  }

  /**
   * Main result: an enqueue appends its element, and nothing else, or leaves the queue alone. Within a block it
   * always appends; at the end of a block exactly if the block ahead was empty when it looked, or the sub-queue
   * might grow, a block was to be had, and so was a larger index if one was needed.
   */
  lemma EnqueueAppendsWhenServed(run: seq<State>, b: nat, r: nat, e: Elem, a: Answers) returns (m: nat)
    requires IsRun(run) && b < r < |run| - 1 && BeginEnqueue(run[b], run[b + 1], e, a) && InEnqueue(run, b, r)
    requires run[r + 1].p.PIdle?
    ensures run[r + 1].enqueued in {run[b].enqueued, run[b].enqueued + [e]}
    ensures EnqueueAnswer(run, b, m, r, a, run[r + 1].enqueued == run[b].enqueued + [e])
  {
    hide Init, ProducerStep, ConsumerStep;
    m := CallIsInformed(run, b, r, e, a);
    var s, s' := run[r], run[r + 1];
    assert Step(s, s');
    if t: Thread :| ConsumerStep(s, s', t) {
      ConsumerLeavesEnqueue(s, s', t);
    } else {
      hide EnqueueInformed, EnqueueAnswer;
      m := EnqueueInformedNext(run, b, m, r, e, a);
    }
  }
}
