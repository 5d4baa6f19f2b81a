/**
 * ReaderWriterQueue (libs/moodycamel/readerwriterqueue.h): one producer and one consumer over a
 * circular list of circular buffers.
 *
 * One transition is one access to a variable that the other thread may write; accesses to a thread's
 * own variables are folded into the next such step. The threads interleave under sequential
 * consistency. Each block keeps the code's shadow indexes: `localTail` is the consumer's stale copy
 * of `tail`, `localFront` the producer's stale copy of `front`.
 *
 * History, read by no step: `ring`, the blocks in list order from the front block; `span`, the
 * position of the tail block in it; `enqueued` and `dequeued`; and, in the program points that
 * precede a refusal, what the queue held when the decisive index was read. `maxSize` and `minSize`
 * are the constructor's argument and the size of the blocks it made.
 *
 * try_dequeue and peek go the same way until an element is found; `peeking` says which of them runs.
 * After a successful peek the consumer is at CShown, with the pointer it was given, until it calls again.
 */
module SpscQueue {

  type Elem = int
  type Id = nat

  datatype Block = Block(
    size: nat,
    front: nat,
    localTail: nat,
    tail: nat,
    localFront: nat,
    next: Id,
    data: seq<Elem>)

  /** Which call it is: try_enqueue, or enqueue with what make_block would answer, a block or null. */
  datatype Alloc = CannotAlloc | CanAlloc(memory: bool)

  datatype Producer =
    | PIdle
    | PTest(e: Elem, mode: Alloc)
    | PLoadFront(e: Elem, mode: Alloc)
    | PWrite(e: Elem)
    | PStoreTail(e: Elem)
    | PLoadFrontBlock(e: Elem, mode: Alloc, held: nat)
    | PNextLoadFront(e: Elem)
    | PNextWrite(e: Elem)
    | PNextStoreTail(e: Elem)
    | PAlloc(e: Elem, memory: bool)
    | PLink(e: Elem, added: Id)
    | PStoreTailBlock(e: Elem, target: Id)
    | PRefused(held: nat)

  datatype Consumer =
    | CIdle
    | CTest
    | CLoadTail
    | CLoadTailBlock(wasEmpty: bool)
    | CReloadTail
    | CLoadNext
    | CNextLoadTail(target: Id)
    | CStoreFrontBlock(target: Id)
    | CRead
    | CStoreFront(result: Elem)
    | CFoundEmpty(wasEmpty: bool)
    | CShown(block: Id, slot: nat)

  datatype State = State(
    blocks: seq<Block>,
    frontBlock: Id,
    tailBlock: Id,
    largest: nat,
    maxBlock: nat,
    maxSize: nat,
    minSize: nat,
    p: Producer,
    c: Consumer,
    peeking: bool,
    ring: seq<Id>,
    span: nat,
    enqueued: seq<Elem>,
    dequeued: seq<Elem>)

  // ---------------------------------------------------------------- one circular buffer

  /** `(x + 1) & sizeMask`, for a size that is a power of two (see module PowersOfTwo). */
  function Advance(x: nat, size: nat): nat {
    if x + 1 == size then 0 else x + 1
  }

  function Abs(x: int): nat {
    if x < 0 then -x else x
  }

  /** How far it is from one index round to another. */
  function Distance(from: nat, to: nat, size: nat): int {
    if from <= to then to - from else to + size - from
  }

  function Slot(b: Block, i: nat): nat {
    if b.front + i < b.size then b.front + i else b.front + i - b.size
  }

  function Count(b: Block): int {
    Distance(b.front, b.tail, b.size)
  }

  /** The indexes are in range and the shadows are stale in the safe direction. */
  predicate BlockOk(b: Block) {
    && b.size >= 2 && |b.data| == b.size
    && b.front < b.size && b.tail < b.size && b.localTail < b.size && b.localFront < b.size
    && Distance(b.front, b.localTail, b.size) <= Count(b)
    && Count(b) <= Distance(b.localFront, b.tail, b.size)
  }

  predicate Full(b: Block) {
    Count(b) == b.size - 1
  }

  /** The producer's own, stale view leaves a free slot. */
  predicate HasRoom(b: Block) {
    Distance(b.localFront, b.tail, b.size) < b.size - 1
  }

  function Items(b: Block): (r: seq<Elem>)
    requires BlockOk(b)
  {
    seq(Count(b), i requires 0 <= i < Count(b) => b.data[Slot(b, i)])
  }

  // ---------------------------------------------------------------- transitions

  /** The initial list: `n` empty blocks of `size` slots, front and tail on the first (constructor). */
  ghost predicate Init(s: State, n: nat, size: nat) {
    && n > 0
    && s.blocks == seq(n, i requires 0 <= i < n => EmptyBlock(size, if i + 1 == n then 0 else i + 1))
    && s.frontBlock == s.tailBlock == 0
    && s.largest == s.minSize == size
    && s.p == PIdle && s.c == CIdle
    && s.ring == seq(n, i requires 0 <= i < n => i) && s.span == 0
    && s.enqueued == s.dequeued == []
  }

  function EmptyBlock(size: nat, next: Id): Block {
    Block(size, 0, 0, 0, 0, next, seq(size, _ => 0))
  }

  function WithBlock(s: State, id: Id, b: Block): State
    requires id < |s.blocks|
  {
    s.(blocks := s.blocks[id := b])
  }

  ghost predicate BeginEnqueue(s: State, s': State, e: Elem, mode: Alloc) {
    s.p == PIdle && s' == s.(p := PTest(e, mode))
  }

  ghost predicate DoPTest(s: State, s': State) {
    && s.p.PTest? && s.tailBlock < |s.blocks|
    && var b := s.blocks[s.tailBlock];
    && s' == s.(p :=
      if Advance(b.tail, b.size) != b.localFront then PWrite(s.p.e) else PLoadFront(s.p.e, s.p.mode))
  }

  ghost predicate DoPLoadFront(s: State, s': State) {
    && s.p.PLoadFront? && s.tailBlock < |s.blocks|
    && var b := s.blocks[s.tailBlock];
    && s' == WithBlock(s, s.tailBlock, b.(localFront := b.front)).(p :=
      if Advance(b.tail, b.size) != b.front then PWrite(s.p.e)
      else PLoadFrontBlock(s.p.e, s.p.mode, Abs(|s.enqueued| - |s.dequeued|)))
  }

  ghost predicate DoPWrite(s: State, s': State) {
    && s.p.PWrite? && s.tailBlock < |s.blocks|
    && var b := s.blocks[s.tailBlock];
    && b.tail < |b.data|
    && s' == WithBlock(s, s.tailBlock, b.(data := b.data[b.tail := s.p.e])).(p := PStoreTail(s.p.e))
  }

  ghost predicate DoPStoreTail(s: State, s': State) {
    && s.p.PStoreTail? && s.tailBlock < |s.blocks|
    && var b := s.blocks[s.tailBlock];
    && s' == WithBlock(s, s.tailBlock, b.(tail := Advance(b.tail, b.size))).(
      p := PIdle,
      enqueued := s.enqueued + [s.p.e])
  }

  ghost predicate DoPLoadFrontBlock(s: State, s': State) {
    && s.p.PLoadFrontBlock? && s.tailBlock < |s.blocks|
    && var b := s.blocks[s.tailBlock];
    && s' == s.(p :=
      if b.next != s.frontBlock then PNextLoadFront(s.p.e)
      else if s.p.mode.CanAlloc? then PAlloc(s.p.e, s.p.mode.memory)
      else PRefused(s.p.held))
  }

  ghost predicate DoPNextLoadFront(s: State, s': State) {
    && s.p.PNextLoadFront? && s.tailBlock < |s.blocks|
    && var next := s.blocks[s.tailBlock].next;
    && next < |s.blocks|
    && var b := s.blocks[next];
    && s' == WithBlock(s, next, b.(localFront := b.front)).(p := PNextWrite(s.p.e))
  }

  ghost predicate DoPNextWrite(s: State, s': State) {
    && s.p.PNextWrite? && s.tailBlock < |s.blocks|
    && var next := s.blocks[s.tailBlock].next;
    && next < |s.blocks|
    && var b := s.blocks[next];
    && b.tail < |b.data|
    && s' == WithBlock(s, next, b.(data := b.data[b.tail := s.p.e])).(p := PNextStoreTail(s.p.e))
  }

  ghost predicate DoPNextStoreTail(s: State, s': State) {
    && s.p.PNextStoreTail? && s.tailBlock < |s.blocks|
    && var next := s.blocks[s.tailBlock].next;
    && next < |s.blocks|
    && var b := s.blocks[next];
    && s' == WithBlock(s, next, b.(tail := Advance(b.tail, b.size))).(p := PStoreTailBlock(s.p.e, next))
  }

  /** Unless make_block fails, a new block is filled and pointed at the tail block's successor first. */
  ghost predicate DoPAlloc(s: State, s': State) {
    && s.p.PAlloc? && s.tailBlock < |s.blocks|
    && var size := if s.largest >= s.maxBlock then s.largest else s.largest * 2;
    && if !s.p.memory then
         s' == s.(p := PIdle)
       else
         && size > 0
         && var b := EmptyBlock(size, s.blocks[s.tailBlock].next);
         s' == s.(
           blocks := s.blocks + [b.(tail := 1, localTail := 1, data := b.data[0 := s.p.e])],
           largest := size,
           p := PLink(s.p.e, |s.blocks|))
  }

  ghost predicate DoPLink(s: State, s': State) {
    && s.p.PLink? && s.tailBlock < |s.blocks| && s.span < |s.ring|
    && var b := s.blocks[s.tailBlock];
    && s' == WithBlock(s, s.tailBlock, b.(next := s.p.added)).(
      ring := s.ring[..s.span + 1] + [s.p.added] + s.ring[s.span + 1..],
      p := PStoreTailBlock(s.p.e, s.p.added))
  }

  ghost predicate DoPStoreTailBlock(s: State, s': State) {
    && s.p.PStoreTailBlock?
    && s' == s.(
      tailBlock := s.p.target,
      span := s.span + 1,
      enqueued := s.enqueued + [s.p.e],
      p := PIdle)
  }

  ghost predicate DoPRefused(s: State, s': State) {
    s.p.PRefused? && s' == s.(p := PIdle)
  }

  predicate BetweenCalls(c: Consumer) {
    c == CIdle || c.CShown?
  }

  ghost predicate BeginDequeue(s: State, s': State) {
    BetweenCalls(s.c) && s' == s.(c := CTest, peeking := false)
  }

  ghost predicate BeginPeek(s: State, s': State) {
    BetweenCalls(s.c) && s' == s.(c := CTest, peeking := true)
  }

  ghost predicate DoCTest(s: State, s': State) {
    && s.c == CTest && s.frontBlock < |s.blocks|
    && var b := s.blocks[s.frontBlock];
    && s' == s.(c := if b.front != b.localTail then CRead else CLoadTail)
  }

  ghost predicate DoCLoadTail(s: State, s': State) {
    && s.c == CLoadTail && s.frontBlock < |s.blocks|
    && var b := s.blocks[s.frontBlock];
    && s' == WithBlock(s, s.frontBlock, b.(localTail := b.tail)).(c :=
      if b.front != b.tail then CRead else CLoadTailBlock(s.enqueued == s.dequeued))
  }

  ghost predicate DoCLoadTailBlock(s: State, s': State) {
    && s.c.CLoadTailBlock?
    && s' == s.(c := if s.frontBlock != s.tailBlock then CReloadTail else CFoundEmpty(s.c.wasEmpty))
  }

  ghost predicate DoCReloadTail(s: State, s': State) {
    && s.c == CReloadTail && s.frontBlock < |s.blocks|
    && var b := s.blocks[s.frontBlock];
    && s' == WithBlock(s, s.frontBlock, b.(localTail := b.tail)).(c :=
      if b.front != b.tail then CRead else CLoadNext)
  }

  ghost predicate DoCLoadNext(s: State, s': State) {
    && s.c == CLoadNext && s.frontBlock < |s.blocks|
    && s' == s.(c := CNextLoadTail(s.blocks[s.frontBlock].next))
  }

  ghost predicate DoCNextLoadTail(s: State, s': State) {
    && s.c.CNextLoadTail? && !s.peeking && s.c.target < |s.blocks|
    && var b := s.blocks[s.c.target];
    && s' == WithBlock(s, s.c.target, b.(localTail := b.tail)).(c := CStoreFrontBlock(s.c.target))
  }

  ghost predicate DoCStoreFrontBlock(s: State, s': State) {
    && s.c.CStoreFrontBlock? && s.ring != [] && s.span > 0
    && s' == s.(
      frontBlock := s.c.target,
      ring := s.ring[1..] + [s.ring[0]],
      span := s.span - 1,
      c := CRead)
  }

  ghost predicate DoCRead(s: State, s': State) {
    && s.c == CRead && !s.peeking && s.frontBlock < |s.blocks|
    && var b := s.blocks[s.frontBlock];
    && b.front < |b.data|
    && s' == s.(c := CStoreFront(b.data[b.front]))
  }

  ghost predicate DoCStoreFront(s: State, s': State) {
    && s.c.CStoreFront? && s.frontBlock < |s.blocks|
    && var b := s.blocks[s.frontBlock];
    && s' == WithBlock(s, s.frontBlock, b.(front := Advance(b.front, b.size))).(
      c := CIdle,
      dequeued := s.dequeued + [s.c.result])
  }

  ghost predicate DoCShow(s: State, s': State) {
    && s.c == CRead && s.peeking && s.frontBlock < |s.blocks|
    && s' == s.(c := CShown(s.frontBlock, s.blocks[s.frontBlock].front))
  }

  /** peek looks into the next block, but neither moves there nor refreshes its shadow index. */
  ghost predicate DoCShowNext(s: State, s': State) {
    && s.c.CNextLoadTail? && s.peeking && s.c.target < |s.blocks|
    && s' == s.(c := CShown(s.c.target, s.blocks[s.c.target].front))
  }

  ghost predicate DoCFoundEmpty(s: State, s': State) {
    s.c.CFoundEmpty? && s' == s.(c := CIdle)
  }

  // ---------------------------------------------------------------- the invariant

  function At(s: State, i: nat): Block
    requires i < |s.ring| && s.ring[i] < |s.blocks|
  {
    s.blocks[s.ring[i]]
  }

  function NextPosition(s: State, i: nat): nat {
    if i + 1 == |s.ring| then 0 else i + 1
  }

  /** The producer has filled the block after the tail block and is about to publish it. */
  predicate Pending(s: State, i: nat) {
    s.p.PStoreTailBlock? && i == s.span + 1
  }

  predicate PositionOk(s: State, i: nat)
    requires i < |s.ring|
  {
    && s.ring[i] < |s.blocks|
    && s.blocks[s.ring[i]].next == s.ring[NextPosition(s, i)]
    && (0 < i < s.span ==> Full(At(s, i)))
    && (i == s.span && i > 0 ==> Count(At(s, i)) > 0)
    && (i > s.span ==> Count(At(s, i)) == if Pending(s, i) then 1 else 0)
  }

  /** The elements of the given blocks, one block after another. */
  function Concat(blocks: seq<Block>, ids: seq<Id>): seq<Elem>
    requires forall i | 0 <= i < |ids| :: ids[i] < |blocks| && BlockOk(blocks[ids[i]])
  {
    if ids == [] then [] else Items(blocks[ids[0]]) + Concat(blocks, ids[1..])
  }

  predicate Shape(s: State) {
    && |s.ring| > s.span
    && (forall i | 0 <= i < |s.blocks| :: BlockOk(s.blocks[i]))
    && (forall i | 0 <= i < |s.ring| :: s.ring[i] < |s.blocks|)
    && (forall i, j | 0 <= i < j < |s.ring| :: s.ring[i] != s.ring[j])
    && s.ring[0] == s.frontBlock && s.ring[s.span] == s.tailBlock
  }

  function Contents(s: State): seq<Elem>
    requires Shape(s)
  {
    Concat(s.blocks, s.ring[..s.span + 1])
  }

  predicate FullOrFront(s: State)
    requires Shape(s)
  {
    s.span == 0 || Full(At(s, s.span))
  }

  predicate ProducerOk(s: State)
    requires Shape(s)
  {
    match s.p
    case PWrite(e) => HasRoom(At(s, s.span))
    case PStoreTail(e) => HasRoom(At(s, s.span)) && At(s, s.span).data[At(s, s.span).tail] == e
    case PLoadFrontBlock(e, _, held) =>
      FullOrFront(s) && (s.span + 1 == |s.ring| ==> held >= s.maxSize)
    case PNextLoadFront(e) => FullOrFront(s) && s.span + 1 < |s.ring|
    case PNextWrite(e) =>
      && FullOrFront(s) && s.span + 1 < |s.ring|
      && At(s, s.span + 1).localFront == At(s, s.span + 1).front
    case PNextStoreTail(e) =>
      && FullOrFront(s) && s.span + 1 < |s.ring|
      && At(s, s.span + 1).localFront == At(s, s.span + 1).front
      && At(s, s.span + 1).data[At(s, s.span + 1).tail] == e
    case PAlloc(_, _) => FullOrFront(s)
    case PLink(e, added) =>
      && FullOrFront(s)
      && added < |s.blocks| && added !in s.ring
      && Items(s.blocks[added]) == [e]
      && s.blocks[added].next == s.ring[NextPosition(s, s.span)]
    case PStoreTailBlock(e, target) =>
      && FullOrFront(s) && s.span + 1 < |s.ring|
      && s.ring[s.span + 1] == target
      && Items(At(s, s.span + 1)) == [e]
    case PRefused(held) => held >= s.maxSize
    case _ => true
  }

  predicate ConsumerOk(s: State)
    requires Shape(s)
  {
    var b := At(s, 0);
    match s.c
    case CLoadTailBlock(wasEmpty) => s.span == 0 ==> wasEmpty
    case CReloadTail => s.span > 0
    case CLoadNext => s.span > 0 && Count(b) == 0
    case CNextLoadTail(target) => s.span > 0 && Count(b) == 0 && target == s.ring[1]
    case CStoreFrontBlock(target) =>
      && s.span > 0 && Count(b) == 0 && target == s.ring[1]
      && At(s, 1).localTail != At(s, 1).front
    case CRead => b.localTail != b.front
    case CStoreFront(result) => b.localTail != b.front && result == b.data[b.front]
    case CFoundEmpty(wasEmpty) => wasEmpty
    case CShown(block, slot) =>
      || (block == s.frontBlock && slot == b.front && b.localTail != b.front)
      || (s.span > 0 && Count(b) == 0 && block == s.ring[1] && slot == At(s, 1).front)
    case _ => true
  }

  ghost predicate AllPositionsOk(s: State) {
    forall i | 0 <= i < |s.ring| :: PositionOk(s, i)
  }

  ghost predicate Inv(s: State) {
    && Shape(s)
    && AllPositionsOk(s)
    && ProducerOk(s)
    && ConsumerOk(s)
    && s.enqueued == s.dequeued + Contents(s)
    && CapacityOk(s)
  }

  /** Without the front block, the blocks in the list can hold maxSize elements. (A lone block can.) */
  predicate CapacityOk(s: State) {
    && s.minSize >= 2
    && s.largest >= s.minSize
    && (forall i | 0 <= i < |s.blocks| :: s.blocks[i].size >= s.minSize)
    && (if |s.ring| == 1 then s.minSize - 1 else (|s.ring| - 1) * (s.minSize - 1)) >= s.maxSize
  }

  // ---------------------------------------------------------------- circular buffers

  lemma WriteBeyondItems(b: Block, e: Elem)
    requires BlockOk(b) && !Full(b)
    ensures BlockOk(b.(data := b.data[b.tail := e]))
    ensures Items(b.(data := b.data[b.tail := e])) == Items(b)
  {
  }

  lemma PublishTail(b: Block)
    requires BlockOk(b) && HasRoom(b)
    ensures BlockOk(b.(tail := Advance(b.tail, b.size)))
    ensures Items(b.(tail := Advance(b.tail, b.size))) == Items(b) + [b.data[b.tail]]
  {
  }

  lemma ConsumeFront(b: Block)
    requires BlockOk(b) && b.front != b.localTail
    ensures Count(b) > 0 && Items(b)[0] == b.data[b.front]
    ensures BlockOk(b.(front := Advance(b.front, b.size)))
    ensures Items(b.(front := Advance(b.front, b.size))) == Items(b)[1..]
  {
  }

  // ---------------------------------------------------------------- the blocks in a row

  predicate Valid(blocks: seq<Block>, ids: seq<Id>) {
    forall i | 0 <= i < |ids| :: ids[i] < |blocks| && BlockOk(blocks[ids[i]])
  }

  lemma {:induction false} ConcatSame(a: seq<Block>, b: seq<Block>, ids: seq<Id>)
    requires Valid(a, ids) && Valid(b, ids)
    requires forall i | 0 <= i < |ids| :: Items(a[ids[i]]) == Items(b[ids[i]])
    ensures Concat(a, ids) == Concat(b, ids)
  {
    if ids != [] {
      ConcatSame(a, b, ids[1..]);
    }
  }

  lemma {:induction false} ConcatSplit(blocks: seq<Block>, left: seq<Id>, right: seq<Id>)
    requires Valid(blocks, left) && Valid(blocks, right)
    ensures Concat(blocks, left + right) == Concat(blocks, left) + Concat(blocks, right)
  {
    if left == [] {
      assert left + right == right;
    } else {
      assert (left + right)[1..] == left[1..] + right;
      ConcatSplit(blocks, left[1..], right);
    }
  }

  lemma ConcatLast(blocks: seq<Block>, ids: seq<Id>)
    requires Valid(blocks, ids) && ids != []
    ensures Concat(blocks, ids) == Concat(blocks, ids[..|ids| - 1]) + Items(blocks[ids[|ids| - 1]])
  {
    var last := ids[|ids| - 1..];
    assert ids == ids[..|ids| - 1] + last;
    ConcatSplit(blocks, ids[..|ids| - 1], last);
    assert last[1..] == [];
    assert Concat(blocks, last) == Items(blocks[last[0]]) + Concat(blocks, last[1..]);
  }

  lemma {:induction false} ConcatAtLeast(blocks: seq<Block>, ids: seq<Id>, least: nat)
    requires Valid(blocks, ids)
    requires forall i | 0 <= i < |ids| :: Count(blocks[ids[i]]) >= least
    ensures |Concat(blocks, ids)| >= |ids| * least
  {
    if ids != [] {
      ConcatAtLeast(blocks, ids[1..], least);
      MultiplyStep(|ids|, least);
      assert |Items(blocks[ids[0]])| >= least;
    }
  }

  lemma MultiplyStep(n: int, k: int)
    ensures n * k == k + (n - 1) * k
  {
  }

  // ---------------------------------------------------------------- every step keeps the invariant

  predicate SameList(s: State, s': State) {
    && s'.ring == s.ring && s'.span == s.span
    && s'.frontBlock == s.frontBlock && s'.tailBlock == s.tailBlock
    && s'.minSize == s.minSize && s'.maxSize == s.maxSize && s'.largest == s.largest
    && (s'.p.PStoreTailBlock? <==> s.p.PStoreTailBlock?)
  }

  /** A block of the list is updated without changing what it holds. */
  lemma SameItems(s: State, s': State, i: nat, b: Block)
    requires Shape(s) && AllPositionsOk(s) && CapacityOk(s) && SameList(s, s')
    requires i < |s.ring| && s'.blocks == s.blocks[s.ring[i] := b]
    requires BlockOk(b) && b.next == At(s, i).next && b.size == At(s, i).size && Items(b) == Items(At(s, i))
    ensures Shape(s') && AllPositionsOk(s') && CapacityOk(s') && Contents(s') == Contents(s)
    ensures forall j | 0 <= j < |s.ring| :: At(s', j) == if j == i then b else At(s, j)
  {
    assert |Items(b)| == Count(b) && |Items(At(s, i))| == Count(At(s, i));
    forall j | 0 <= j < |s'.ring|
      ensures PositionOk(s', j)
    {
      assert PositionOk(s, j);
    }
    SameConcat(s, s', i, b);
  }

  lemma SameConcat(s: State, s': State, i: nat, b: Block)
    requires Shape(s) && Shape(s') && SameList(s, s')
    requires i < |s.ring| && s'.blocks == s.blocks[s.ring[i] := b]
    requires BlockOk(b) && Items(b) == Items(At(s, i))
    ensures Contents(s') == Contents(s)
  {
    ConcatSame(s.blocks, s'.blocks, s.ring[..s.span + 1]);
  }

  lemma SameBlocks(s: State, s': State)
    requires Shape(s) && AllPositionsOk(s) && CapacityOk(s) && SameList(s, s') && s'.blocks == s.blocks
    ensures Shape(s') && AllPositionsOk(s') && CapacityOk(s') && Contents(s') == Contents(s)
  {
    forall j | 0 <= j < |s'.ring|
      ensures PositionOk(s', j)
    {
      assert PositionOk(s, j);
    }
  }

  /** What a step may change that only moves a thread on. */
  predicate SameButCalls(s: State, s': State) {
    s' == s.(p := s'.p, c := s'.c, peeking := s'.peeking)
  }

  lemma SameProducer(s: State, s': State)
    requires Shape(s) && Shape(s') && SameButCalls(s, s') && s'.p == s.p && ProducerOk(s)
    ensures ProducerOk(s')
  {
  }

  lemma SameConsumer(s: State, s': State)
    requires Shape(s) && Shape(s') && SameButCalls(s, s') && s'.c == s.c && ConsumerOk(s)
    ensures ConsumerOk(s')
  {
  }

  /** The consumer moves on by itself. */
  lemma ConsumerMoves(s: State, s': State)
    requires Inv(s) && SameButCalls(s, s') && s'.p == s.p && (Shape(s') ==> ConsumerOk(s'))
    ensures Inv(s')
  {
    hide AllPositionsOk, CapacityOk, Contents, ProducerOk, ConsumerOk, BlockOk;
    SameBlocks(s, s');
    SameProducer(s, s');
  }

  lemma ProducerMoves(s: State, s': State)
    requires Inv(s) && SameButCalls(s, s') && s'.c == s.c && (s'.p.PStoreTailBlock? <==> s.p.PStoreTailBlock?)
    requires Shape(s') ==> ProducerOk(s')
    ensures Inv(s')
  {
    hide AllPositionsOk, CapacityOk, Contents, ProducerOk, ConsumerOk, BlockOk;
    SameBlocks(s, s');
    SameConsumer(s, s');
  }

  lemma BeginsKeep(s: State, s': State, e: Elem, mode: Alloc)
    requires Inv(s)
    requires BeginEnqueue(s, s', e, mode) || BeginDequeue(s, s') || BeginPeek(s, s')
          || DoPRefused(s, s') || DoCFoundEmpty(s, s')
    ensures Inv(s')
  {
    hide Inv, Shape;
    if BeginEnqueue(s, s', e, mode) || DoPRefused(s, s') {
      ProducerMoves(s, s');
    } else {
      ConsumerMoves(s, s');
    }
  }

  lemma PTestKeeps(s: State, s': State)
    requires Inv(s) && DoPTest(s, s')
    ensures Inv(s')
  {
    hide AllPositionsOk, CapacityOk, Contents, ConsumerOk;
    ProducerMoves(s, s');
  }

  lemma PLoadFrontBlockKeeps(s: State, s': State)
    requires Inv(s) && DoPLoadFrontBlock(s, s')
    ensures Inv(s')
  {
    assert PositionOk(s, s.span);
    hide AllPositionsOk, CapacityOk, Contents, ConsumerOk, BlockOk;
    ProducerMoves(s, s');
  }

  /** If the tail block is full when its front index is read, and the front block is next in the
      circle, the queue holds at least maxSize elements. */
  lemma FullListHoldsMaxSize(s: State)
    requires Inv(s) && Full(At(s, s.span)) && s.span + 1 == |s.ring|
    ensures |Contents(s)| >= s.maxSize
  {
    var ids := s.ring[..s.span + 1];
    if s.span == 0 {
      LoneBlockContents(s);
    } else {
      assert Concat(s.blocks, ids) == Items(s.blocks[ids[0]]) + Concat(s.blocks, ids[1..]);
      forall i | 0 <= i < |ids[1..]|
        ensures Count(s.blocks[ids[1..][i]]) >= s.minSize - 1
      {
        assert PositionOk(s, i + 1);
      }
      ConcatAtLeast(s.blocks, ids[1..], s.minSize - 1);
    }
  }

  lemma PLoadFrontKeeps(s: State, s': State)
    requires Inv(s) && DoPLoadFront(s, s')
    ensures Inv(s')
  {
    var b := s.blocks[s.tailBlock];
    SameItems(s, s', s.span, b.(localFront := b.front));
    if Advance(b.tail, b.size) == b.front && s.span + 1 == |s.ring| {
      FullListHoldsMaxSize(s);
    }
  }

  lemma PWriteKeeps(s: State, s': State)
    requires Inv(s) && DoPWrite(s, s')
    ensures Inv(s')
  {
    var b := s.blocks[s.tailBlock];
    WriteBeyondItems(b, s.p.e);
    SameItems(s, s', s.span, b.(data := b.data[b.tail := s.p.e]));
  }

  lemma PNextLoadFrontKeeps(s: State, s': State)
    requires Inv(s) && DoPNextLoadFront(s, s')
    ensures Inv(s')
  {
    assert PositionOk(s, s.span) && PositionOk(s, s.span + 1);
    var b := At(s, s.span + 1);
    SameItems(s, s', s.span + 1, b.(localFront := b.front));
  }

  lemma PNextWriteKeeps(s: State, s': State)
    requires Inv(s) && DoPNextWrite(s, s')
    ensures Inv(s')
  {
    assert PositionOk(s, s.span) && PositionOk(s, s.span + 1);
    var b := At(s, s.span + 1);
    WriteBeyondItems(b, s.p.e);
    SameItems(s, s', s.span + 1, b.(data := b.data[b.tail := s.p.e]));
  }

  /** Only the consumer's stale copy of a tail changed, which the producer never looks at. */
  predicate OnlyLocalTail(b: Block, b': Block) {
    b' == b.(localTail := b'.localTail)
  }

  lemma SameItemsSeen(b: Block, b': Block)
    requires BlockOk(b) && BlockOk(b') && OnlyLocalTail(b, b')
    ensures Items(b') == Items(b) && Count(b') == Count(b)
  {
  }

  lemma ProducerUnaware(s: State, s': State)
    requires Shape(s) && Shape(s') && SameList(s, s') && s'.p == s.p && ProducerOk(s)
    requires |s'.blocks| == |s.blocks|
    requires forall id | 0 <= id < |s.blocks| :: OnlyLocalTail(s.blocks[id], s'.blocks[id])
    ensures ProducerOk(s')
  {
    assert OnlyLocalTail(At(s, s.span), At(s', s.span));
    SameItemsSeen(At(s, s.span), At(s', s.span));
    if s.span + 1 < |s.ring| {
      assert OnlyLocalTail(At(s, s.span + 1), At(s', s.span + 1));
      SameItemsSeen(At(s, s.span + 1), At(s', s.span + 1));
    }
    if s.p.PLink? {
      assert OnlyLocalTail(s.blocks[s.p.added], s'.blocks[s.p.added]);
      SameItemsSeen(s.blocks[s.p.added], s'.blocks[s.p.added]);
    }
    hide Items, BlockOk, Count;
  }

  lemma CTestKeeps(s: State, s': State)
    requires Inv(s) && (DoCTest(s, s') || DoCLoadTailBlock(s, s'))
    ensures Inv(s')
  {
    hide AllPositionsOk, CapacityOk, Contents, ProducerOk, BlockOk;
    ConsumerMoves(s, s');
  }

  lemma CReadKeeps(s: State, s': State)
    requires Inv(s) && (DoCRead(s, s') || DoCShow(s, s') || DoCShowNext(s, s'))
    ensures Inv(s')
  {
    hide AllPositionsOk, CapacityOk, Contents, ProducerOk, BlockOk;
    ConsumerMoves(s, s');
  }

  lemma CLoadNextKeeps(s: State, s': State)
    requires Inv(s) && DoCLoadNext(s, s')
    ensures Inv(s')
  {
    assert PositionOk(s, 0);
    hide AllPositionsOk, CapacityOk, Contents, ProducerOk, BlockOk;
    ConsumerMoves(s, s');
  }

  lemma LoneBlockContents(s: State)
    requires Shape(s) && s.span == 0
    ensures Contents(s) == Items(At(s, 0))
  {
    var ids := s.ring[..s.span + 1];
    assert ids[1..] == [];
    assert Concat(s.blocks, ids) == Items(s.blocks[ids[0]]) + Concat(s.blocks, ids[1..]);
  }

  lemma CLoadTailKeeps(s: State, s': State)
    requires Inv(s) && DoCLoadTail(s, s')
    ensures Inv(s')
  {
    var b := s.blocks[s.frontBlock];
    SameItems(s, s', 0, b.(localTail := b.tail));
    ProducerUnaware(s, s');
    if s.span == 0 {
      LoneBlockContents(s);
    }
    hide ProducerOk, AllPositionsOk, CapacityOk, Contents;
  }

  lemma CReloadTailKeeps(s: State, s': State)
    requires Inv(s) && DoCReloadTail(s, s')
    ensures Inv(s')
  {
    var b := s.blocks[s.frontBlock];
    SameItems(s, s', 0, b.(localTail := b.tail));
    ProducerUnaware(s, s');
    hide ProducerOk, AllPositionsOk, CapacityOk, Contents;
  }

  lemma CNextLoadTailKeeps(s: State, s': State)
    requires Inv(s) && DoCNextLoadTail(s, s')
    ensures Inv(s')
  {
    var b := At(s, 1);
    assert PositionOk(s, 1);
    SameItems(s, s', 1, b.(localTail := b.tail));
    ProducerUnaware(s, s');
    hide ProducerOk, AllPositionsOk, CapacityOk, Contents;
  }

  lemma ContentsLast(s: State)
    requires Shape(s)
    ensures Valid(s.blocks, s.ring[..s.span])
    ensures Contents(s) == Concat(s.blocks, s.ring[..s.span]) + Items(At(s, s.span))
  {
    var ids := s.ring[..s.span + 1];
    ConcatLast(s.blocks, ids);
    assert ids[..|ids| - 1] == s.ring[..s.span];
  }

  lemma ContentsFirst(s: State)
    requires Shape(s)
    ensures Valid(s.blocks, s.ring[1..s.span + 1])
    ensures Contents(s) == Items(At(s, 0)) + Concat(s.blocks, s.ring[1..s.span + 1])
  {
    var ids := s.ring[..s.span + 1];
    assert ids[1..] == s.ring[1..s.span + 1];
    assert Concat(s.blocks, ids) == Items(s.blocks[ids[0]]) + Concat(s.blocks, ids[1..]);
  }

  /** The updated block is not among the given ones. */
  lemma ConcatElsewhere(blocks: seq<Block>, ids: seq<Id>, id: Id, b: Block)
    requires Valid(blocks, ids) && id < |blocks| && id !in ids
    ensures Valid(blocks[id := b], ids)
    ensures Concat(blocks[id := b], ids) == Concat(blocks, ids)
  {
    assert forall i | 0 <= i < |ids| :: blocks[id := b][ids[i]] == blocks[ids[i]];
    ConcatSame(blocks, blocks[id := b], ids);
  }

  /** One block of the list is updated in a way that may change what it holds. */
  lemma BlockChanges(s: State, s': State, i: nat, b: Block)
    requires Shape(s) && AllPositionsOk(s) && CapacityOk(s)
    requires s'.ring == s.ring && s'.span == s.span && s'.frontBlock == s.frontBlock && s'.tailBlock == s.tailBlock
    requires s'.minSize == s.minSize && s'.maxSize == s.maxSize && s'.largest == s.largest
    requires i < |s.ring| && s'.blocks == s.blocks[s.ring[i] := b]
    requires BlockOk(b) && b.next == At(s, i).next && b.size == At(s, i).size
    ensures Shape(s') && CapacityOk(s')
    ensures forall j | 0 <= j < |s.ring| :: At(s', j) == if j == i then b else At(s, j)
  {
  }

  lemma PStoreTailContents(s: State, s': State)
    requires Inv(s) && DoPStoreTail(s, s') && Shape(s')
    ensures Contents(s') == Contents(s) + [s.p.e]
  {
    var b := At(s, s.span);
    PublishTail(b);
    ContentsLast(s);
    ContentsLast(s');
    ConcatElsewhere(s.blocks, s.ring[..s.span], s.tailBlock, At(s', s.span));
  }

  lemma PStoreTailKeeps(s: State, s': State)
    requires Inv(s) && DoPStoreTail(s, s')
    ensures Inv(s')
  {
    var b := At(s, s.span);
    PublishTail(b);
    BlockChanges(s, s', s.span, b.(tail := Advance(b.tail, b.size)));
    PStoreTailContents(s, s');
    forall j | 0 <= j < |s'.ring|
      ensures PositionOk(s', j)
    {
      assert PositionOk(s, j);
    }
  }

  lemma PNextStoreTailShape(s: State, s': State, b: Block)
    requires Inv(s) && DoPNextStoreTail(s, s')
    requires s.span + 1 < |s.ring|
      && b == At(s, s.span + 1).(tail := Advance(At(s, s.span + 1).tail, At(s, s.span + 1).size))
    ensures BlockOk(b) && Items(b) == [s.p.e]
    ensures Shape(s') && CapacityOk(s') && Contents(s') == Contents(s)
    ensures forall j | 0 <= j < |s.ring| :: At(s', j) == if j == s.span + 1 then b else At(s, j)
  {
    assert PositionOk(s, s.span) && PositionOk(s, s.span + 1);
    PublishTail(At(s, s.span + 1));
    BlockChanges(s, s', s.span + 1, b);
    ConcatElsewhere(s.blocks, s.ring[..s.span + 1], s.ring[s.span + 1], b);
  }

  lemma PNextStoreTailKeeps(s: State, s': State)
    requires Inv(s) && DoPNextStoreTail(s, s')
    ensures Inv(s')
  {
    hide Shape, BlockOk;
    assert PositionOk(s, s.span) && PositionOk(s, s.span + 1);
    var b := At(s, s.span + 1);
    var b' := b.(tail := Advance(b.tail, b.size));
    PNextStoreTailShape(s, s', b');
    assert |Items(b')| == Count(b');
    hide Items, Concat, Contents;
    forall j | 0 <= j < |s'.ring|
      ensures PositionOk(s', j)
    {
      assert PositionOk(s, j);
    }
  }

  lemma FilledBlockOk(size: nat, next: Id, e: Elem)
    requires size >= 2
    ensures var b := EmptyBlock(size, next);
            BlockOk(b.(tail := 1, localTail := 1, data := b.data[0 := e]))
  {
  }

  lemma PAllocShape(s: State, s': State)
    requires Inv(s) && DoPAlloc(s, s') && s'.p.PLink?
    ensures Shape(s') && CapacityOk(s') && Contents(s') == Contents(s)
    ensures forall j | 0 <= j < |s.ring| :: At(s', j) == At(s, j)
  {
    FilledBlockOk(s'.largest, s.blocks[s.tailBlock].next, s.p.e);
    hide BlockOk, Items, Concat;
    assert forall j | 0 <= j < |s.blocks| :: s'.blocks[j] == s.blocks[j];
    ConcatSame(s.blocks, s'.blocks, s.ring[..s.span + 1]);
  }

  lemma PAllocProducer(s: State, s': State)
    requires Inv(s) && DoPAlloc(s, s') && s'.p.PLink? && Shape(s')
    ensures ProducerOk(s')
  {
    assert PositionOk(s, s.span);
    hide AllPositionsOk, CapacityOk, Contents, ConsumerOk;
    FilledBlockOk(s'.largest, s.blocks[s.tailBlock].next, s.p.e);
  }

  lemma PAllocPositions(s: State, s': State)
    requires Inv(s) && DoPAlloc(s, s') && s'.p.PLink? && Shape(s')
    ensures AllPositionsOk(s') && ConsumerOk(s')
  {
    hide CapacityOk, Contents, ProducerOk, BlockOk;
    forall j | 0 <= j < |s'.ring|
      ensures PositionOk(s', j)
    {
      assert PositionOk(s, j);
    }
  }

  lemma PAllocKeeps(s: State, s': State)
    requires Inv(s) && DoPAlloc(s, s')
    ensures Inv(s')
  {
    if s'.p == PIdle {
      SameBlocks(s, s');
    } else {
      PAllocShape(s, s');
      PAllocProducer(s, s');
      PAllocPositions(s, s');
    }
    hide AllPositionsOk, CapacityOk, Contents, BlockOk, ConsumerOk, Shape;
  }

  /** Where a list position came from when a block was inserted after position `span`. */
  function BeforeInsert(s: State, j: nat): int {
    if j <= s.span then j else j - 1
  }

  lemma PLinkRing(s: State, s': State)
    requires Shape(s) && ProducerOk(s) && DoPLink(s, s')
    ensures |s'.ring| == |s.ring| + 1 && s'.ring[s.span + 1] == s.p.added
    ensures forall j | 0 <= j < |s'.ring| && j != s.span + 1 :: s'.ring[j] == s.ring[BeforeInsert(s, j)]
    ensures s'.ring[..s.span + 1] == s.ring[..s.span + 1]
    ensures forall i, j | 0 <= i < j < |s'.ring| :: s'.ring[i] != s'.ring[j]
  {
    assert s.p.added !in s.ring && s'.ring == s.ring[..s.span + 1] + [s.p.added] + s.ring[s.span + 1..];
    assert s.span < |s.ring| && forall i, j | 0 <= i < j < |s.ring| :: s.ring[i] != s.ring[j];
    hide Shape, ProducerOk, DoPLink;
    RingInserted(s.ring, s.span + 1, s.p.added);
  }

  lemma RingInserted(ring: seq<Id>, at: nat, id: Id)
    requires at <= |ring| && id !in ring && forall i, j | 0 <= i < j < |ring| :: ring[i] != ring[j]
    ensures var ring' := ring[..at] + [id] + ring[at..];
      && |ring'| == |ring| + 1 && ring'[at] == id && ring'[..at] == ring[..at]
      && (forall j | 0 <= j < |ring'| && j != at :: ring'[j] == if j < at then ring[j] else ring[j - 1])
      && forall i, j | 0 <= i < j < |ring'| :: ring'[i] != ring'[j]
  {
  }

  lemma PLinkShape(s: State, s': State)
    requires Inv(s) && DoPLink(s, s')
    ensures Shape(s') && CapacityOk(s')
  {
    PLinkRing(s, s');
    forall j | 0 <= j < |s'.ring|
      ensures s'.ring[j] < |s'.blocks|
    {
      assert j != s.span + 1 ==> s'.ring[j] == s.ring[BeforeInsert(s, j)];
    }
    MultiplyStep(|s'.ring| - 1, s.minSize - 1);
  }

  /** The linked block is not the tail block, and the blocks up to that keep what they hold. */
  lemma PLinkContents(s: State, s': State)
    requires Inv(s) && DoPLink(s, s') && Shape(s')
    ensures Contents(s') == Contents(s)
  {
    var b := At(s, s.span);
    SameItemsLinked(b, s.p.added);
    var ids := s.ring[..s.span + 1];
    assert s'.ring[..s'.span + 1] == ids;
    hide Items, BlockOk, Concat, ProducerOk, ConsumerOk, AllPositionsOk, CapacityOk, Count;
    LinkedBlocks(s.blocks, ids, s.tailBlock, b.(next := s.p.added));
  }

  lemma LinkedBlocks(blocks: seq<Block>, ids: seq<Id>, id: Id, b: Block)
    requires Valid(blocks, ids) && id < |blocks| && BlockOk(b) && BlockOk(blocks[id]) && Items(b) == Items(blocks[id])
    ensures Valid(blocks[id := b], ids) && Concat(blocks[id := b], ids) == Concat(blocks, ids)
  {
    hide Items, BlockOk;
    ConcatSame(blocks, blocks[id := b], ids);
  }

  lemma SameItemsLinked(b: Block, next: Id)
    requires BlockOk(b)
    ensures Items(b.(next := next)) == Items(b)
  {
  }

  /** Away from the insertion the list is as it was, shifted by one after it. */
  lemma PLinkElsewhere(s: State, s': State, j: nat)
    requires Shape(s) && AllPositionsOk(s) && ProducerOk(s) && DoPLink(s, s') && Shape(s')
    requires j < |s'.ring| && j != s.span && j != s.span + 1
    ensures PositionOk(s', j)
  {
    PLinkRing(s, s');
    var i := BeforeInsert(s, j);
    assert PositionOk(s, i);
    assert s'.ring[j] == s.ring[i] && s.ring[i] != s.tailBlock;
    assert s'.blocks[s'.ring[j]] == s.blocks[s.ring[i]];
    var k := NextPosition(s', j);
    assert k != s.span + 1;
    assert s'.ring[k] == s.ring[BeforeInsert(s, k)];
    assert BeforeInsert(s, k) == NextPosition(s, i);
  }

  lemma PLinkPositions(s: State, s': State, j: nat)
    requires Shape(s) && AllPositionsOk(s) && ProducerOk(s) && DoPLink(s, s') && Shape(s') && j < |s'.ring|
    ensures PositionOk(s', j)
  {
    PLinkRing(s, s');
    if j == s.span + 1 {
      assert |Items(s.blocks[s.p.added])| == 1;
      var k := NextPosition(s', j);
      assert s'.ring[k] == s.ring[BeforeInsert(s, k)];
    } else if j == s.span {
      assert PositionOk(s, j);
    } else {
      PLinkElsewhere(s, s', j);
    }
  }

  lemma PLinkThreads(s: State, s': State)
    requires Inv(s) && DoPLink(s, s') && Shape(s')
    ensures ProducerOk(s') && ConsumerOk(s')
  {
    PLinkRing(s, s');
    assert s'.ring[0] == s.ring[BeforeInsert(s, 0)];
    assert s.span > 0 ==> s'.ring[1] == s.ring[BeforeInsert(s, 1)];
    assert s'.ring[s.span] == s.ring[BeforeInsert(s, s.span)];
    hide AllPositionsOk, CapacityOk, Contents, BlockOk;
  }

  lemma PLinkKeeps(s: State, s': State)
    requires Inv(s) && DoPLink(s, s')
    ensures Inv(s')
  {
    PLinkRing(s, s');
    PLinkShape(s, s');
    PLinkContents(s, s');
    PLinkThreads(s, s');
    hide ProducerOk, ConsumerOk, CapacityOk, Contents, BlockOk;
    forall j | 0 <= j < |s'.ring|
      ensures PositionOk(s', j)
    {
      PLinkPositions(s, s', j);
    }
  }

  lemma PStoreTailBlockPositions(s: State, s': State)
    requires Inv(s) && DoPStoreTailBlock(s, s')
    ensures Shape(s') && AllPositionsOk(s') && ConsumerOk(s')
  {
    hide CapacityOk, Contents, BlockOk;
    assert |Items(At(s, s.span + 1))| == 1;
    hide Items;
    forall j | 0 <= j < |s'.ring|
      ensures PositionOk(s', j)
    {
      assert PositionOk(s, j);
    }
  }

  lemma PStoreTailBlockKeeps(s: State, s': State)
    requires Inv(s) && DoPStoreTailBlock(s, s')
    ensures Inv(s')
  {
    PStoreTailBlockPositions(s, s');
    hide AllPositionsOk, ConsumerOk, Items, BlockOk, Concat;
    ContentsLast(s');
  }

  lemma CStoreFrontBlockShape(s: State, s': State)
    requires Inv(s) && DoCStoreFrontBlock(s, s')
    ensures |s'.ring| == |s.ring| && s'.ring[|s.ring| - 1] == s.ring[0]
    ensures forall j | 0 <= j < |s.ring| - 1 :: s'.ring[j] == s.ring[j + 1]
    ensures Shape(s') && CapacityOk(s') && Contents(s') == Contents(s)
  {
    ContentsFirst(s);
    assert s'.ring[..s'.span + 1] == s.ring[1..s.span + 1];
  }

  lemma CStoreFrontBlockPositions(s: State, s': State)
    requires Inv(s) && DoCStoreFrontBlock(s, s') && Shape(s')
    requires |s'.ring| == |s.ring| && s'.ring[|s.ring| - 1] == s.ring[0]
    requires forall j | 0 <= j < |s.ring| - 1 :: s'.ring[j] == s.ring[j + 1]
    ensures AllPositionsOk(s')
  {
    hide CapacityOk, Contents, BlockOk, Items;
    forall j | 0 <= j < |s'.ring|
      ensures PositionOk(s', j)
    {
      assert PositionOk(s, if j + 1 == |s.ring| then 0 else j + 1);
    }
  }

  lemma CStoreFrontBlockKeeps(s: State, s': State)
    requires Inv(s) && DoCStoreFrontBlock(s, s')
    ensures Inv(s')
  {
    CStoreFrontBlockShape(s, s');
    CStoreFrontBlockPositions(s, s');
    hide AllPositionsOk, CapacityOk, Contents, BlockOk;
  }

  /** The first element leaves the front block. */
  lemma FrontLeaves(s: State, s': State)
    requires Shape(s) && ConsumerOk(s) && DoCStoreFront(s, s') && Shape(s')
    ensures Items(At(s, 0)) == [s.c.result] + Items(At(s', 0))
  {
    ConsumeFront(At(s, 0));
  }

  lemma RestStays(s: State, s': State)
    requires Shape(s) && DoCStoreFront(s, s') && Shape(s')
    ensures Valid(s.blocks, s.ring[1..s.span + 1]) && Valid(s'.blocks, s.ring[1..s.span + 1])
    ensures Concat(s'.blocks, s.ring[1..s.span + 1]) == Concat(s.blocks, s.ring[1..s.span + 1])
  {
    hide BlockOk, Items, Concat;
    ConcatElsewhere(s.blocks, s.ring[1..s.span + 1], s.frontBlock, At(s', 0));
  }

  lemma CStoreFrontContents(s: State, s': State)
    requires Shape(s) && ConsumerOk(s) && DoCStoreFront(s, s') && Shape(s')
    ensures [s.c.result] + Contents(s') == Contents(s)
  {
    FrontLeaves(s, s');
    RestStays(s, s');
    ContentsFirst(s);
    ContentsFirst(s');
    Regroup(s.c.result, Items(At(s', 0)), Concat(s.blocks, s.ring[1..s.span + 1]));
    hide Items, Concat, Contents, BlockOk, ConsumerOk, Shape;
  }

  lemma Regroup(e: Elem, a: seq<Elem>, b: seq<Elem>)
    ensures [e] + (a + b) == [e] + a + b
  {
  }

  lemma CStoreFrontPositions(s: State, s': State)
    requires Inv(s) && DoCStoreFront(s, s')
    ensures Shape(s') && CapacityOk(s') && AllPositionsOk(s')
    ensures forall j | 1 <= j < |s.ring| :: At(s', j) == At(s, j)
    ensures At(s', 0).localFront == At(s, 0).localFront && At(s', 0).tail == At(s, 0).tail
    ensures At(s', 0).data == At(s, 0).data && At(s', 0).size == At(s, 0).size
  {
    var b := At(s, 0);
    ConsumeFront(b);
    BlockChanges(s, s', 0, b.(front := Advance(b.front, b.size)));
    forall j | 0 <= j < |s'.ring|
      ensures PositionOk(s', j)
    {
      assert PositionOk(s, j);
    }
  }

  lemma CStoreFrontKeeps(s: State, s': State)
    requires Inv(s) && DoCStoreFront(s, s')
    ensures Inv(s')
  {
    CStoreFrontPositions(s, s');
    CStoreFrontContents(s, s');
  }

  ghost predicate ProducerStep(s: State, s': State) {
    || DoPTest(s, s')
    || DoPLoadFront(s, s')
    || DoPWrite(s, s')
    || DoPStoreTail(s, s')
    || DoPLoadFrontBlock(s, s')
    || DoPNextLoadFront(s, s')
    || DoPNextWrite(s, s')
    || DoPNextStoreTail(s, s')
    || DoPAlloc(s, s')
    || DoPLink(s, s')
    || DoPStoreTailBlock(s, s')
    || DoPRefused(s, s')
  }

  ghost predicate ConsumerStep(s: State, s': State) {
    || DoCTest(s, s')
    || DoCLoadTail(s, s')
    || DoCLoadTailBlock(s, s')
    || DoCReloadTail(s, s')
    || DoCLoadNext(s, s')
    || DoCNextLoadTail(s, s')
    || DoCStoreFrontBlock(s, s')
    || DoCRead(s, s')
    || DoCShow(s, s')
    || DoCShowNext(s, s')
    || DoCStoreFront(s, s')
    || DoCFoundEmpty(s, s')
  }

  ghost predicate Step(s: State, s': State) {
    || (exists e, mode :: BeginEnqueue(s, s', e, mode))
    || BeginDequeue(s, s')
    || BeginPeek(s, s')
    || ProducerStep(s, s')
    || ConsumerStep(s, s')
  }

  lemma ProducerStepKeeps(s: State, s': State)
    requires Inv(s) && ProducerStep(s, s')
    ensures Inv(s')
  {
    if {
      case DoPTest(s, s') => PTestKeeps(s, s');
      case DoPLoadFront(s, s') => PLoadFrontKeeps(s, s');
      case DoPWrite(s, s') => PWriteKeeps(s, s');
      case DoPStoreTail(s, s') => PStoreTailKeeps(s, s');
      case DoPLoadFrontBlock(s, s') => PLoadFrontBlockKeeps(s, s');
      case DoPNextLoadFront(s, s') => PNextLoadFrontKeeps(s, s');
      case DoPNextWrite(s, s') => PNextWriteKeeps(s, s');
      case DoPNextStoreTail(s, s') => PNextStoreTailKeeps(s, s');
      case DoPAlloc(s, s') => PAllocKeeps(s, s');
      case DoPLink(s, s') => PLinkKeeps(s, s');
      case DoPStoreTailBlock(s, s') => PStoreTailBlockKeeps(s, s');
      case DoPRefused(s, s') => BeginsKeep(s, s', 0, CannotAlloc);
    }
  }

  lemma ConsumerStepKeeps(s: State, s': State)
    requires Inv(s) && ConsumerStep(s, s')
    ensures Inv(s')
  {
    if {
      case DoCTest(s, s') || DoCLoadTailBlock(s, s') => CTestKeeps(s, s');
      case DoCLoadTail(s, s') => CLoadTailKeeps(s, s');
      case DoCReloadTail(s, s') => CReloadTailKeeps(s, s');
      case DoCLoadNext(s, s') => CLoadNextKeeps(s, s');
      case DoCNextLoadTail(s, s') => CNextLoadTailKeeps(s, s');
      case DoCStoreFrontBlock(s, s') => CStoreFrontBlockKeeps(s, s');
      case DoCRead(s, s') || DoCShow(s, s') || DoCShowNext(s, s') => CReadKeeps(s, s');
      case DoCStoreFront(s, s') => CStoreFrontKeeps(s, s');
      case DoCFoundEmpty(s, s') => BeginsKeep(s, s', 0, CannotAlloc);
    }
  }

  lemma StepKeeps(s: State, s': State)
    requires Inv(s) && Step(s, s')
    ensures Inv(s')
  {
    if ProducerStep(s, s') {
      ProducerStepKeeps(s, s');
    } else if ConsumerStep(s, s') {
      ConsumerStepKeeps(s, s');
    } else if e, mode :| BeginEnqueue(s, s', e, mode) {
      BeginsKeep(s, s', e, mode);
    } else {
      BeginsKeep(s, s', 0, CannotAlloc);
    }
  }

  // ---------------------------------------------------------------- the constructor

  /** The least of p, 2p, 4p, ... that is at least x. */
  function DoubleUntil(p: nat, x: nat): (r: nat)
    requires p > 0
    ensures r >= x && r >= p
    decreases x - p
  {
    if p >= x then p else DoubleUntil(2 * p, x)
  }

  /** How many blocks of what size the constructor makes for `maxSize` elements. */
  function Layout(maxSize: nat, maxBlock: nat): (nat, nat)
    requires maxSize > 0 && maxBlock >= 2
  {
    var size := DoubleUntil(1, maxSize + 1);
    if size > maxBlock * 2 then ((maxSize + maxBlock * 2 - 3) / (maxBlock - 1), maxBlock) else (1, size)
  }

  lemma LayoutSuffices(maxSize: nat, maxBlock: nat)
    requires maxSize > 0 && maxBlock >= 2
    ensures var (n, size) := Layout(maxSize, maxBlock);
      && n > 0 && size >= 2
      && (if n == 1 then size - 1 else (n - 1) * (size - 1)) >= maxSize
  {
    var size := DoubleUntil(1, maxSize + 1);
    if size > maxBlock * 2 {
      var d := maxBlock - 1;
      var x := maxSize + 2 * d - 1;
      assert maxSize + maxBlock * 2 - 3 == x;
      var n := x / d;
      assert x == n * d + x % d && x % d < d;
      MultiplyStep(n, d);
    }
  }

  lemma {:induction false} DoubleUntilIsLeast(p: nat, x: nat)
    requires p > 0
    ensures DoubleUntil(p, x) == p || DoubleUntil(p, x) < 2 * x
    decreases if p >= x then 0 else x - p
  {
    if p < x {
      DoubleUntilIsLeast(2 * p, x);
    }
  }

  /** And no less would do: with one block fewer the elements would not fit, one block is the only one exactly when
      it is at most twice the limit, and its size doubled from half of what is needed. */
  lemma LayoutIsLeast(maxSize: nat, maxBlock: nat)
    requires maxSize > 0 && maxBlock >= 2
    ensures var (n, size) := Layout(maxSize, maxBlock);
      && size <= 2 * maxBlock
      && (n == 1 ==> size / 2 - 1 < maxSize)
      && (n > 1 ==> size == maxBlock && (n - 2) * (size - 1) < maxSize && maxSize >= maxBlock)
  {
    var size := DoubleUntil(1, maxSize + 1);
    DoubleUntilIsLeast(1, maxSize + 1);
    if size > maxBlock * 2 {
      var d := maxBlock - 1;
      var x := maxSize + 2 * d - 1;
      assert maxSize + maxBlock * 2 - 3 == x;
      var n := x / d;
      assert n * d <= x;
      assert (n - 2) * d == n * d - 2 * d;
    }
  }

  lemma InitKeeps(s: State, n: nat, size: nat)
    requires Init(s, n, size) && size >= 2
    requires (if n == 1 then size - 1 else (n - 1) * (size - 1)) >= s.maxSize
    ensures Inv(s)
  {
    assert forall i | 0 <= i < n :: s.blocks[i] == EmptyBlock(size, NextPosition(s, i));
    LoneBlockContents(s);
  }

  // ---------------------------------------------------------------- results over whole runs

  ghost predicate IsRun(run: seq<State>) {
    && run != []
    && run[0].maxSize > 0 && run[0].maxBlock >= 2
    && Init(run[0], Layout(run[0].maxSize, run[0].maxBlock).0, Layout(run[0].maxSize, run[0].maxBlock).1)
    && forall i | 0 <= i < |run| - 1 :: Step(run[i], run[i + 1])
  }

  lemma {:induction false} RunKeepsInvariant(run: seq<State>, i: nat)
    requires IsRun(run) && i < |run|
    ensures Inv(run[i])
  {
    if i == 0 {
      var (n, size) := Layout(run[0].maxSize, run[0].maxBlock);
      LayoutSuffices(run[0].maxSize, run[0].maxBlock);
      InitKeeps(run[0], n, size);
    } else {
      RunKeepsInvariant(run, i - 1);
      StepKeeps(run[i - 1], run[i]);
    }
  }

  /** First in, first out: what has come out is a prefix of what went in, and the rest is exactly what
      the blocks from the front block to the tail block hold. */
  lemma QueueIsFifo(run: seq<State>, i: nat)
    requires IsRun(run) && i < |run|
    ensures run[i].dequeued <= run[i].enqueued
    ensures Shape(run[i]) && Contents(run[i]) == run[i].enqueued[|run[i].dequeued|..]
  {
    RunKeepsInvariant(run, i);
  }

  /** The asserts about the next block: the consumer finds an element in the block it advances to or peeks at,
      the producer finds the block it advances to empty. */
  lemma NextBlockAssertsHold(run: seq<State>, i: nat)
    requires IsRun(run) && i < |run|
    ensures run[i].c.CNextLoadTail? ==>
      && run[i].c.target < |run[i].blocks|
      && run[i].blocks[run[i].c.target].front != run[i].blocks[run[i].c.target].tail
    ensures run[i].p.PNextLoadFront? ==>
      && run[i].tailBlock < |run[i].blocks|
      && var next := run[i].blocks[run[i].tailBlock].next;
      && next < |run[i].blocks|
      && run[i].blocks[next].front == run[i].blocks[next].tail
  {
    RunKeepsInvariant(run, i);
    var s := run[i];
    if s.c.CNextLoadTail? {
      assert PositionOk(s, 1);
    }
    if s.p.PNextLoadFront? {
      assert PositionOk(s, s.span) && PositionOk(s, s.span + 1);
    }
  }

  /** The first block with an element is the front block, or the one after it when that one is empty. */
  lemma FirstElement(s: State)
    requires Inv(s)
    ensures Count(At(s, 0)) > 0 ==> Contents(s) != [] && Contents(s)[0] == At(s, 0).data[At(s, 0).front]
    ensures Count(At(s, 0)) == 0 && s.span > 0 ==>
      Contents(s) != [] && Contents(s)[0] == At(s, 1).data[At(s, 1).front]
  {
    ContentsFirst(s);
    if Count(At(s, 0)) > 0 {
      assert Items(At(s, 0))[0] == At(s, 0).data[At(s, 0).front];
    } else if s.span > 0 {
      assert PositionOk(s, 1);
      var ids := s.ring[1..s.span + 1];
      assert Concat(s.blocks, ids) == Items(s.blocks[ids[0]]) + Concat(s.blocks, ids[1..]);
      assert Items(At(s, 0)) == [];
      assert Items(At(s, 1))[0] == At(s, 1).data[At(s, 1).front];
    }
  }

  /** From the moment peek returns a pointer until the consumer calls again, whatever the producer does,
      the pointer shows the element that comes out next. */
  lemma PeekShowsNext(run: seq<State>, i: nat)
    requires IsRun(run) && i < |run| && run[i].c.CShown?
    ensures var s := run[i];
      && |s.dequeued| < |s.enqueued|
      && s.c.block < |s.blocks| && s.c.slot < |s.blocks[s.c.block].data|
      && s.blocks[s.c.block].data[s.c.slot] == s.enqueued[|s.dequeued|]
  {
    RunKeepsInvariant(run, i);
    FirstElement(run[i]);
  }

  lemma ProducerOnlyAdds(s: State, s': State)
    requires ProducerStep(s, s')
    ensures s.enqueued <= s'.enqueued
  {
  }

  lemma ConsumerAddsNothing(s: State, s': State)
    requires ConsumerStep(s, s')
    ensures s'.enqueued == s.enqueued
  {
  }

  lemma {:induction false} EnqueuedGrows(run: seq<State>, i: nat, j: nat)
    requires IsRun(run) && i <= j < |run|
    ensures run[i].enqueued <= run[j].enqueued
  {
    hide ProducerStep, ConsumerStep, Init;
    if i < j {
      EnqueuedGrows(run, i, j - 1);
      var s, s' := run[j - 1], run[j];
      assert Step(s, s');
      if ProducerStep(s, s') {
        ProducerOnlyAdds(s, s');
      } else if ConsumerStep(s, s') {
        ConsumerAddsNothing(s, s');
      }
    }
  }

  /** The element that peek showed is the one that the next try_dequeue returns. */
  lemma PeekedIsDequeuedNext(run: seq<State>, i: nat, j: nat)
    requires IsRun(run) && i <= j < |run|
    requires run[i].c.CShown? && run[j].c.CStoreFront? && run[j].dequeued == run[i].dequeued
    ensures run[i].c.block < |run[i].blocks| && run[i].c.slot < |run[i].blocks[run[i].c.block].data|
    ensures run[i].blocks[run[i].c.block].data[run[i].c.slot] == run[j].c.result
  {
    PeekShowsNext(run, i);
    RunKeepsInvariant(run, j);
    FirstElement(run[j]);
    EnqueuedGrows(run, i, j);
  }

  /** try_dequeue and peek fail only if the queue was empty when they read the tail of the front block;
      try_enqueue refuses only if the queue held maxSize elements when it read the front of the tail
      block. */
  lemma RefusalsAreJustified(run: seq<State>, i: nat)
    requires IsRun(run) && i < |run|
    ensures run[i].c.CFoundEmpty? ==> run[i].c.wasEmpty
    ensures run[i].p.PRefused? ==> run[i].p.held >= run[i].maxSize
  {
    RunKeepsInvariant(run, i);
  }

  // ---------------------------------------------------------------- the sizes of new blocks

  predicate SameSizes(s: State, s': State) {
    && |s'.blocks| == |s.blocks| && s'.largest == s.largest
    && forall k :: 0 <= k < |s.blocks| ==> s'.blocks[k].size == s.blocks[k].size
  }

  lemma ProducerSizes(s: State, s': State)
    requires ProducerStep(s, s') && !DoPAlloc(s, s')
    ensures SameSizes(s, s') && s'.maxBlock == s.maxBlock
  {
    NextProducerAccess(s, s');
    hide ProducerStep, DoPAlloc, Advance, Abs;
  }

  lemma ConsumerSizes(s: State, s': State)
    requires ConsumerStep(s, s')
    ensures SameSizes(s, s') && s'.maxBlock == s.maxBlock
  {
    NextConsumerAccess(s, s');
    hide ConsumerStep, Advance;
  }

  /** `size`, doubled `j` times. */
  function Doubled(size: nat, j: nat): nat {
    if j == 0 then size else 2 * Doubled(size, j - 1)
  }

  /** The size of the `j`-th block that enqueue makes: twice the one before until the limit is reached. */
  function NewSize(size: nat, maxBlock: nat, j: nat): nat
    requires j > 0
  {
    if j == 1 then if size < maxBlock then 2 * size else size
    else
      var last := NewSize(size, maxBlock, j - 1);
      if last < maxBlock then 2 * last else last
  }

  /** Each block from the `n`-th on has its size, and `largest` is that of the last one. */
  predicate SizesOk(s: State, n: nat, size: nat) {
    && 0 < n <= |s.blocks|
    && (forall k :: 0 <= k < n ==> s.blocks[k].size == size)
    && (forall k :: n <= k < |s.blocks| ==> s.blocks[k].size == NewSize(size, s.maxBlock, k - n + 1))
    && s.largest == if |s.blocks| == n then size else NewSize(size, s.maxBlock, |s.blocks| - n)
  }

  lemma AllocSizes(s: State, s': State, n: nat, size: nat)
    requires SizesOk(s, n, size) && DoPAlloc(s, s')
    ensures SizesOk(s', n, size) && s'.maxBlock == s.maxBlock
  {
  }

  lemma {:induction false} RunKeepsSizes(run: seq<State>, i: nat)
    requires IsRun(run) && i < |run|
    ensures var (n, size) := Layout(run[0].maxSize, run[0].maxBlock);
            SizesOk(run[i], n, size) && run[i].maxBlock == run[0].maxBlock
  {
    hide ProducerStep, ConsumerStep, DoPAlloc, Layout, SizesOk, Init;
    var (n, size) := Layout(run[0].maxSize, run[0].maxBlock);
    if i > 0 {
      RunKeepsSizes(run, i - 1);
      var s, s' := run[i - 1], run[i];
      assert Step(s, s');
      if DoPAlloc(s, s') {
        AllocSizes(s, s', n, size);
      } else {
        if ProducerStep(s, s') {
          ProducerSizes(s, s');
        } else if ConsumerStep(s, s') {
          ConsumerSizes(s, s');
        }
        SameSizesOk(s, s', n, size);
      }
    } else {
      FirstSizes(run[0], n, size);
    }
  }

  lemma FirstSizes(s: State, n: nat, size: nat)
    requires Init(s, n, size)
    ensures SizesOk(s, n, size)
  {
    assert forall k :: 0 <= k < n ==> s.blocks[k] == EmptyBlock(size, if k + 1 == n then 0 else k + 1);
  }

  lemma SameSizesOk(s: State, s': State, n: nat, size: nat)
    requires SizesOk(s, n, size) && SameSizes(s, s') && s'.maxBlock == s.maxBlock
    ensures SizesOk(s', n, size)
  {
    hide NewSize;
  }

  lemma {:induction false} NewSizeIs(size: nat, maxBlock: nat, j: nat)
    requires j > 0 && size > 0
    ensures Doubled(size, j - 1) < maxBlock ==> NewSize(size, maxBlock, j) == Doubled(size, j)
    ensures Doubled(size, j - 1) >= maxBlock ==>
              NewSize(size, maxBlock, j) >= maxBlock
              && (NewSize(size, maxBlock, j) == size || NewSize(size, maxBlock, j) < 2 * maxBlock)
    ensures Doubled(size, j - 1) < Doubled(size, j)
    decreases j
  {
    if j > 1 {
      NewSizeIs(size, maxBlock, j - 1);
    } else {
      assert Doubled(size, 1) == 2 * Doubled(size, 0);
    }
  }

  /** The j-th block that enqueue makes is 2^j times as large as the first ones, while the block before is below the
      limit; from then on no block is smaller than the limit, and none reaches twice the limit, unless the first ones
      did. */
  lemma NewBlocksDouble(run: seq<State>, i: nat, j: nat)
    requires IsRun(run) && i < |run|
    requires j > 0 && Layout(run[0].maxSize, run[0].maxBlock).0 + j <= |run[i].blocks|
    ensures var (n, size) := Layout(run[0].maxSize, run[0].maxBlock);
            var made, limit := run[i].blocks[n + j - 1].size, run[0].maxBlock;
            if Doubled(size, j - 1) < limit then made == Doubled(size, j)
            else limit <= made && (made == size || made < 2 * limit)
  {
    hide Layout, NewSize, Doubled;
    var (n, size) := Layout(run[0].maxSize, run[0].maxBlock);
    LayoutSuffices(run[0].maxSize, run[0].maxBlock);
    RunKeepsSizes(run, i);
    NewSizeIs(size, run[0].maxBlock, j);
  }

  /** The two threads never touch the same slot at once: the one the producer fills is not the one the
      consumer empties. */
  lemma SlotsAreNotShared(run: seq<State>, i: nat)
    requires IsRun(run) && i < |run|
    requires run[i].c.CRead? || run[i].c.CStoreFront?
    ensures var s := run[i];
      && s.frontBlock < |s.blocks| && s.tailBlock < |s.blocks|
      && (s.p.PWrite? && s.tailBlock == s.frontBlock ==>
            s.blocks[s.tailBlock].tail != s.blocks[s.frontBlock].front)
      && (s.p.PNextWrite? ==> s.blocks[s.tailBlock].next != s.frontBlock)
  {
    RunKeepsInvariant(run, i);
    assert PositionOk(run[i], run[i].span);
  }

  // ---------------------------------------------------------------- calls come to an end

  /** How many accesses a call of the producer has left at most. */
  function ProducerStepsLeft(p: Producer): nat {
    match p
    case PIdle => 0
    case PTest(_, _) => 7
    case PLoadFront(_, _) => 6
    case PLoadFrontBlock(_, _, _) => 5
    case PNextLoadFront(_) => 4
    case PNextWrite(_) => 3
    case PNextStoreTail(_) => 2
    case PAlloc(_, _) => 3
    case PLink(_, _) => 2
    case PStoreTailBlock(_, _) => 1
    case PWrite(_) => 2
    case PStoreTail(_) => 1
    case PRefused(_) => 1
  }

  function ConsumerStepsLeft(c: Consumer): nat {
    match c
    case CIdle => 0
    case CShown(_, _) => 0
    case CTest => 9
    case CLoadTail => 8
    case CLoadTailBlock(_) => 7
    case CReloadTail => 6
    case CLoadNext => 5
    case CNextLoadTail(_) => 4
    case CStoreFrontBlock(_) => 3
    case CRead => 2
    case CStoreFront(_) => 1
    case CFoundEmpty(_) => 1
  }

  lemma NextProducerAccess(s: State, s': State)
    requires ProducerStep(s, s')
    ensures match s.p
            case PIdle => false
            case PTest(_, _) => DoPTest(s, s')
            case PLoadFront(_, _) => DoPLoadFront(s, s')
            case PLoadFrontBlock(_, _, _) => DoPLoadFrontBlock(s, s')
            case PNextLoadFront(_) => DoPNextLoadFront(s, s')
            case PNextWrite(_) => DoPNextWrite(s, s')
            case PNextStoreTail(_) => DoPNextStoreTail(s, s')
            case PAlloc(_, _) => DoPAlloc(s, s')
            case PLink(_, _) => DoPLink(s, s')
            case PStoreTailBlock(_, _) => DoPStoreTailBlock(s, s')
            case PWrite(_) => DoPWrite(s, s')
            case PStoreTail(_) => DoPStoreTail(s, s')
            case PRefused(_) => DoPRefused(s, s')
  {
  }

  lemma NextConsumerAccess(s: State, s': State)
    requires ConsumerStep(s, s')
    ensures match s.c
            case CIdle => false
            case CShown(_, _) => false
            case CTest => DoCTest(s, s')
            case CLoadTail => DoCLoadTail(s, s')
            case CLoadTailBlock(_) => DoCLoadTailBlock(s, s')
            case CReloadTail => DoCReloadTail(s, s')
            case CLoadNext => DoCLoadNext(s, s')
            case CNextLoadTail(_) => if s.peeking then DoCShowNext(s, s') else DoCNextLoadTail(s, s')
            case CStoreFrontBlock(_) => DoCStoreFrontBlock(s, s')
            case CRead => if s.peeking then DoCShow(s, s') else DoCRead(s, s')
            case CStoreFront(_) => DoCStoreFront(s, s')
            case CFoundEmpty(_) => DoCFoundEmpty(s, s')
  {
  }

  lemma OneProducerStepLess(s: State, s': State)
    requires ProducerStep(s, s')
    ensures ProducerStepsLeft(s'.p) < ProducerStepsLeft(s.p)
  {
    NextProducerAccess(s, s');
    hide ProducerStep, EmptyBlock, Advance, Abs;
  }

  lemma OneConsumerStepLess(s: State, s': State)
    requires ConsumerStep(s, s')
    ensures ConsumerStepsLeft(s'.c) < ConsumerStepsLeft(s.c)
  {
    NextConsumerAccess(s, s');
    hide ConsumerStep, Advance;
  }

  /** Main result: both sides are wait-free. Whatever the other thread does, enqueue and try_enqueue take at most
      seven accesses, try_dequeue and peek at most nine, ... */
  lemma CallsAreWaitFree(run: seq<State>, i: nat)
    requires IsRun(run) && i < |run| - 1
    ensures ProducerStep(run[i], run[i + 1]) ==> ProducerStepsLeft(run[i + 1].p) < ProducerStepsLeft(run[i].p)
    ensures ConsumerStep(run[i], run[i + 1]) ==> ConsumerStepsLeft(run[i + 1].c) < ConsumerStepsLeft(run[i].c)
  {
    hide ProducerStep, ConsumerStep;
    if ProducerStep(run[i], run[i + 1]) {
      OneProducerStepLess(run[i], run[i + 1]);
    }
    if ConsumerStep(run[i], run[i + 1]) {
      OneConsumerStepLess(run[i], run[i + 1]);
    }
  }

  /** ... and each can always make the next one. */
  lemma EnqueueIsNeverStuck(run: seq<State>, i: nat) returns (s': State)
    requires IsRun(run) && i < |run| && run[i].p != PIdle
    ensures ProducerStep(run[i], s')
  {
    hide Step, Init;
    RunKeepsInvariant(run, i);
    s' := NextOfProducer(run[i]);
  }

  lemma NextOfProducer(s: State) returns (s': State)
    requires Inv(s) && s.p != PIdle
    ensures ProducerStep(s, s')
  {
    var b := s.blocks[s.tailBlock];
    hide Contents, CapacityOk;
    match s.p
    case PTest(e, mode) =>
      s' := s.(p := if Advance(b.tail, b.size) != b.localFront then PWrite(e) else PLoadFront(e, mode));
      assert DoPTest(s, s');
    case PLoadFront(e, mode) =>
      s' := WithBlock(s, s.tailBlock, b.(localFront := b.front)).(p :=
        if Advance(b.tail, b.size) != b.front then PWrite(e)
        else PLoadFrontBlock(e, mode, Abs(|s.enqueued| - |s.dequeued|)));
      assert DoPLoadFront(s, s');
    case PLoadFrontBlock(e, mode, held) =>
      s' := s.(p :=
        if b.next != s.frontBlock then PNextLoadFront(e)
        else if mode.CanAlloc? then PAlloc(e, mode.memory)
        else PRefused(held));
      assert DoPLoadFrontBlock(s, s');
    case PAlloc(_, _) => s' := NextOfAlloc(s);
    case PLink(e, added) =>
      s' := WithBlock(s, s.tailBlock, b.(next := added)).(
        ring := s.ring[..s.span + 1] + [added] + s.ring[s.span + 1..],
        p := PStoreTailBlock(e, added));
      assert DoPLink(s, s');
    case PStoreTailBlock(e, target) =>
      s' := s.(tailBlock := target, span := s.span + 1, enqueued := s.enqueued + [e], p := PIdle);
      assert DoPStoreTailBlock(s, s');
    case PRefused(_) =>
      s' := s.(p := PIdle);
      assert DoPRefused(s, s');
    case PWrite(e) =>
      s' := WithBlock(s, s.tailBlock, b.(data := b.data[b.tail := e])).(p := PStoreTail(e));
      assert DoPWrite(s, s');
    case PStoreTail(e) =>
      s' := WithBlock(s, s.tailBlock, b.(tail := Advance(b.tail, b.size))).(p := PIdle, enqueued := s.enqueued + [e]);
      assert DoPStoreTail(s, s');
    case _ => s' := NextOfNextBlock(s);
  }

  lemma NextOfAlloc(s: State) returns (s': State)
    requires Inv(s) && s.p.PAlloc?
    ensures DoPAlloc(s, s')
  {
    var size := if s.largest >= s.maxBlock then s.largest else s.largest * 2;
    var b := EmptyBlock(size, s.blocks[s.tailBlock].next);
    s' := if !s.p.memory then s.(p := PIdle)
          else s.(
            blocks := s.blocks + [b.(tail := 1, localTail := 1, data := b.data[0 := s.p.e])],
            largest := size,
            p := PLink(s.p.e, |s.blocks|));
  }

  lemma NextOfNextBlock(s: State) returns (s': State)
    requires Inv(s) && (s.p.PNextLoadFront? || s.p.PNextWrite? || s.p.PNextStoreTail?)
    ensures ProducerStep(s, s')
  {
    assert PositionOk(s, s.span);
    var next, e := s.blocks[s.tailBlock].next, s.p.e;
    assert next < |s.blocks| && BlockOk(s.blocks[next]);
    hide Inv, Shape;
    var b := s.blocks[next];
    if s.p.PNextLoadFront? {
      s' := WithBlock(s, next, b.(localFront := b.front)).(p := PNextWrite(e));
      assert DoPNextLoadFront(s, s');
    } else if s.p.PNextWrite? {
      s' := WithBlock(s, next, b.(data := b.data[b.tail := e])).(p := PNextStoreTail(e));
      assert DoPNextWrite(s, s');
    } else {
      s' := WithBlock(s, next, b.(tail := Advance(b.tail, b.size))).(p := PStoreTailBlock(e, next));
      assert DoPNextStoreTail(s, s');
    }
  }

  lemma DequeueIsNeverStuck(run: seq<State>, i: nat) returns (s': State)
    requires IsRun(run) && i < |run| && !BetweenCalls(run[i].c)
    ensures ConsumerStep(run[i], s')
  {
    hide Step, Init;
    RunKeepsInvariant(run, i);
    s' := NextOfConsumer(run[i]);
  }

  lemma NextOfConsumer(s: State) returns (s': State)
    requires Inv(s) && !BetweenCalls(s.c)
    ensures ConsumerStep(s, s')
  {
    var b := s.blocks[s.frontBlock];
    hide Contents, CapacityOk, ProducerOk, AllPositionsOk;
    match s.c
    case CTest =>
      s' := s.(c := if b.front != b.localTail then CRead else CLoadTail);
      assert DoCTest(s, s');
    case CLoadTail =>
      s' := WithBlock(s, s.frontBlock, b.(localTail := b.tail)).(c :=
        if b.front != b.tail then CRead else CLoadTailBlock(s.enqueued == s.dequeued));
      assert DoCLoadTail(s, s');
    case CLoadTailBlock(wasEmpty) =>
      s' := s.(c := if s.frontBlock != s.tailBlock then CReloadTail else CFoundEmpty(wasEmpty));
      assert DoCLoadTailBlock(s, s');
    case CReloadTail =>
      s' := WithBlock(s, s.frontBlock, b.(localTail := b.tail)).(c := if b.front != b.tail then CRead else CLoadNext);
      assert DoCReloadTail(s, s');
    case CLoadNext =>
      s' := s.(c := CNextLoadTail(b.next));
      assert DoCLoadNext(s, s');
    case CNextLoadTail(target) =>
      if s.peeking {
        s' := s.(c := CShown(target, s.blocks[target].front));
        assert DoCShowNext(s, s');
      } else {
        s' := WithBlock(s, target, s.blocks[target].(localTail := s.blocks[target].tail)).(
          c := CStoreFrontBlock(target));
        assert DoCNextLoadTail(s, s');
      }
    case CStoreFrontBlock(target) =>
      s' := s.(frontBlock := target, ring := s.ring[1..] + [s.ring[0]], span := s.span - 1, c := CRead);
      assert DoCStoreFrontBlock(s, s');
    case CRead =>
      if s.peeking {
        s' := s.(c := CShown(s.frontBlock, b.front));
        assert DoCShow(s, s');
      } else {
        s' := s.(c := CStoreFront(b.data[b.front]));
        assert DoCRead(s, s');
      }
    case CStoreFront(result) =>
      s' := WithBlock(s, s.frontBlock, b.(front := Advance(b.front, b.size))).(
        c := CIdle,
        dequeued := s.dequeued + [result]);
      assert DoCStoreFront(s, s');
    case CFoundEmpty(_) =>
      s' := s.(c := CIdle);
      assert DoCFoundEmpty(s, s');
  }

  // ---------------------------------------------------------------- what the calls answer

  /** The queue held at least maxSize elements. */
  predicate FullAt(run: seq<State>, m: nat) {
    m < |run| && |run[m].enqueued| - |run[m].dequeued| >= run[m].maxSize
  }

  predicate EmptyAt(run: seq<State>, m: nat) {
    m < |run| && run[m].enqueued == run[m].dequeued
  }

  ghost predicate FullSeen(run: seq<State>, b: nat, i: nat) {
    exists m :: b < m < i && FullAt(run, m)
  }

  ghost predicate EmptySeen(run: seq<State>, b: nat, i: nat) {
    exists m :: b < m < i && EmptyAt(run, m)
  }

  /** What the program point of the producer says about a call that began at state `b`. */
  ghost predicate EnqueueInformed(run: seq<State>, b: nat, i: nat, e: Elem, mode: Alloc)
    requires b < i < |run|
  {
    var s := run[i];
    && s.enqueued == run[b].enqueued
    && (|s.blocks| == |run[b].blocks| || s.p.PLink? || s.p.PStoreTailBlock?)
    && (|s.blocks| != |run[b].blocks| ==> mode == CanAlloc(true) && FullSeen(run, b, i))
    && match s.p
       case PIdle => false
       case PTest(x, m) => x == e && m == mode
       case PLoadFront(x, m) => x == e && m == mode
       case PLoadFrontBlock(x, m, held) => x == e && m == mode && (held >= s.maxSize ==> FullSeen(run, b, i))
       case PAlloc(x, memory) => x == e && mode == CanAlloc(memory) && FullSeen(run, b, i)
       case PRefused(_) => mode == CannotAlloc && FullSeen(run, b, i)
       case _ => s.p.e == e
  }

  lemma EnqueueInformedLater(run: seq<State>, b: nat, i: nat)
    requires FullSeen(run, b, i)
    ensures FullSeen(run, b, i + 1)
  {
  }

  /** There is no block behind the tail block exactly when the list has come full circle. */
  lemma NextIsFront(s: State)
    requires Inv(s)
    ensures s.blocks[s.tailBlock].next == s.frontBlock <==> s.span + 1 == |s.ring|
  {
    assert PositionOk(s, s.span);
  }

  lemma HeldIsExact(s: State)
    requires Inv(s)
    ensures Abs(|s.enqueued| - |s.dequeued|) == |s.enqueued| - |s.dequeued|
  {
  }

  /** A call that returned after state `r` appended exactly its element, or the queue was full at some moment of the
      call and it might not allocate a block or got none; it added a block only if it might, and was so. */
  ghost predicate EnqueueAnswer(run: seq<State>, b: nat, r: nat, e: Elem, mode: Alloc)
    requires b <= r < |run| - 1
  {
    && (|| run[r + 1].enqueued == run[b].enqueued + [e]
        || (run[r + 1].enqueued == run[b].enqueued && mode != CanAlloc(true) && FullSeen(run, b, r + 1)))
    && (|run[r + 1].blocks| != |run[b].blocks| ==> mode == CanAlloc(true) && FullSeen(run, b, r + 1))
  }

  /** Looking for room. */
  lemma EnqueueInformedOfRoom(run: seq<State>, b: nat, i: nat, e: Elem, mode: Alloc)
    requires b < i < |run| - 1 && EnqueueInformed(run, b, i, e, mode)
    requires Inv(run[i]) && ProducerStep(run[i], run[i + 1])
    requires run[i].p.PTest? || run[i].p.PLoadFront? || run[i].p.PLoadFrontBlock?
    ensures run[i + 1].p != PIdle ==> EnqueueInformed(run, b, i + 1, e, mode)
    ensures run[i + 1].p == PIdle ==> EnqueueAnswer(run, b, i, e, mode)
  {
    var s, s' := run[i], run[i + 1];
    NextProducerAccess(s, s');
    hide ProducerStep, EmptyBlock, Advance, BlockOk;
    if FullSeen(run, b, i) {
      EnqueueInformedLater(run, b, i);
    }
    if s.p.PLoadFrontBlock? {
      NextIsFront(s);
      assert ProducerOk(s);
    } else if s.p.PLoadFront? {
      HeldIsExact(s);
      assert |s.enqueued| - |s.dequeued| >= s.maxSize ==> FullAt(run, i);
    }
    hide Inv, ProducerOk, FullSeen, Abs;
  }

  /** Adding a block, or being refused. */
  lemma EnqueueInformedOfBlock(run: seq<State>, b: nat, i: nat, e: Elem, mode: Alloc)
    requires b < i < |run| - 1 && EnqueueInformed(run, b, i, e, mode)
    requires Inv(run[i]) && ProducerStep(run[i], run[i + 1])
    requires run[i].p.PAlloc? || run[i].p.PLink? || run[i].p.PStoreTailBlock? || run[i].p.PRefused?
    ensures run[i + 1].p != PIdle ==> EnqueueInformed(run, b, i + 1, e, mode)
    ensures run[i + 1].p == PIdle ==> EnqueueAnswer(run, b, i, e, mode)
  {
    var s, s' := run[i], run[i + 1];
    NextProducerAccess(s, s');
    hide ProducerStep, EmptyBlock, Inv;
    if FullSeen(run, b, i) {
      EnqueueInformedLater(run, b, i);
    }
    hide FullSeen;
  }

  /** Writing the element. */
  lemma EnqueueInformedOfWrite(run: seq<State>, b: nat, i: nat, e: Elem, mode: Alloc)
    requires b < i < |run| - 1 && EnqueueInformed(run, b, i, e, mode)
    requires Inv(run[i]) && ProducerStep(run[i], run[i + 1])
    requires !run[i].p.PTest? && !run[i].p.PLoadFront? && !run[i].p.PLoadFrontBlock?
    requires !run[i].p.PAlloc? && !run[i].p.PLink? && !run[i].p.PStoreTailBlock? && !run[i].p.PRefused?
    ensures run[i + 1].p != PIdle ==> EnqueueInformed(run, b, i + 1, e, mode)
    ensures run[i + 1].p == PIdle ==> EnqueueAnswer(run, b, i, e, mode)
  {
    var s, s' := run[i], run[i + 1];
    NextProducerAccess(s, s');
    hide ProducerStep, Advance, Inv;
    if FullSeen(run, b, i) {
      EnqueueInformedLater(run, b, i);
    }
    hide FullSeen;
  }

  lemma EnqueueInformedNext(run: seq<State>, b: nat, i: nat, e: Elem, mode: Alloc)
    requires b < i < |run| - 1 && EnqueueInformed(run, b, i, e, mode)
    requires Inv(run[i]) && ProducerStep(run[i], run[i + 1])
    ensures run[i + 1].p != PIdle ==> EnqueueInformed(run, b, i + 1, e, mode)
    ensures run[i + 1].p == PIdle ==> EnqueueAnswer(run, b, i, e, mode)
  {
    hide EnqueueInformed, EnqueueAnswer, Inv, ProducerStep;
    var p := run[i].p;
    if p.PTest? || p.PLoadFront? || p.PLoadFrontBlock? {
      EnqueueInformedOfRoom(run, b, i, e, mode);
    } else if p.PAlloc? || p.PLink? || p.PStoreTailBlock? || p.PRefused? {
      EnqueueInformedOfBlock(run, b, i, e, mode);
    } else {
      EnqueueInformedOfWrite(run, b, i, e, mode);
    }
  }

  lemma ConsumerLeavesEnqueue(s: State, s': State)
    requires ConsumerStep(s, s') || BeginDequeue(s, s') || BeginPeek(s, s')
    ensures s'.p == s.p && s'.enqueued == s.enqueued && s'.maxSize == s.maxSize && |s'.blocks| == |s.blocks|
  {
  }

  ghost predicate InEnqueue(run: seq<State>, b: nat, i: nat)
    requires i < |run|
  {
    forall j | b < j <= i :: run[j].p != PIdle
  }

  lemma {:induction false} EnqueueIsInformed(run: seq<State>, b: nat, i: nat, e: Elem, mode: Alloc)
    requires IsRun(run) && b < i < |run| && BeginEnqueue(run[b], run[b + 1], e, mode) && InEnqueue(run, b, i)
    ensures EnqueueInformed(run, b, i, e, mode)
  {
    hide Init, ProducerStep, ConsumerStep, FullSeen, Inv;
    if b + 1 < i {
      EnqueueIsInformed(run, b, i - 1, e, mode);
      RunKeepsInvariant(run, i - 1);
      var s, s' := run[i - 1], run[i];
      assert Step(s, s');
      if ProducerStep(s, s') {
        hide EnqueueInformed;
        EnqueueInformedNext(run, b, i - 1, e, mode);
      } else {
        ConsumerLeavesEnqueue(s, s');
        if FullSeen(run, b, i - 1) {
          EnqueueInformedLater(run, b, i - 1);
        }
      }
    }
  }

  /**
   * Main result: an enqueue whose allocation does not fail appends its element, always. An enqueue whose allocation
   * fails and a try_enqueue append it too, unless the queue held maxSize elements at some moment of the call; then
   * they leave the queue as it was. A block is added only by enqueue, and only then.
   */
  lemma EnqueueAppendsUnlessFull(run: seq<State>, b: nat, r: nat, e: Elem, mode: Alloc)
    requires IsRun(run) && b < r < |run| - 1 && BeginEnqueue(run[b], run[b + 1], e, mode) && InEnqueue(run, b, r)
    requires run[r + 1].p == PIdle
    ensures EnqueueAnswer(run, b, r, e, mode)
  {
    hide Init, ProducerStep, ConsumerStep, FullSeen, Inv;
    EnqueueIsInformed(run, b, r, e, mode);
    RunKeepsInvariant(run, r);
    var s, s' := run[r], run[r + 1];
    assert Step(s, s');
    if ProducerStep(s, s') {
      hide EnqueueInformed;
      EnqueueInformedNext(run, b, r, e, mode);
    } else {
      ConsumerLeavesEnqueue(s, s');
    }
  }

  /** The same for a call of the consumer. */
  ghost predicate DequeueInformed(run: seq<State>, b: nat, i: nat, peeking: bool)
    requires b < i < |run|
  {
    var s := run[i];
    && s.dequeued == run[b].dequeued && s.peeking == peeking && !BetweenCalls(s.c)
    && (s.c.CLoadTailBlock? && s.c.wasEmpty ==> EmptySeen(run, b, i))
    && (s.c.CFoundEmpty? ==> EmptySeen(run, b, i))
    && (s.c.CStoreFront? ==> !peeking)
  }

  /** A call that returned after state `r` took out one element, or showed one, or the queue was empty at some moment
      of the call. */
  ghost predicate DequeueAnswer(run: seq<State>, b: nat, r: nat, peeking: bool)
    requires b <= r < |run| - 1
  {
    if run[r + 1].c == CIdle && run[r + 1].dequeued == run[b].dequeued then EmptySeen(run, b, r + 1)
    else if peeking then run[r + 1].c.CShown? && run[r + 1].dequeued == run[b].dequeued
    else run[r + 1].c == CIdle && |run[r + 1].dequeued| == |run[b].dequeued| + 1
  }

  lemma EmptySeenLater(run: seq<State>, b: nat, i: nat)
    requires EmptySeen(run, b, i)
    ensures EmptySeen(run, b, i + 1)
  {
  }

  lemma DequeueInformedNext(run: seq<State>, b: nat, i: nat, peeking: bool)
    requires b < i < |run| - 1 && DequeueInformed(run, b, i, peeking)
    requires Inv(run[i]) && ConsumerStep(run[i], run[i + 1])
    ensures !BetweenCalls(run[i + 1].c) ==> DequeueInformed(run, b, i + 1, peeking)
    ensures BetweenCalls(run[i + 1].c) ==> DequeueAnswer(run, b, i, peeking)
  {
    var s := run[i];
    if EmptySeen(run, b, i) {
      EmptySeenLater(run, b, i);
    }
    NextConsumerAccess(s, run[i + 1]);
    if s.c.CLoadTail? {
      assert s.enqueued == s.dequeued ==> EmptyAt(run, i);
    } else if s.c.CLoadTailBlock? {
      assert ConsumerOk(s) && s.ring[0] == s.frontBlock && s.ring[s.span] == s.tailBlock;
      assert s.span > 0 ==> s.ring[0] != s.ring[s.span];
    }
    hide Inv, ConsumerStep, ConsumerOk, EmptySeen;
  }

  lemma ProducerLeavesDequeue(s: State, s': State, e: Elem, mode: Alloc)
    requires ProducerStep(s, s') || BeginEnqueue(s, s', e, mode)
    ensures s'.c == s.c && s'.dequeued == s.dequeued && s'.peeking == s.peeking
  {
  }

  ghost predicate InDequeue(run: seq<State>, b: nat, i: nat)
    requires i < |run|
  {
    forall j | b < j <= i :: !BetweenCalls(run[j].c)
  }

  lemma {:induction false} DequeueIsInformed(run: seq<State>, b: nat, i: nat)
    requires IsRun(run) && b < i < |run| && InDequeue(run, b, i)
    requires BeginDequeue(run[b], run[b + 1]) || BeginPeek(run[b], run[b + 1])
    ensures DequeueInformed(run, b, i, run[b + 1].peeking)
  {
    hide Init, ProducerStep, ConsumerStep, EmptySeen, Inv;
    if b + 1 < i {
      DequeueIsInformed(run, b, i - 1);
      RunKeepsInvariant(run, i - 1);
      var s, s' := run[i - 1], run[i];
      assert Step(s, s');
      if ConsumerStep(s, s') {
        hide DequeueInformed;
        DequeueInformedNext(run, b, i - 1, run[b + 1].peeking);
      } else {
        var e, mode :| ProducerStep(s, s') || BeginEnqueue(s, s', e, mode);
        ProducerLeavesDequeue(s, s', e, mode);
        if EmptySeen(run, b, i - 1) {
          EmptySeenLater(run, b, i - 1);
        }
      }
    }
  }

  /** Main result: try_dequeue takes out exactly one element, and peek shows one without taking any out, unless the
      queue was empty at some moment of the call. */
  lemma DequeueSucceedsUnlessEmpty(run: seq<State>, b: nat, r: nat)
    requires IsRun(run) && b < r < |run| - 1 && InDequeue(run, b, r) && BetweenCalls(run[r + 1].c)
    requires BeginDequeue(run[b], run[b + 1]) || BeginPeek(run[b], run[b + 1])
    ensures DequeueAnswer(run, b, r, run[b + 1].peeking)
  {
    hide Init, ProducerStep, ConsumerStep, EmptySeen, Inv;
    DequeueIsInformed(run, b, r);
    RunKeepsInvariant(run, r);
    var s, s' := run[r], run[r + 1];
    assert Step(s, s');
    if ConsumerStep(s, s') {
      hide DequeueInformed;
      DequeueInformedNext(run, b, r, run[b + 1].peeking);
    } else {
      var e, mode :| ProducerStep(s, s') || BeginEnqueue(s, s', e, mode);
      ProducerLeavesDequeue(s, s', e, mode);
    }
  }
}

/** The bit tricks behind block sizes (libs/moodycamel/readerwriterqueue.h, lines 539-552). */
module PowersOfTwo {
  function Smear(x: bv64): bv64 {
    var x := x | (x >> 1);
    var x := x | (x >> 2);
    var x := x | (x >> 4);
    var x := x | (x >> 8);
    var x := x | (x >> 16);
    x | (x >> 32)
  }

  /** ceilToPow2 with an 8-byte size_t. */
  function CeilToPow2(x: bv64): bv64 {
    Smear(x - 1) + 1
  }

  predicate IsPowerOfTwo(x: bv64) {
    x != 0 && x & (x - 1) == 0
  }

  /** The result is a power of two that is not below the argument, */
  lemma CeilToPow2IsAbove(x: bv64)
    requires 1 <= x <= 0x8000_0000_0000_0000
    ensures IsPowerOfTwo(CeilToPow2(x)) && x <= CeilToPow2(x)
  {
    hide IsPowerOfTwo;
    Predecessor(x);
    SmearedSuccessor(x - 1);
  }

  lemma Predecessor(x: bv64)
    requires 1 <= x <= 0x8000_0000_0000_0000
    ensures x - 1 <= 0x7FFF_FFFF_FFFF_FFFF && x - 1 + 1 == x
  {
  }

  lemma SmearedSuccessor(y: bv64)
    requires y <= 0x7FFF_FFFF_FFFF_FFFF
    ensures IsPowerOfTwo(Smear(y) + 1) && y + 1 <= Smear(y) + 1
  {
    hide Smear;
    SmearIsMask(y);
    SmearStaysBelow(y, 0x7FFF_FFFF_FFFF_FFFF);
    Successor(y, Smear(y));
  }

  /** and the smallest one: for every power of two mask + 1 that is not below the argument. */
  lemma CeilToPow2IsLeast(x: bv64, mask: bv64)
    requires x - 1 <= mask && mask & (mask + 1) == 0
    ensures CeilToPow2(x) - 1 <= mask
  {
    SmearStaysBelow(x - 1, mask);
  }

  lemma SmearIsMask(y: bv64)
    ensures y <= Smear(y) && Smear(y) & (Smear(y) + 1) == 0
  {
  }

  lemma SmearStaysBelow(y: bv64, mask: bv64)
    requires y <= mask && mask & (mask + 1) == 0
    ensures Smear(y) <= mask
  {
  }

  lemma Successor(y: bv64, m: bv64)
    requires y <= m <= 0x7FFF_FFFF_FFFF_FFFF && m & (m + 1) == 0
    ensures IsPowerOfTwo(m + 1) && y + 1 <= m + 1
  {
  }

  /** For a size that is a power of two, masking with size - 1 wraps the increment to zero. */
  lemma MaskWraps(x: bv64, size: bv64)
    requires IsPowerOfTwo(size) && x < size
    ensures (x + 1) & (size - 1) == if x + 1 == size then 0 else x + 1
  {
  }
}
