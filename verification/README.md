# Queues, JSON, allocator and rewards: a Dafny model

This project models the parts of the repository whose correctness is hardest to see, and proves what they
are there for.

- **Lock-free queues** (`libs/moodycamel`). Each module is a state machine: one transition is one atomic
  access (load, store, compare-and-swap, fetch-and-add) by one thread, private computation goes with the
  access it leads up to, and any number of threads interleave. `IsRun` is a finite execution, and the main
  results speak about every state of every run. The free list, the dequeue counters, the block indexes of
  explicit and of implicit producers, the single-producer queue and the semaphores with their blocking
  wrappers are modelled this way. The chain of implicit-producer tables is a class over arrays, because its
  calls are taken as atomic.
- **JSON** (`libs/rapidjson`). The reader is a class over a byte buffer that decodes strings aside or in
  place and parses recursively or by the transition table; the writer and the pretty writer are a class over
  an output buffer; the document is a class over a stack of values; JSON pointers are a class over a token
  array and a name buffer. Each method is proved against a function of the input, and the theorems are about
  these functions.
- **Pool allocator** (`libs/rapidjson/rapidjson/allocators.h`): a class over a list of chunks with numeric
  addresses.
- **Reward attribution** (`core_service/src/core_service_libevent.cpp`): the two crediting loops.

What the state machines read and write is the code's own state. Fields called history (`stack`, `phase`,
`used`, `done`, `enqueued`, ...) are written but never read by a step; they exist for the statements.

Where the code and its comments or callers leave something to the environment, it is an argument or a
nondeterministic choice: whether an allocation succeeds and at which address, whether a handler goes on,
whether a floating point conversion overflows, when a timed wait times out, which free block is handed out.

The code departs from its standards in a few places, and the model follows the code: bytes from 0x80 on stand for
themselves in JSON strings, whether or not they are UTF-8; a numeric escape of a low surrogate without a high one is
encoded like any other unit; a NUL ends the text; a JSON Pointer in a URI fragment is split at each solidus before
percent encoding is decoded; and the index of a numeric name can wrap around.

The files, from the bottom up: `Sums`, `FreeList`, `DequeueCounters`, `BlockIndex`, `ImplicitBlockIndex`,
`WholeDequeue`, `ImplicitProducerHash`, `SpscQueue`, `MpmcSemaphore`, `BlockingQueues`, `BlockingRing`;
`JsonText`, `Utf8`, `JsonString`, `JsonNumber`, `JsonParsers`, `JsonReader`, `JsonDocument`, `JsonWriter`,
`JsonRoundTrip`, `JsonGrammar` (strings and numbers), `JsonGrammarText` (whole texts), `JsonLayout`, `JsonPointerTree`,
`JsonPointerText`, `JsonPointerGrammar`; `PoolAllocator`; `RewardAttribution`.

## Model

| member | source | states |
|---|---|---|
| `FreeList.RunKeepsInvariant` | libs/moodycamel/concurrentqueue.h:1351-1465 | every interleaving of add, try_get and add_knowing_refcount_is_zero keeps the invariant that ties the reference counts and flags to who is doing what |
| `FreeList.NeverOnTheListTwice` | libs/moodycamel/concurrentqueue.h:1375-1454 | the chain from the head is finite and visits each linked node once |
| `FreeList.OneTaker` | libs/moodycamel/concurrentqueue.h:1389-1426 | a node is handed to one taker at a time, which finds the should-be-on-list bit clear (the assertion of try_get), and is then neither linked nor being added; when there is one to hand out, NullMeansEmpty and LoneGetTakesTheFirst say |
| `FreeList.NullMeansEmpty` | libs/moodycamel/concurrentqueue.h:1389-1426 | in every interleaving, a try_get that returns null had a moment, between its beginning and its return, at which the list was empty |
| `FreeList.LoneGetTakesTheFirst` | libs/moodycamel/concurrentqueue.h:1389-1413 | a try_get that is not interleaved, on a quiescent list with nodes, hands out the first one, leaves the others in order and nothing else changed, and takes seven accesses, none of which it can be stuck at |
| `FreeList.LoneGetFindsNothing` | libs/moodycamel/concurrentqueue.h:1389-1394 | on an empty list it returns null after three accesses, with the list as it was |
| `FreeList.FlagIsClearAndPutIsExclusive` | libs/moodycamel/concurrentqueue.h:1375-1387 | add finds the bit clear, and only one thread at a time links a node |
| `FreeList.EveryStepIsAStackStep` | libs/moodycamel/concurrentqueue.h:1405-1449 | every step leaves the list alone, pushes a node that was not on it, or pops the first one and installs its true successor (no ABA) |
| `FreeList.ResponsibilityMoves` | libs/moodycamel/concurrentqueue.h:1375-1454 | responsibility for a node moves only along the intended life cycle |
| `FreeList.LastReference` | libs/moodycamel/concurrentqueue.h:1415-1422 | the thread that drops the last reference of a flagged node is the only holder left, and must link it |
| `FreeList.NoNodeIsLost` | libs/moodycamel/concurrentqueue.h:1375-1454 | an added node is linked, held by its taker, being linked by a thread, or flagged with a holder that will find out it must link it |
| `FreeList.QuiescentListIsComplete` | libs/moodycamel/concurrentqueue.h:1351-1465 | between calls everything added and not taken is on the list, and the counts are exact |
| `DequeueCounters.PassedWithinTail` | libs/moodycamel/concurrentqueue.h:1885-1983 | the tickets that passed the second test number at most the tail: the largest of them was below the tail when it was tested |
| `DequeueCounters.ClaimsStayBelowTail` | libs/moodycamel/concurrentqueue.h:1885-1983 | with single and bulk dequeues interleaved, head never passes tail and every claim is below tail; how much is claimed, LoneCallClaimsWhatIsThere and ShortCallsLeaveNothing say |
| `DequeueCounters.LoneCallClaimsWhatIsThere` | libs/moodycamel/concurrentqueue.h:1885-1983 | a dequeue that is not interleaved, with the other threads idle, claims exactly min(max, tail - head) indexes from head on; so it fails exactly when head = tail, and then leaves the counters as they were |
| `DequeueCounters.ShortCallsLeaveNothing` | libs/moodycamel/concurrentqueue.h:2170-2261 | in every interleaving, a dequeue that gets less than it asked for, or nothing, leaves no element unspoken for: the tail it read is at most the head plus the unclaimed and the undecided tickets, those given back since it read overcommit, and what it got |
| `DequeueCounters.ClaimsAreDisjoint` | libs/moodycamel/concurrentqueue.h:2170-2261 | no index is claimed by two threads |
| `DequeueCounters.OptimisticCountIsConserved` | libs/moodycamel/concurrentqueue.h:1885-1983 | optimistic count = head + overcommit + what threads inside the protocol have not resolved |
| `DequeueCounters.QuiescentEstimateIsExact` | libs/moodycamel/concurrentqueue.h:1892-1894 | between calls optimistic count minus overcommit is exactly head |
| `CircularIndex.CircularOrderIsPlainOrder` | libs/moodycamel/concurrentqueue.h:405-417 | on wrapped 64-bit indexes the comparison is the plain order exactly when the distance is within half the range |
| `BlockIndex.LookupFindsRange` | libs/moodycamel/concurrentqueue.h:1939-1948 | every slot a consumer comes to, the one computed from a front that was read from any header and those a bulk dequeue walks on to, holds the base and block of the range of its index, whatever the producer did since |
| `BlockIndex.NewHeaderOk` | libs/moodycamel/concurrentqueue.h:2279-2316 | the doubled index covers exactly the ranges of the old one |
| `BlockIndex.ConsumersGetTheirElements` | libs/moodycamel/concurrentqueue.h:2189-2246 | every consumer of an explicit producer, single or bulk, takes out exactly the elements that were enqueued at the indexes it claimed, in order |
| `BlockIndex.ConsumersAreNeverStuck` | libs/moodycamel/concurrentqueue.h:1936-1983 | a consumer can always take its next step: no lookup leads to a slot or block that is not there |
| `BlockIndex.ConsumersFinish` | libs/moodycamel/concurrentqueue.h:1936-1983 | and every step takes it nearer to its end: a consumer with a claim of n indexes takes at most 4n + 4 accesses, whatever the others do |
| `BlockIndex.EnqueueFinishes` | libs/moodycamel/concurrentqueue.h:1783-1883 | enqueue can always take its next access, and takes at most nine |
| `BlockIndex.EnqueueAppendsWhenServed` | libs/moodycamel/concurrentqueue.h:1783-1883 | an enqueue appends exactly its element, or changes nothing; it appends if and only if it stays in its block, or the block ahead was empty when it looked, or the sub-queue might grow and the memory for a block, and for a larger index if needed, was to be had |
| `BlockIndex.BlockIsHeldForItsConsumer` | libs/moodycamel/concurrentqueue.h:1783-1883 | while a consumer has an index that it did not mark empty, the block of its range is given to no later range |
| `BlockIndex.BlocksAreReusedOnlyWhenEmpty` | libs/moodycamel/concurrentqueue.h:1486-1550 | a block is reused only after all its elements were moved out and no consumer has one of them |
| `BlockIndex.AheadIsEmptyExactlyWhen` | libs/moodycamel/concurrentqueue.h:1788-1791 | and the test finds the block ahead empty whenever they were: exactly when all 32 elements of the oldest range are moved out and marked |
| `BlockIndex.IndexGrowsOnlyWhenFull` | libs/moodycamel/concurrentqueue.h:1818-1827 | in every run a larger index is made only when the one in use has no slot left, or there is none |
| `BlockIndex.ConsumersAreApart` | libs/moodycamel/concurrentqueue.h:1936-1983 | no index is held by two consumers |
| `ImplicitBlockIndex.BaseIsShown` | libs/moodycamel/concurrentqueue.h:2858-2870 | the key read from a tail slot is the base of the range that the tail showed, even if the tail moved on or was rewound in between |
| `ImplicitBlockIndex.LookupFindsRange` | libs/moodycamel/concurrentqueue.h:2858-2874 | every slot a consumer comes to, computed or walked on to, holds the entry of the range of its index, with the right key and block |
| `ImplicitBlockIndex.DoubledSlots` | libs/moodycamel/concurrentqueue.h:2876-2918 | the doubled array points to the old entries in order and to distinct new ones |
| `ImplicitBlockIndex.IndexAssertsHold` | libs/moodycamel/concurrentqueue.h:2815-2874 | the assertions of insert and lookup never fail |
| `ImplicitBlockIndex.NextIsFreeExactlyWhen` | libs/moodycamel/concurrentqueue.h:2816-2835 | the producer finds the entry after the tail free exactly when the array in use never gave it to a range, or all elements of that range are moved out and its last consumer has cleared the entry; otherwise it needs a larger array |
| `ImplicitBlockIndex.ConsumersAreNeverStuck` | libs/moodycamel/concurrentqueue.h:2473-2541 | a consumer can always take its next step |
| `ImplicitBlockIndex.ConsumersFinish` | libs/moodycamel/concurrentqueue.h:2473-2541 | and takes at most 6n + 4 accesses for a claim of n indexes |
| `ImplicitBlockIndex.EnqueueFinishes` | libs/moodycamel/concurrentqueue.h:2410-2471 | enqueue can always take its next access, and takes at most ten |
| `ImplicitBlockIndex.EnqueueAppendsWhenServed` | libs/moodycamel/concurrentqueue.h:2410-2471 | an enqueue appends exactly its element, or changes nothing; it appends if and only if it stays in its block, or the sub-queue might grow, the entry after the tail was free or a larger index was to be had, and so was a block |
| `ImplicitBlockIndex.ConsumersGetTheirElements` | libs/moodycamel/concurrentqueue.h:2703-2788 | every consumer of an implicit producer, single or bulk, takes out exactly the elements that were enqueued at the indexes it claimed, in order |
| `ImplicitBlockIndex.BlocksAreFreedOnlyWhenEmpty` | libs/moodycamel/concurrentqueue.h:2519-2530 | a block is given back only when all its elements were moved out, its entry was cleared and no other range has it |
| `ImplicitBlockIndex.FreedOnce` | libs/moodycamel/concurrentqueue.h:2519-2530 | for each range a block is given back once |
| `ImplicitBlockIndex.NoBlockIsLost` | libs/moodycamel/concurrentqueue.h:1513-1528 | when all elements of a block were moved out it was given back, or one consumer is about to |
| `ImplicitBlockIndex.ConsumersAreApart` | libs/moodycamel/concurrentqueue.h:2473-2541 | no index is held by two consumers |
| `ExplicitDequeue.GrantsAreClaims` | libs/moodycamel/concurrentqueue.h:1885-1983 | counters and block index run together: the indexes that the counters hand out are always those of enqueued elements, so the guard of the index machine holds by itself |
| `ExplicitDequeue.CallsGetTheirElements` | libs/moodycamel/concurrentqueue.h:2170-2261 | a dequeue of an explicit producer, single or bulk, that returns elements has taken out exactly those enqueued at the indexes the counters gave it, in order; when it returns some, LoneCallGetsWhatIsThere says |
| `ExplicitDequeue.LoneCallGetsWhatIsThere` | libs/moodycamel/concurrentqueue.h:2170-2261 | a dequeue that is not interleaved returns exactly the oldest min(max, number) elements, in order; it comes back with nothing exactly when the queue is empty, and until then it can go on |
| `ImplicitDequeue.GrantsAreClaims` | libs/moodycamel/concurrentqueue.h:2473-2541 | the same for an implicit producer |
| `ImplicitDequeue.CallsGetTheirElements` | libs/moodycamel/concurrentqueue.h:2695-2793 | the same for an implicit producer |
| `ImplicitDequeue.LoneCallGetsWhatIsThere` | libs/moodycamel/concurrentqueue.h:2695-2793 | the same for an implicit producer |
| `OpenAddressing.ProbeEnds` | libs/moodycamel/concurrentqueue.h:3316-3318 | with a free slot in the table every probe loop ends |
| `OpenAddressing.ProbeFinds` | libs/moodycamel/concurrentqueue.h:3314-3354 | a probe meets an id exactly when the table holds it, and an empty slot otherwise |
| `OpenAddressing.FillKeeps` | libs/moodycamel/concurrentqueue.h:3416-3437 | filling the slot where the probe stopped keeps every other id findable |
| `OpenAddressing.FewKeysLeaveFree` | libs/moodycamel/concurrentqueue.h:3317-3327 | fewer ids than slots leave a free slot |
| `ImplicitProducerHash.CopyKeepsChain` | libs/moodycamel/concurrentqueue.h:3322-3345 | the lazy copy into the newest table has room and keeps the chain one map |
| `ImplicitProducerHash.GrowKeepsChain` | libs/moodycamel/concurrentqueue.h:3365-3391 | so does a resize |
| `ImplicitProducerHash.AddKeepsChain` | libs/moodycamel/concurrentqueue.h:3395-3440 | so does the insertion of a new thread |
| `ImplicitProducerHash.ProducerHash.Probe` | libs/moodycamel/concurrentqueue.h:3316-3354 | the probe loop ends at the slot that the specification names |
| `ImplicitProducerHash.ProducerHash.Search` | libs/moodycamel/concurrentqueue.h:3313-3356 | the search through the tables finds the producer of a known thread |
| `ImplicitProducerHash.ProducerHash.Grow` | libs/moodycamel/concurrentqueue.h:3366-3391 | the new table is less than half full; its capacity is twice the old one, or half of it would not do |
| `ImplicitProducerHash.ProducerHash.GetOrAdd` | libs/moodycamel/concurrentqueue.h:3294-3442 | the chain acts as one map: a known thread gets its producer, a new one a new producer, exactly when its allocation and that of a bigger table, if the newest would be half full, succeed; otherwise nothing changes; at most one table is added |
| `ImplicitProducerHash.ProducerHash.ServeAll` | libs/moodycamel/concurrentqueue.h:3294-3442 | over any sequence of calls two calls get the same producer exactly when the same thread makes them |
| `SpscQueue.QueueIsFifo` | libs/moodycamel/readerwriterqueue.h:206-297 | what was dequeued is a prefix of what was enqueued, and the rest is in the queue, in every interleaving |
| `SpscQueue.NextBlockAssertsHold` | libs/moodycamel/readerwriterqueue.h:245-282 | both assertions about the next block hold |
| `SpscQueue.RefusalsAreJustified` | libs/moodycamel/readerwriterqueue.h:206-528 | try_dequeue and peek fail only if the queue was empty at some moment of the call; a call that allocates nothing is refused only by a queue that held at least maxSize elements; EnqueueAppendsUnlessFull tells enqueue from try_enqueue |
| `SpscQueue.EnqueueAppendsUnlessFull` | libs/moodycamel/readerwriterqueue.h:171-198 | in every interleaving, an enqueue whose allocation does not fail appends exactly its element, always; an enqueue whose allocation fails and a try_enqueue append it too, unless the queue held maxSize elements at a moment of the call, and then leave it as it was; only enqueue adds a block, and only then |
| `SpscQueue.DequeueSucceedsUnlessEmpty` | libs/moodycamel/readerwriterqueue.h:206-343 | try_dequeue takes out exactly one element, and peek shows one and takes out none, unless the queue was empty at a moment of the call |
| `SpscQueue.CallsAreWaitFree` | libs/moodycamel/readerwriterqueue.h:206-528 | whatever the other thread does, enqueue and try_enqueue take at most seven accesses, try_dequeue and peek at most nine |
| `SpscQueue.EnqueueIsNeverStuck` | libs/moodycamel/readerwriterqueue.h:434-528 | the producer can always take its next access |
| `SpscQueue.DequeueIsNeverStuck` | libs/moodycamel/readerwriterqueue.h:206-343 | and so can the consumer |
| `SpscQueue.PeekShowsNext` | libs/moodycamel/readerwriterqueue.h:305-343 | from its return until the consumer calls again, the pointer that peek returned shows the next element, whatever the producer does |
| `SpscQueue.PeekedIsDequeuedNext` | libs/moodycamel/readerwriterqueue.h:300-343 | the element that peek showed is the one the next try_dequeue returns |
| `SpscQueue.FullListHoldsMaxSize` | libs/moodycamel/readerwriterqueue.h:434-528 | a list of blocks with no room left holds at least the minimum it was built for |
| `SpscQueue.LayoutSuffices` | libs/moodycamel/readerwriterqueue.h:80-133 | the blocks that the constructor builds hold maxSize elements |
| `SpscQueue.LayoutIsLeast` | libs/moodycamel/readerwriterqueue.h:80-133 | with one block less, or a single block of half the size, they would not; no block is larger than twice the limit |
| `SpscQueue.NewBlocksDouble` | libs/moodycamel/readerwriterqueue.h:490-498 | in every run the j-th block that enqueue makes is 2^j times as large as the first ones while the limit is not reached, and from then on between the limit and twice the limit |
| `SpscQueue.SlotsAreNotShared` | libs/moodycamel/readerwriterqueue.h:206-528 | producer and consumer never touch the same slot at the same time |
| `PowersOfTwo.CeilToPow2IsAbove` | libs/moodycamel/readerwriterqueue.h:539-552 | ceilToPow2 yields a power of two not below its argument |
| `PowersOfTwo.CeilToPow2IsLeast` | libs/moodycamel/readerwriterqueue.h:539-552 | and the least one |
| `PowersOfTwo.MaskWraps` | libs/moodycamel/readerwriterqueue.h:452-453 | masking with size - 1 is wrapping around at a size that is a power of two |
| `MpmcSemaphore.PermitsAreConserved` | libs/moodycamel/blockingconcurrentqueue.h:250-414 | initial + signalled permits = granted + max(0, count) + kernel tokens + tokens about to be posted |
| `MpmcSemaphore.WaitersAreAccountedFor` | libs/moodycamel/blockingconcurrentqueue.h:260-335 | waiting threads = max(0, -count) + those tokens |
| `MpmcSemaphore.NoSleeperWhilePermitsRemain` | libs/moodycamel/blockingconcurrentqueue.h:299-335 | a thread sleeps without a token on the way only if the count is negative: no wakeup is lost |
| `MpmcSemaphore.RollbackIsOwedAToken` | libs/moodycamel/blockingconcurrentqueue.h:279-296 | a timed-out waiter that cannot take its place back is owed a token |
| `MpmcSemaphore.ResultsAreWithinRequest` | libs/moodycamel/blockingconcurrentqueue.h:343-405 | a call is granted no more than it asked for, and an untimed wait at least one |
| `MpmcSemaphore.ShortResultMeansNoPermits` | libs/moodycamel/blockingconcurrentqueue.h:299-405 | a call that is granted less than it asked for, or nothing, whether it tries, waits or times out, found the count not positive at some moment, or left it so |
| `MpmcSemaphore.OnlySleepersWait` | libs/moodycamel/blockingconcurrentqueue.h:250-414 | a thread can always take its next step, except for an untimed sleeper when the kernel has no token |
| `BlockingMpmcQueue.ElementsMatchPermits` | libs/moodycamel/blockingconcurrentqueue.h:519-526 | inner elements = permits not yet turned into elements taken, exactly |
| `BlockingMpmcQueue.GrantedElementsAreReserved` | libs/moodycamel/blockingconcurrentqueue.h:690-761 | all permits granted and not yet used, over all threads together, are backed by elements of the inner queue, so the retry loop of each always has one |
| `BlockingMpmcQueue.SleepersLeaveNothingUnclaimed` | libs/moodycamel/blockingconcurrentqueue.h:755-761 | nobody sleeps while an element is unclaimed and no token is on its way |
| `BlockingMpmcQueue.ShortDequeueMeansAllSpokenFor` | libs/moodycamel/blockingconcurrentqueue.h:530-761 | a dequeue that gets less than it asked for saw a moment at which every element was spoken for: granted to a call, about to be signalled, or with its token on the way to a sleeper |
| `BlockingSpscQueue.AssertsHold` | libs/moodycamel/readerwriterqueue.h:683-750 | assert(success) of the wrapper and assert(oldCount >= -1) of the semaphore never fail |
| `BlockingSpscQueue.RollbackIsOwedAToken` | libs/moodycamel/atomicops.h:592-632 | the same for the rollback of the single waiter |
| `BlockingSpscQueue.NoSleepOnElements` | libs/moodycamel/readerwriterqueue.h:724-750 | the consumer never sleeps on an element that was signalled |
| `BlockingSpscQueue.FailureMeansEmpty` | libs/moodycamel/readerwriterqueue.h:706-750 | a dequeue that comes back without an element, because it only tries or timed out, saw a moment at which the queue was empty but for an element whose signal was still to come |
| `BlockingRing.GrantedDequeueSucceeds` | libs/moodycamel/readerwriterqueue.h:683-750 | the wrapper over the ring of blocks itself: the try_dequeue that follows a granted permit never comes back empty-handed, and the elements come out in the order they went in |
| `BlockingRing.CountIsContents` | libs/moodycamel/readerwriterqueue.h:683-750 | the number of elements the wrapper reckons with is the number in the blocks |
| `Utf8.EncodeIsExact` | libs/rapidjson/rapidjson/encodings.h:102-122 | Encode yields one UTF8-char of section 4 of RFC 3629, standing for its argument, exactly for the code points that are not surrogates |
| `Utf8.CharIsEncodingOfCodePoint` | libs/rapidjson/rapidjson/encodings.h:102-122 | every UTF8-char is the encoding of the code point it stands for |
| `Utf8.MaskedBitsAdd` | libs/rapidjson/rapidjson/encodings.h:102-150 | the operands of each bitwise or share no bits, so that the arithmetic of the model is the source's |
| `Utf8.ByteStream.Decode` | libs/rapidjson/rapidjson/encodings.h:146-176 | Decode succeeds on exactly the sequences of section 4 of RFC 3629, with their length and code point |
| `Utf8.ByteStream.Validate` | libs/rapidjson/rapidjson/encodings.h:179-202 | Validate accepts the same sequences and copies exactly those bytes |
| `JsonString.WrittenStringIsRead` | libs/rapidjson/rapidjson/reader.h:988-1048 | a string printed with UTF-8 or ASCII output reads back as itself, wherever it stands |
| `JsonString.Utf8OutputNeverFails` | libs/rapidjson/rapidjson/writer.h:376-448 | any byte string can be printed with UTF-8 output |
| `JsonString.AsciiOutputIsForWellFormed` | libs/rapidjson/rapidjson/writer.h:399-429 | with ASCII output exactly the well-formed UTF-8 strings can be printed, and the text is ASCII |
| `JsonString.PointIsRead` | libs/rapidjson/rapidjson/reader.h:1014-1030 | a code point escaped as one or two numeric escapes reads back as its encoding |
| `StringGrammar.StringIsDecoded` | libs/rapidjson/rapidjson/reader.h:988-1048 | every string of section 7 of RFC 8259, given as a list of unescaped characters, two-character escapes, numeric escapes and surrogate pairs with digits of either case, is decoded to the meanings of its parts, wherever it stands |
| `StringGrammar.DecodedIsString` | libs/rapidjson/rapidjson/reader.h:988-1048 | and whatever is decoded is such a string with its closing quote |
| `StringGrammar.PrintedIsEscaped` | libs/rapidjson/rapidjson/writer.h:376-448 | with UTF-8 output the writer escapes byte by byte |
| `StringGrammar.PrintedIsShortest` | libs/rapidjson/rapidjson/writer.h:376-448 | no string of the grammar with the same meaning is shorter than the one it prints |
| `StringGrammar.AsciiIsShortest` | libs/rapidjson/rapidjson/writer.h:399-429 | and with ASCII output none that is all ASCII is shorter |
| `StringGrammar.EscapesAreUpperCase` | libs/rapidjson/rapidjson/writer.h:377 | numeric escapes are printed with four upper-case digits, the most significant one first |
| `JsonNumber.ReportIsExactAndNarrowest` | libs/rapidjson/rapidjson/reader.h:1454-1732 | ParseNumber reports a literal without fraction and exponent with its exact value in the narrowest of the two forms of its sign, and as a double exactly when it does not fit 64 bits |
| `JsonNumber.PrintedIntegerIsRead` | libs/rapidjson/rapidjson/reader.h:1454-1732 | every printed 64-bit integer reads back with its value |
| `NumberGrammar.NumberIsRead` | libs/rapidjson/rapidjson/reader.h:1454-1732 | every number of section 6 of RFC 8259 is read in full wherever it stands, and reported by its value if it is an integer of 64 bits, otherwise as a double by its whole literal, fraction and exponent included |
| `NumberGrammar.ReadIsNumber` | libs/rapidjson/rapidjson/reader.h:1454-1732 | and whatever is read as a number is one, up to a character that does not continue it |
| `JsonReader.Reader.Accumulate32` | libs/rapidjson/rapidjson/reader.h:1482-1506 | the 32-bit accumulator never overflows and is too narrow exactly above the limit |
| `JsonReader.Reader.Accumulate64` | libs/rapidjson/rapidjson/reader.h:1537-1560 | the same for the 64-bit accumulator |
| `JsonReader.Reader.ParseIntegerPart` | libs/rapidjson/rapidjson/reader.h:1467-1566 | extent and value of the integer part, with 2^31, 2^63, 2^32 and 2^64 as exact thresholds |
| `JsonReader.Reader.ParseNumber` | libs/rapidjson/rapidjson/reader.h:1454-1732 | the event and the position that the specification gives |
| `IterativeParser.TransitAdvances` | libs/rapidjson/rapidjson/reader.h:1995-2144 | every transition consumes input, and the stack it leaves is never popped when empty |
| `IterativeParser.ValueAgrees` | libs/rapidjson/rapidjson/reader.h:1735-2208 | where a value is expected the table-driven run reads what the recursive parser reads |
| `IterativeParser.ElementsAgree` | libs/rapidjson/rapidjson/reader.h:805-851 | the same from any element of an array on, count included |
| `IterativeParser.MembersAgree` | libs/rapidjson/rapidjson/reader.h:737-802 | the same from any member of an object on, count included |
| `IterativeParser.ParsersAgree` | libs/rapidjson/rapidjson/reader.h:556-2208 | for every text and every handler the two parsers accept or reject together and send the same events, those before an error included |
| `JsonReader.Reader.Parse` | libs/rapidjson/rapidjson/reader.h:556-588 | copying or in place, the reader has the outcome of the specification, and every string the handler was given still stands in the buffer at the end, with its terminator |
| `JsonReader.Reader.IterativeParse` | libs/rapidjson/rapidjson/reader.h:2176-2208 | the same for the table-driven loop |
| `JsonReader.Reader.Transit` | libs/rapidjson/rapidjson/reader.h:1995-2144 | pushes, pops and counts as the specification's transition does |
| `JsonReader.Reader.ParseValue` | libs/rapidjson/rapidjson/reader.h:1735-1749 | dispatches to the parser of the value that starts here |
| `JsonReader.Reader.ParseArray` | libs/rapidjson/rapidjson/reader.h:805-851 | events and count of an array |
| `JsonReader.Reader.ParseObject` | libs/rapidjson/rapidjson/reader.h:737-802 | events and count of an object |
| `JsonReader.Reader.ParseString` | libs/rapidjson/rapidjson/reader.h:957-985 | hands the decoded string over, copied or as a place in the buffer |
| `JsonReader.Reader.ParseStringToStream` | libs/rapidjson/rapidjson/reader.h:988-1048 | decodes what the specification decodes, which StringIsDecoded and DecodedIsString tie to RFC 8259, and in place never writes at or beyond the read cursor |
| `JsonReader.Reader.ParseUnicode` | libs/rapidjson/rapidjson/reader.h:1014-1028 | a numeric escape, or two that form a surrogate pair |
| `JsonReader.Reader.ParseHex4` | libs/rapidjson/rapidjson/reader.h:903-923 | the value of four hexadecimal digits, or an error exactly when one is not |
| `JsonReader.Reader.Put` | libs/rapidjson/rapidjson/stream.h:188-203 | a character written in place leaves the unread text and all strings delivered before alone |
| `JsonReader.HeldStays` | libs/rapidjson/rapidjson/reader.h:957-1048 | strings decoded earlier survive whatever is written after them |
| `JsonDocument.TreeIsRebuilt` | libs/rapidjson/rapidjson/document.h:2431-2471 | from the events of a tree the handler pushes exactly that tree, on any stack |
| `RecursiveParser.SizesAreWithinText` | libs/rapidjson/rapidjson/reader.h:737-985 | no count and no string length that the handler is given exceeds the length of the text |
| `RecursiveParser.NarrowLogIsExact` | libs/rapidjson/rapidjson/rapidjson.h:384 | truncating the counts and lengths to the 32-bit SizeType changes nothing exactly when none of them exceeds 2^32 - 1 |
| `TextGrammar.SyntaxIsRead` | libs/rapidjson/rapidjson/reader.h:737-1749 | a value of the grammar of RFC 8259 (sections 2 to 5), given as a syntax tree with all its white space, strings and numbers, is read to its end with the events of the tree |
| `TextGrammar.SyntaxOfRead` | libs/rapidjson/rapidjson/reader.h:737-1749 | and whatever is read as a value is the spelling of a syntax tree |
| `TextGrammar.TextIsAccepted` | libs/rapidjson/rapidjson/reader.h:556-588 | a whole text of the grammar is accepted, unless a number is too big for a double or the handler refuses an event |
| `TextGrammar.AcceptedIsText` | libs/rapidjson/rapidjson/reader.h:556-588 | and nothing else is: an accepted text is one value between white space, up to its end or the first NUL |
| `TextMeaning.MeaningIsRebuilt` | libs/rapidjson/rapidjson/document.h:2431-2471 | from the events of a syntax tree the handler builds the tree that it means |
| `TextMeaning.TextIsUnderstood` | libs/rapidjson/rapidjson/document.h:2253-2263 | either parser accepts every text of the grammar, and the handler ends with the tree that it means alone on its stack |
| `TextMeaning.CompactIsShortest` | libs/rapidjson/rapidjson/writer.h:177-490 | no accepted text is shorter than the compact UTF-8 text of its tree, a double being counted with its literal |
| `JsonDocument.ParsedTextIsOneTree` | libs/rapidjson/rapidjson/document.h:2253-2263 | the events of any accepted text are those of one tree, with true element and member counts, and leave exactly one value on the stack; for texts shorter than 2^32 bytes also with every count and length truncated to the 32-bit SizeType |
| `JsonDocument.Document.EndObject` | libs/rapidjson/rapidjson/document.h:2459-2463 | pops the members and stores them in the object below |
| `JsonDocument.Document.EndArray` | libs/rapidjson/rapidjson/document.h:2467-2471 | pops the elements and stores them in the array below |
| `JsonDocument.Document.ParseStream` | libs/rapidjson/rapidjson/document.h:2253-2263 | the assertion that exactly one root is left holds, and the root is the tree of the text |
| `JsonWriter.Writer.Accept` | libs/rapidjson/rapidjson/document.h:1862-1899 | the visitor writes exactly the text of the tree, and fails exactly when a string cannot be encoded |
| `JsonWriter.Writer.Prefix` | libs/rapidjson/rapidjson/writer.h:472-490 | commas and colons of the compact form |
| `JsonWriter.Writer.PrettyPrefix` | libs/rapidjson/rapidjson/prettywriter.h:208-250 | commas, colons, line breaks and indentation of the pretty form |
| `JsonWriter.Writer.WriteString` | libs/rapidjson/rapidjson/writer.h:376-448 | the quoted string of the specification, or failure exactly when there is none |
| `JsonWriter.Writer.EndObject` | libs/rapidjson/rapidjson/prettywriter.h:137-156 | closes an object, on a new line unless it is empty |
| `JsonWriter.Writer.EndArray` | libs/rapidjson/rapidjson/prettywriter.h:163-178 | closes an array, on a new line unless it is empty or arrays stay on one line |
| `TextLayout.PrettyTextIsLaidOut` | libs/rapidjson/rapidjson/prettywriter.h:94-255 | the pretty text of every tree passes a machine that knows nothing of trees: a line break after each opening bracket and comma and before each closing bracket, each line indented by the width for each open bracket, one space behind a colon, no other white space outside strings; arrays on one line have one space behind each comma instead |
| `JsonRoundTrip.TextIsRead` | libs/rapidjson/rapidjson/reader.h:556-1749 | the text of a tree reads back as the events of the tree, wherever it stands |
| `JsonRoundTrip.PrintThenParse` | libs/rapidjson/rapidjson/document.h:1862-2471 | for every tree without doubles either parser accepts the printed text, compact or pretty, and the handler ends with that tree alone on its stack |
| `JsonRoundTrip.PrintAndParse` | libs/rapidjson/rapidjson/document.h:1862-2471 | the same through the writer, reader and document objects, in place or not |
| `JsonRoundTrip.Utf8PrintsEverything` | libs/rapidjson/rapidjson/writer.h:376-448 | with UTF-8 output every tree can be printed |
| `PointerText.ParsedPointerRoundTrip` | libs/rapidjson/rapidjson/pointer.h:805-975 | for every text that parses, the plain form of the pointer exists and parses to the same pointer |
| `PointerText.ParsedFragmentRoundTrip` | libs/rapidjson/rapidjson/pointer.h:805-1040 | its URI fragment form exists exactly when all names are well-formed UTF-8, and then parses to the same pointer |
| `PointerText.ParsedTokens` | libs/rapidjson/rapidjson/pointer.h:895-925 | the index of a parsed token is the one of its name, and "-" has none |
| `PointerText.ParsedPointerInTree` | libs/rapidjson/rapidjson/pointer.h:404-510 | with a parsed pointer, in any tree, Create says "already exists" exactly when Get finds the node, and Get after Create finds the very node Create returned exactly when no "-" met an array |
| `PointerText.PlainRoundTrip` | libs/rapidjson/rapidjson/pointer.h:805-975 | parsing the plain form of any tokens with the indexes of their names gives them back |
| `PointerText.FragmentRoundTrip` | libs/rapidjson/rapidjson/pointer.h:805-1040 | so does parsing their URI fragment form, if there is one |
| `PointerText.FragmentIsForUtf8` | libs/rapidjson/rapidjson/pointer.h:943-975 | the fragment form exists exactly when every name is well-formed UTF-8 |
| `PointerText.OneTokenPerSolidus` | libs/rapidjson/rapidjson/pointer.h:814-860 | parsing yields one token for every solidus |
| `PointerGrammar.PointerIsParsed` | libs/rapidjson/rapidjson/pointer.h:805-935 | every pointer of section 3 of RFC 6901, and every URI fragment of its section 6 with the unreserved characters of section 2.3 of RFC 3986 and percent encoding with digits of either case, is parsed to the names it means |
| `PointerGrammar.ParsedIsPointer` | libs/rapidjson/rapidjson/pointer.h:805-935 | and whatever is parsed is one of these |
| `PointerGrammar.StringifyIsShortest` | libs/rapidjson/rapidjson/pointer.h:943-975 | whatever was parsed can be printed in the same form, no longer than the text it came from: only what must be escaped or percent-encoded is |
| `PointerGrammar.EncodedSolidusIsName` | libs/rapidjson/rapidjson/pointer.h:846-874 | the source departs from section 6 of RFC 6901: a percent-encoded solidus does not separate names |
| `PointerGrammar.GetFollowsNames` | libs/rapidjson/rapidjson/pointer.h:482-510 | in trees that fit SizeType, Get with a parsed pointer finds exactly the node that its names lead to by section 4 of RFC 6901, if each numeric name got the index it stands for (IndexIsRightExactlyWhen says when) |
| `PointerText.IndexIsValue` | libs/rapidjson/rapidjson/pointer.h:904-920 | below 2^32 the index of a numeric name is its value |
| `PointerText.IndexIsRightExactlyWhen` | libs/rapidjson/rapidjson/pointer.h:904-920 | a numeric name gets its value, or the invalid index when it does not fit 32 bits, exactly when it fits, or its value modulo 2^32 drops at some digit, or ends on the invalid index itself |
| `PointerText.WrapTestMisses` | libs/rapidjson/rapidjson/pointer.h:907-917 | not always: 5000000000 gets the index 705032704 |
| `PointerText.Pointer.Parse` | libs/rapidjson/rapidjson/pointer.h:805-935 | the stored tokens are those of the specification, and no access leaves the token array or the name buffer of the source's size, rejected input included |
| `PointerText.Pointer.ParseRound` | libs/rapidjson/rapidjson/pointer.h:846-900 | one character of a name, with escapes and percent encoding |
| `PointerText.Pointer.ParsePercent` | libs/rapidjson/rapidjson/pointer.h:850-870 | one percent-encoded UTF-8 character |
| `PointerText.Pointer.ToIndex` | libs/rapidjson/rapidjson/pointer.h:895-920 | the index of a name, wrap test included |
| `PointerText.Pointer.Stringify` | libs/rapidjson/rapidjson/pointer.h:943-975 | the text of the stored tokens |
| `PointerTree.ExistsMeansFound` | libs/rapidjson/rapidjson/pointer.h:404-450 | for any tree and any tokens, hand-made ones included, Create says "already exists" exactly when Get finds the node and no "-" token met an array; then it is the same node and the tree is unchanged |
| `PointerTree.DashWithIndexIsAppended` | libs/rapidjson/rapidjson/pointer.h:412-416 | the second condition is needed: with a hand-made "-" of index 0 and the tree [null], Get finds element 0, but Create appends |
| `PointerTree.FoundWithoutDash` | libs/rapidjson/rapidjson/pointer.h:482-510 | if "-" tokens have no index, a node that Get finds has no "-" on an array on the way |
| `PointerTree.GetAfterCreate` | libs/rapidjson/rapidjson/pointer.h:404-510 | for any tree and any tokens, Get after Create finds the very node Create returned, exactly when no "-" token on an array lacked the index of the appended element |
| `PointerTree.NothingAfterDash` | libs/rapidjson/rapidjson/pointer.h:404-510 | if "-" tokens have no index, that is when none met an array, and otherwise Get finds nothing |
| `PointerTree.CreateKeepsTheRest` | libs/rapidjson/rapidjson/pointer.h:388-450 | for any tree and tokens, unless an array had to become an object, every path of the tree is a path of the new one, to the same node if it is no prefix of the path that Create returns |
| `PointerTree.CreateExtendsThePath` | libs/rapidjson/rapidjson/pointer.h:404-450 | on that path every value is the one that was there, extended by what the token needs: members keep their places and names and a new one comes last, added elements are null; where a scalar or an array of the wrong kind is replaced, the replacement holds only the named child, and in an array the nulls before it |
| `PointerTree.Tree.Create` | libs/rapidjson/rapidjson/pointer.h:404-450 | the loop makes the tree, the node and the answer of the specification; what that leaves of the tree, CreateKeepsTheRest and CreateExtendsThePath say |
| `PointerTree.Tree.Get` | libs/rapidjson/rapidjson/pointer.h:482-510 | the loop finds the node of the specification, or reports the first token that leads nowhere |
| `PoolAllocator.MemoryPoolAllocator.Malloc` | libs/rapidjson/rapidjson/allocators.h:189-201 | for every 64-bit size: takes the block at the top of the head chunk, adding a chunk when the test for room says so; afterwards the blocks are apart, at multiples of 8 and inside their chunks exactly when none of the sums of the call wrapped around, and then it fails exactly for size 0 or when a needed chunk cannot be had |
| `PoolAllocator.MemoryPoolAllocator.Realloc` | libs/rapidjson/rapidjson/allocators.h:204-236 | keeps the contents of the block and of all others; if no sum wrapped around, the block stays in place exactly when it need not grow or is the last of the head chunk with room; the blocks are in order afterwards exactly when no sum wrapped around |
| `PoolAllocator.MallocIsExact` | libs/rapidjson/rapidjson/allocators.h:189-201 | the exact condition: a successful Malloc leaves chunks and blocks in order if and only if the aligned size, the new fill of the head chunk and the size of an added chunk all stay below 2^64 |
| `PoolAllocator.GrowIsExact` | libs/rapidjson/rapidjson/allocators.h:218-224 | the same for growing in place: in order if and only if the new fill stays below 2^64 |
| `PoolAllocator.AlignmentWraps` | libs/rapidjson/rapidjson/allocators.h:193 | the 64-bit alignment is right exactly up to 2^64 - 8, and 0 above |
| `PoolAllocator.RoomTestWraps` | libs/rapidjson/rapidjson/allocators.h:194 | the test for room in a chunk is right exactly when its sum stays below 2^64 |
| `PoolAllocator.RequestWraps` | libs/rapidjson/rapidjson/allocators.h:253 | the size asked for a new chunk is large enough exactly when its sum stays below 2^64 |
| `PoolAllocator.LargestSizesTakeNothing` | libs/rapidjson/rapidjson/allocators.h:189-201 | what the first bound is for: Malloc of a size above 2^64 - 8 succeeds without taking a byte, and the next block gets the same address |
| `PoolAllocator.SmallBlocksShareAChunk` | libs/rapidjson/rapidjson/allocators.h:189-201 | what the chunk capacity is for: blocks whose aligned sizes add up to at most the capacity take one new chunk at most, in any order, as long as no sum wraps around |
| `PoolAllocator.MemoryPoolAllocator.AddChunk` | libs/rapidjson/rapidjson/allocators.h:250-262 | a new chunk in front of the others, in order exactly when the header could be added to its capacity in 64 bits |
| `PoolAllocator.MemoryPoolAllocator.Clear` | libs/rapidjson/rapidjson/allocators.h:158-166 | gives back every chunk but the user's buffer, which becomes empty |
| `PoolAllocator.GrowKeepsBlocks` | libs/rapidjson/rapidjson/allocators.h:218-225 | growing in place reaches no other block |
| `PoolAllocator.LastBlockIsInHead` | libs/rapidjson/rapidjson/allocators.h:218-219 | the address test passes only for a block of the head chunk, even next to a neighbouring chunk |
| `PoolAllocator.BumpKeepsBlocks` | libs/rapidjson/rapidjson/allocators.h:198-200 | the block at the top of the head chunk overlaps no other |
| `RewardAttribution.CreditsAreUnique` | core_service/src/core_service_libevent.cpp:126-165 | each device is credited online at most once and tickets at most once, each known ip at most once, and each list position takes one device |
| `RewardAttribution.CreditsAreDue` | core_service/src/core_service_libevent.cpp:135-158 | every credit is the stated amount of a device of that address; tickets need a balance of at least 1000 MHC |
| `RewardAttribution.PassedOverHadNothing` | core_service/src/core_service_libevent.cpp:126-165 | a position that got nothing had no device with anything left to give |
| `RewardAttribution.FirstWithSomethingLeftGetsAll` | core_service/src/core_service_libevent.cpp:126-165 | the credits exactly: at each position the first device of the address that has anything left, by the credits given at earlier positions, gets all it has left, online before tickets, and no other device gets any |
| `RewardAttribution.CreditAll` | core_service/src/core_service_libevent.cpp:120-165 | the published totals are the 32-bit sums of the credits |
| `RewardAttribution.CreditDevice` | core_service/src/core_service_libevent.cpp:136-163 | one device: what it gives, what is counted, what is added |
| `RewardAttribution.PublishedIsExact` | core_service/src/core_service_libevent.cpp:126-165 | for the credits of the loops, a published total is their exact sum exactly when that sum fits 32 bits; it never exceeds what the response states for the devices of the address, so it does fit if these amounts add up to less than 2^32 |
| `RewardAttribution.LargeAmountsAreLost` | core_service/src/core_service_libevent.cpp:141-150 | not always: one device that states 2^32 is credited with it, and 0 is published |
| `RewardAttribution.TicketBoundIsSharp` | core_service/src/core_service_libevent.cpp:126-165 | for tickets that bound is sharp: if the amounts of different devices of an address reach 2^32, a list that names the address once for each credits them all and publishes a wrong total |

## Left out

- Memory orders and fences: every access of the queues is one step of a sequentially consistent machine.
- Classes for the concurrent queues: their shared fields are a state value and each atomic access a relation between two states, because a method cannot be interrupted; the model has no aliasing between queues.
- Threads: fewer than 2^31 - 1 on one free list, so that a reference count does not run into the flag bit.
- Wrap-around of queue indexes: indexes are unbounded, and module CircularIndex says when the wrapped comparison is the plain one; a bitwise `& (size - 1)` is a remainder.
- BLOCK_SIZE: fixed at its default of 32.
- Bulk enqueue, throwing element constructors and assignments, queue destruction, move and swap, tokens and consumer rotation.
- Concurrent calls of get_or_add_implicit_producer: calls are atomic, so the retry while another thread resizes is not reached; thread exit is compiled out in this version.
- A bulk dequeue that asks for no elements: claims of the block index machines have at least one index.
- pop of the single-producer queue is try_dequeue without the result; size_approx and the peek of the blocking wrapper are not modelled.
- The kernel semaphore is a counter, spinning and timeouts are nondeterministic choices; the single-consumer semaphore is signalled one permit at a time, its only use here.
- Doubles: a number with a fraction, an exponent or too many digits is its literal, and whether it overflows is an argument; printing doubles is not modelled.
- Parser error codes and offsets, comments, trailing commas, NaN and infinity, validation while parsing, numbers as strings, other encodings than UTF-8 and ASCII, file and iostream wrappers, SIMD.
- The printing of integers (internal/itoa.h): taken to be the canonical decimal numeral.
- Handlers that refuse events while writing, and the stopping of a printer in the middle: Accept is modelled with the writer as its handler.
- Equality of names in FindMember is equality of bytes; Erase, Set and Swap of JSON pointers are not modelled.
- PoolAllocator.MemoryPoolAllocator.Realloc: when the block has to be moved, the sums of the Malloc must fit; otherwise memcpy may be called on overlapping regions, which C++ leaves undefined.
- JsonDocument.ParsedTextIsOneTree: for texts of 2^32 bytes or more counts and lengths are unbounded numbers; NarrowLogIsExact says when SizeType would truncate them. Printing does not need them, but trees and names of 2^32 entries or more are not representable in the source.
- The request and response of the reward service, its timers and the atomic exchange of the published map.
- Schema validation, blocks, the HTTP client, logging, settings and hashing.
