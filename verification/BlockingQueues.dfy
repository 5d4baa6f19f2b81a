/**
 * BlockingConcurrentQueue (libs/moodycamel/blockingconcurrentqueue.h, lines 519-765): a lock-free
 * inner queue in front of which MpmcSemaphore counts the elements.
 *
 * The inner queue is a number of elements; its enqueue adds them in one step, and its
 * try_dequeue_bulk removes up to the number asked for but may, like the original, come back with
 * fewer, even none. Enqueue first adds to the inner queue and then signals; dequeue first acquires
 * permits and then retries the inner queue until it has that many elements. `enqueued` and
 * `dequeued` are history.
 */
module BlockingMpmcQueue {
  import opened Sums
  import Sem = MpmcSemaphore

  type Thread = nat

  datatype Phase =
    | Ready                     // outside any call, or inside a call of the semaphore
    | Unsignalled(count: nat)   // elements are in the inner queue, sema->signal(count) is next
    | Taking(remaining: nat)    // permits acquired, elements not all taken yet

  datatype State = State(sem: Sem.State, items: nat, phase: seq<Phase>, enqueued: nat, dequeued: nat)

  ghost predicate Init(s: State) {
    && Sem.Init(s.sem) && s.sem.initial == 0
    && |s.phase| == |s.sem.pc|
    && s.items == s.enqueued == s.dequeued == 0
    && forall t | 0 <= t < |s.phase| :: s.phase[t] == Ready
  }

  /** enqueue, enqueue_bulk, try_enqueue, ...: the inner queue accepted `count` elements. */
  ghost predicate InnerEnqueue(s: State, s': State, t: Thread, count: nat) {
    && t < |s.phase| == |s.sem.pc| && s.phase[t] == Ready && s.sem.pc[t] == Sem.Idle
    && s' == s.(items := s.items + count, enqueued := s.enqueued + count, phase := s.phase[t := Unsignalled(count)])
  }

  ghost predicate CallSignal(s: State, s': State, t: Thread) {
    && t < |s.phase| && s.phase[t].Unsignalled?
    && Sem.BeginSignal(s.sem, s'.sem, t, s.phase[t].count)
    && s' == s.(sem := s'.sem, phase := s.phase[t := Ready])
  }

  /** try_dequeue, wait_dequeue, wait_dequeue_bulk_timed, ...: ask the semaphore first. */
  ghost predicate CallWait(s: State, s': State, t: Thread, req: Sem.Request) {
    && t < |s.phase| && s.phase[t] == Ready
    && Sem.BeginWait(s.sem, s'.sem, t, req)
    && s' == s.(sem := s'.sem)
  }

  ghost predicate SemaphoreStep(s: State, s': State, t: Thread) {
    && Sem.AtomicStep(s.sem, s'.sem, t)
    && s' == s.(sem := s'.sem)
  }

  ghost predicate WaitReturns(s: State, s': State, t: Thread) {
    && t < |s.phase| && t < |s.sem.pc| && s.sem.pc[t].Done?
    && Sem.Return(s.sem, s'.sem, t)
    && s' == s.(sem := s'.sem, phase := s.phase[t := Taking(s.sem.pc[t].result)])
  }

  /** One round of `while (count != max) count += inner.try_dequeue_bulk(...)`. */
  ghost predicate InnerDequeue(s: State, s': State, t: Thread, taken: nat) {
    && t < |s.phase| && s.phase[t].Taking?
    && taken <= s.phase[t].remaining && taken <= s.items
    && s' == s.(
      items := s.items - taken,
      dequeued := s.dequeued + taken,
      phase := s.phase[t := Taking(s.phase[t].remaining - taken)])
  }

  ghost predicate DequeueReturns(s: State, s': State, t: Thread) {
    && t < |s.phase| && s.phase[t] == Taking(0)
    && s' == s.(phase := s.phase[t := Ready])
  }

  ghost predicate Step(s: State, s': State) {
    || (exists t, count :: InnerEnqueue(s, s', t, count))
    || (exists t :: CallSignal(s, s', t))
    || (exists t, req :: CallWait(s, s', t, req))
    || (exists t :: SemaphoreStep(s, s', t))
    || (exists t :: WaitReturns(s, s', t))
    || (exists t, taken :: InnerDequeue(s, s', t, taken))
    || (exists t :: DequeueReturns(s, s', t))
  }

  // ---------------------------------------------------------------- the invariant

  function ToSignal(p: Phase): nat {
    if p.Unsignalled? then p.count else 0
  }

  function ToTake(p: Phase): nat {
    if p.Taking? then p.remaining else 0
  }

  function Signalling(pc: Sem.Pc): nat {
    if pc.SignalAdd? then pc.permits else 0
  }

  function Held(pc: Sem.Pc): nat {
    Sem.Held(pc)
  }

  predicate PhaseOk(s: State, t: Thread)
    requires t < |s.phase| == |s.sem.pc|
  {
    s.phase[t].Ready? || s.sem.pc[t].Idle?
  }

  ghost predicate Inv(s: State) {
    && Sem.Inv(s.sem) && s.sem.initial == 0
    && |s.phase| == |s.sem.pc|
    && (forall t | 0 <= t < |s.phase| :: PhaseOk(s, t))
    && s.items + s.dequeued == s.enqueued
    && s.enqueued == s.sem.signalled + Sum(s.phase, ToSignal) + Sum(s.sem.pc, Signalling)
    && s.sem.granted == s.dequeued + Sum(s.phase, ToTake) + Sum(s.sem.pc, Held)
  }

  lemma PhaseMoves(s: State, s': State, t: Thread)
    requires t < |s.phase| == |s'.phase| && s'.phase == s.phase[t := s'.phase[t]]
    ensures Sum(s'.phase, ToSignal) == Sum(s.phase, ToSignal) - ToSignal(s.phase[t]) + ToSignal(s'.phase[t])
    ensures Sum(s'.phase, ToTake) == Sum(s.phase, ToTake) - ToTake(s.phase[t]) + ToTake(s'.phase[t])
  {
    SumAfter(s.phase, ToSignal, t, s'.phase[t]);
    SumAfter(s.phase, ToTake, t, s'.phase[t]);
  }

  lemma PcMoves(s: State, s': State, t: Thread)
    requires t < |s.sem.pc| == |s'.sem.pc| && s'.sem.pc == s.sem.pc[t := s'.sem.pc[t]]
    ensures Sum(s'.sem.pc, Signalling)
      == Sum(s.sem.pc, Signalling) - Signalling(s.sem.pc[t]) + Signalling(s'.sem.pc[t])
    ensures Sum(s'.sem.pc, Held) == Sum(s.sem.pc, Held) - Held(s.sem.pc[t]) + Held(s'.sem.pc[t])
  {
    SumAfter(s.sem.pc, Signalling, t, s'.sem.pc[t]);
    SumAfter(s.sem.pc, Held, t, s'.sem.pc[t]);
  }

  lemma InnerStepKeeps(s: State, s': State, t: Thread, n: nat)
    requires Inv(s)
    requires InnerEnqueue(s, s', t, n) || InnerDequeue(s, s', t, n) || DequeueReturns(s, s', t)
    ensures Inv(s')
  {
    PhaseMoves(s, s', t);
    forall u | 0 <= u < |s'.phase|
      ensures PhaseOk(s', u)
    {
      assert PhaseOk(s, u);
    }
  }

  lemma CallKeeps(s: State, s': State, t: Thread, req: Sem.Request)
    requires Inv(s)
    requires CallSignal(s, s', t) || CallWait(s, s', t, req) || WaitReturns(s, s', t)
    ensures Inv(s')
  {
    assert PhaseOk(s, t);
    PhaseMoves(s, s', t);
    PcMoves(s, s', t);
    Sem.CallBoundaryKeeps(s.sem, s'.sem, t, s'.sem.pc[t]);
    forall u | 0 <= u < |s'.phase|
      ensures PhaseOk(s', u)
    {
      assert PhaseOk(s, u);
    }
  }

  lemma SemaphoreStepKeeps(s: State, s': State, t: Thread)
    requires Inv(s) && t < |s.sem.pc| && SemaphoreStep(s, s', t)
    ensures Inv(s')
  {
    Sem.AtomicStepKeeps(s.sem, s'.sem, t);
    PcMoves(s, s', t);
    forall u | 0 <= u < |s'.phase|
      ensures PhaseOk(s', u)
    {
      assert PhaseOk(s, u);
    }
    assert !s.sem.pc[t].Idle?;
  }

  lemma StepKeeps(s: State, s': State)
    requires Inv(s) && Step(s, s')
    ensures Inv(s')
  {
    var any := Sem.Request(0, Sem.TryOnly);
    if t: Thread, n: nat :| InnerEnqueue(s, s', t, n) {
      InnerStepKeeps(s, s', t, n);
    } else if t: Thread :| CallSignal(s, s', t) {
      CallKeeps(s, s', t, any);
    } else if t: Thread, req :| CallWait(s, s', t, req) {
      CallKeeps(s, s', t, req);
    } else if t: Thread :| SemaphoreStep(s, s', t) {
      SemaphoreStepKeeps(s, s', t);
    } else if t: Thread :| WaitReturns(s, s', t) {
      CallKeeps(s, s', t, any);
    } else if t: Thread, n: nat :| InnerDequeue(s, s', t, n) {
      InnerStepKeeps(s, s', t, n);
    } else {
      var t: Thread :| DequeueReturns(s, s', t);
      InnerStepKeeps(s, s', t, 0);
    }
  }

  // ---------------------------------------------------------------- results over whole runs

  ghost predicate IsRun(run: seq<State>) {
    && run != []
    && Init(run[0])
    && forall i | 0 <= i < |run| - 1 :: Step(run[i], run[i + 1])
  }

  lemma {:induction false} RunKeepsInvariant(run: seq<State>, i: nat)
    requires IsRun(run) && i < |run|
    ensures Inv(run[i])
  {
    if i == 0 {
      var s := run[0];
      Sem.InitKeeps(s.sem);
      SumOfZeros(s.phase, ToSignal);
      SumOfZeros(s.phase, ToTake);
      SumOfZeros(s.sem.pc, Signalling);
      SumOfZeros(s.sem.pc, Held);
      assert forall t | 0 <= t < |s.phase| :: PhaseOk(s, t);
    } else {
      RunKeepsInvariant(run, i - 1);
      StepKeeps(run[i - 1], run[i]);
    }
  }

  /** The exact census of the inner queue. Every element is covered by a permit that is being
      signalled, is available, or has been granted and not used yet. */
  lemma ElementsMatchPermits(run: seq<State>, i: nat)
    requires IsRun(run) && i < |run|
    ensures var s := run[i];
      s.items == Sum(s.phase, ToSignal) + Sum(s.sem.pc, Signalling) + Sem.Available(s.sem)
                 + Sum(s.sem.pc, Held) + Sum(s.phase, ToTake)
  {
    RunKeepsInvariant(run, i);
  }

  /** All permits that were granted and not used yet, those of calls that have not returned from the
      semaphore included, are backed by elements at once. So the retry loop of each holder always has
      something to find, whatever the others take. */
  lemma GrantedElementsAreReserved(run: seq<State>, i: nat)
    requires IsRun(run) && i < |run|
    ensures var s := run[i];
      && Sum(s.phase, ToTake) + Sum(s.sem.pc, Held) <= s.items
      && forall t | 0 <= t < |s.phase| :: ToTake(s.phase[t]) <= s.items
  {
    RunKeepsInvariant(run, i);
    forall t | 0 <= t < |run[i].phase|
      ensures ToTake(run[i].phase[t]) <= run[i].items
    {
      SumAfter(run[i].phase, ToTake, t, run[i].phase[t]);
    }
  }

  /** And a thread can sleep in wait_dequeue only while every element in the queue is already
      promised to another thread or about to be signalled. */
  lemma SleepersLeaveNothingUnclaimed(run: seq<State>, i: nat, t: Thread)
    requires IsRun(run) && i < |run| && t < |run[i].sem.pc| && Sem.Waiting(run[i].sem.pc[t]) == 1
    requires run[i].sem.kernel == 0 && Sum(run[i].sem.pc, Sem.Unposted) == 0
    ensures var s := run[i];
      s.items == Sum(s.phase, ToSignal) + Sum(s.sem.pc, Signalling) + Sum(s.sem.pc, Held) + Sum(s.phase, ToTake)
  {
    RunKeepsInvariant(run, i);
    SumAfter(run[i].sem.pc, Sem.Waiting, t, run[i].sem.pc[t]);
  }

  // ---------------------------------------------------------------- what an empty-handed call has seen

  function Semaphores(run: seq<State>): (r: seq<Sem.State>)
    ensures |r| == |run| && forall i :: 0 <= i < |run| ==> r[i] == run[i].sem
  {
    seq(|run|, i requires 0 <= i < |run| => run[i].sem)
  }

  lemma SemaphoreMoves(s: State, s': State)
    requires Step(s, s')
    ensures s'.sem == s.sem || Sem.Step(s.sem, s'.sem)
  {
  }

  lemma SemaphoresAreTrace(run: seq<State>)
    requires IsRun(run)
    ensures Sem.IsTrace(Semaphores(run))
  {
    hide Step, Sem.Step;
    forall i | 0 <= i < |run| - 1
      ensures run[i + 1].sem == run[i].sem || Sem.Step(run[i].sem, run[i + 1].sem)
    {
      SemaphoreMoves(run[i], run[i + 1]);
    }
  }

  /**
   * Main result: a dequeue that gets fewer elements than it asked for, or none, saw a moment at which every element in
   * the queue was spoken for: granted to some call, about to be signalled, or with its token on the way to a sleeper.
   */
  lemma ShortDequeueMeansAllSpokenFor(run: seq<State>, b: nat, r: nat, t: Thread, req: Sem.Request) returns (m: nat)
    requires IsRun(run) && b < r < |run| - 1
    requires CallWait(run[b], run[b + 1], t, req) && WaitReturns(run[r], run[r + 1], t)
    requires Sem.Inside(Semaphores(run), b, r, t) && run[r].sem.pc[t].result < req.max
    ensures b < m <= r
    ensures var s := run[m];
      s.items == Sum(s.phase, ToSignal) + Sum(s.sem.pc, Signalling) + s.sem.kernel + Sum(s.sem.pc, Sem.Unposted)
                 + Sum(s.sem.pc, Held) + Sum(s.phase, ToTake)
  {
    hide Step, Init;
    SemaphoresAreTrace(run);
    m := Sem.ShortResultMeansNoPermits(Semaphores(run), b, r, t, req);
    ElementsMatchPermits(run, m);
  }
}

/**
 * BlockingReaderWriterQueue (libs/moodycamel/readerwriterqueue.h, lines 648-800) over the simpler
 * semaphore of libs/moodycamel/atomicops.h (lines 566-665), for one producer and one consumer.
 *
 * That semaphore never compares and swaps: the consumer decrements and, after a timeout, increments
 * and decrements again, relying on being the only one. One transition is one access to m_count, to
 * the kernel semaphore, or one operation of the inner queue. `granted` and `signalled` are history.
 */
module BlockingSpscQueue {

  datatype Mode = TryOnly | Forever | Timed

  datatype Consumer =
    | Idle
    | TryLoad(mode: Mode)       // m_count.load() > 0
    | TrySubtract(mode: Mode)   // fetch_add(-1) after a positive load
    | SpinLoad(mode: Mode)
    | Subtract(mode: Mode)      // fetch_add(-1) after the spin loop
    | Sleep(mode: Mode)
    | RollAdd                   // timed out: fetch_add(1)
    | RollSubtract              // it was signalled after all: fetch_add(-1)
    | RollTryWait
    | Take                      // permit acquired, inner.try_dequeue is next

  datatype Producer =
    | Ready
    | Signal                    // inner.enqueue succeeded, m_count.fetch_add(1) is next
    | Post                      // the kernel semaphore is to be posted once

  datatype State = State(
    count: int,
    kernel: nat,
    consumer: Consumer,
    producer: Producer,
    items: nat,
    granted: nat,
    signalled: nat)

  ghost predicate Init(s: State) {
    s == State(0, 0, Idle, Ready, 0, 0, 0)
  }

  ghost predicate InnerEnqueue(s: State, s': State) {
    && s.producer == Ready
    && s' == s.(items := s.items + 1, producer := Signal)
  }

  ghost predicate DoSignal(s: State, s': State) {
    && s.producer == Signal
    && s' == s.(
      count := s.count + 1,
      signalled := s.signalled + 1,
      producer := if s.count < 0 then Post else Ready)
  }

  ghost predicate DoPost(s: State, s': State) {
    && s.producer == Post
    && s' == s.(kernel := s.kernel + 1, producer := Ready)
  }

  ghost predicate BeginDequeue(s: State, s': State, mode: Mode) {
    && s.consumer == Idle
    && s' == s.(consumer := TryLoad(mode))
  }

  ghost predicate DoTryLoad(s: State, s': State) {
    && s.consumer.TryLoad?
    && var mode := s.consumer.mode;
    && s' == s.(consumer :=
      if s.count > 0 then TrySubtract(mode) else if mode == TryOnly then Idle else SpinLoad(mode))
  }

  ghost predicate DoSpinLoad(s: State, s': State) {
    && s.consumer.SpinLoad?
    && var mode := s.consumer.mode;
    && if s.count > 0 then
         s' == s.(consumer := TrySubtract(mode))
       else
         s' == s || s' == s.(consumer := Subtract(mode))
  }

  /** fetch_add(-1) whose old value the code does not look at. */
  ghost predicate DoTrySubtract(s: State, s': State) {
    && s.consumer.TrySubtract?
    && s' == s.(count := s.count - 1, granted := s.granted + 1, consumer := Take)
  }

  ghost predicate DoSubtract(s: State, s': State) {
    && s.consumer.Subtract?
    && var mode := s.consumer.mode;
    && if s.count > 0 then
         s' == s.(count := s.count - 1, granted := s.granted + 1, consumer := Take)
       else
         s' == s.(count := s.count - 1, consumer := Sleep(mode))
  }

  ghost predicate TakeKernelToken(s: State, s': State) {
    && (s.consumer.Sleep? || s.consumer == RollTryWait)
    && s.kernel > 0
    && s' == s.(kernel := s.kernel - 1, granted := s.granted + 1, consumer := Take)
  }

  ghost predicate TimeOut(s: State, s': State) {
    && s.consumer == Sleep(Timed)
    && s' == s.(consumer := RollAdd)
  }

  ghost predicate DoRollAdd(s: State, s': State) {
    && s.consumer == RollAdd
    && s' == s.(count := s.count + 1, consumer := if s.count < 0 then Idle else RollSubtract)
  }

  ghost predicate DoRollSubtract(s: State, s': State) {
    && s.consumer == RollSubtract
    && s' == s.(count := s.count - 1, consumer := if s.count > 0 then RollTryWait else RollAdd)
  }

  ghost predicate RollTryWaitFails(s: State, s': State) {
    && s.consumer == RollTryWait && s.kernel == 0
    && s' == s.(consumer := RollAdd)
  }

  /** inner.try_dequeue, which fails only on an empty queue; the caller asserts that it succeeds. */
  ghost predicate InnerDequeue(s: State, s': State) {
    && s.consumer == Take
    && s' == s.(items := if s.items > 0 then s.items - 1 else 0, consumer := Idle)
  }

  ghost predicate Step(s: State, s': State) {
    || InnerEnqueue(s, s')
    || DoSignal(s, s')
    || DoPost(s, s')
    || (exists mode :: BeginDequeue(s, s', mode))
    || DoTryLoad(s, s')
    || DoSpinLoad(s, s')
    || DoTrySubtract(s, s')
    || DoSubtract(s, s')
    || TakeKernelToken(s, s')
    || TimeOut(s, s')
    || DoRollAdd(s, s')
    || DoRollSubtract(s, s')
    || RollTryWaitFails(s, s')
    || InnerDequeue(s, s')
  }

  // ---------------------------------------------------------------- the invariant

  function Bit(b: bool): nat {
    if b then 1 else 0
  }

  function Positive(x: int): (r: nat) {
    if x > 0 then x else 0
  }

  /** The consumer has decremented the count for a wait that is neither granted nor undone. */
  predicate Waiting(s: State) {
    s.consumer.Sleep? || s.consumer == RollAdd || s.consumer == RollSubtract || s.consumer == RollTryWait
  }

  /** The count without the increment that a rolling-back consumer is about to take out again. */
  function TrueCount(s: State): int {
    s.count - Bit(s.consumer == RollSubtract)
  }

  ghost predicate Inv(s: State) {
    && s.signalled == s.granted + Positive(TrueCount(s)) + s.kernel + Bit(s.producer == Post)
    && Bit(Waiting(s)) == Positive(-TrueCount(s)) + s.kernel + Bit(s.producer == Post)
    && (s.consumer.TrySubtract? ==> s.count > 0)
    && ((s.consumer == RollSubtract || s.consumer == RollTryWait) ==> TrueCount(s) >= 0)
    && s.items == s.signalled + Bit(s.producer == Signal) - s.granted + Bit(s.consumer == Take)
  }

  lemma ProducerKeeps(s: State, s': State)
    requires Inv(s) && (InnerEnqueue(s, s') || DoSignal(s, s') || DoPost(s, s'))
    ensures Inv(s')
  {
  }

  lemma WaitKeeps(s: State, s': State)
    requires Inv(s)
    requires DoTryLoad(s, s') || DoSpinLoad(s, s') || DoTrySubtract(s, s') || DoSubtract(s, s')
    ensures Inv(s')
  {
  }

  lemma WakeKeeps(s: State, s': State)
    requires Inv(s)
    requires
      || TakeKernelToken(s, s') || TimeOut(s, s') || DoRollAdd(s, s') || DoRollSubtract(s, s')
      || RollTryWaitFails(s, s') || InnerDequeue(s, s')
    ensures Inv(s')
  {
  }

  lemma StepKeeps(s: State, s': State)
    requires Inv(s) && Step(s, s')
    ensures Inv(s')
  {
    if InnerEnqueue(s, s') || DoSignal(s, s') || DoPost(s, s') {
      ProducerKeeps(s, s');
    } else if DoTryLoad(s, s') || DoSpinLoad(s, s') || DoTrySubtract(s, s') || DoSubtract(s, s') {
      WaitKeeps(s, s');
    } else if mode :| BeginDequeue(s, s', mode) {
    } else {
      WakeKeeps(s, s');
    }
  }

  ghost predicate IsRun(run: seq<State>) {
    && run != []
    && Init(run[0])
    && forall i | 0 <= i < |run| - 1 :: Step(run[i], run[i + 1])
  }

  lemma {:induction false} RunKeepsInvariant(run: seq<State>, i: nat)
    requires IsRun(run) && i < |run|
    ensures Inv(run[i])
  {
    if i > 0 {
      RunKeepsInvariant(run, i - 1);
      StepKeeps(run[i - 1], run[i]);
    }
  }

  /** The asserts of the source: signal finds the count at -1 or above, and an inner dequeue that
      follows a granted permit finds an element. */
  lemma AssertsHold(run: seq<State>, i: nat)
    requires IsRun(run) && i < |run|
    ensures run[i].count >= -1
    ensures run[i].consumer == Take ==> run[i].items > 0
  {
    RunKeepsInvariant(run, i);
  }

  /** After a timeout the second decrement always finds the count positive again, and then the
      kernel token is there or is about to be posted. */
  lemma RollbackIsOwedAToken(run: seq<State>, i: nat)
    requires IsRun(run) && i < |run|
    ensures run[i].consumer == RollSubtract ==> run[i].count > 0
    ensures run[i].consumer == RollTryWait ==> run[i].kernel == 1 || run[i].producer == Post
  {
    RunKeepsInvariant(run, i);
  }

  /** The consumer never sleeps on an element: with no token on the way, a waiting consumer means
      that the queue is empty but for an element whose signal is still to come. */
  lemma NoSleepOnElements(run: seq<State>, i: nat)
    requires IsRun(run) && i < |run|
    requires Waiting(run[i]) && run[i].kernel == 0 && run[i].producer != Post
    ensures run[i].items == Bit(run[i].producer == Signal)
  {
    RunKeepsInvariant(run, i);
  }

  // ---------------------------------------------------------------- what an empty-handed call has seen

  predicate NoneAt(run: seq<State>, m: nat) {
    m < |run| && run[m].count <= 0 && (run[m].consumer.TryLoad? || run[m].consumer.Subtract?)
  }

  /** At some moment after `b` and before `i` the consumer was about to test or decrement a count that was not
      positive. */
  ghost predicate NoneSeen(run: seq<State>, b: nat, i: nat) {
    exists m :: b < m < i && NoneAt(run, m)
  }

  lemma SeenLater(run: seq<State>, b: nat, i: nat)
    requires NoneSeen(run, b, i)
    ensures NoneSeen(run, b, i + 1)
  {
  }

  /** A call that waits, or returns without an element, has seen the count not positive. */
  lemma WaiterHasSeen(run: seq<State>, b: nat, i: nat)
    requires b < i < |run| - 1 && run[i].consumer != Idle && Step(run[i], run[i + 1])
    requires Waiting(run[i]) ==> NoneSeen(run, b, i)
    ensures Waiting(run[i + 1]) ==> NoneSeen(run, b, i + 1)
    ensures run[i + 1].consumer == Idle && run[i].consumer != Take ==> NoneSeen(run, b, i + 1)
  {
    if NoneSeen(run, b, i) {
      SeenLater(run, b, i);
    }
    if run[i].count <= 0 && (run[i].consumer.TryLoad? || run[i].consumer.Subtract?) {
      assert NoneAt(run, i);
    }
    hide NoneSeen;
  }

  lemma {:induction false} CallHasSeen(run: seq<State>, b: nat, i: nat, mode: Mode)
    requires IsRun(run) && b < i < |run| && BeginDequeue(run[b], run[b + 1], mode)
    requires forall j | b < j <= i :: run[j].consumer != Idle
    ensures Waiting(run[i]) ==> NoneSeen(run, b, i)
  {
    if b + 1 < i {
      CallHasSeen(run, b, i - 1, mode);
      hide Waiting;
      WaiterHasSeen(run, b, i - 1);
    }
  }

  /** Main result: a dequeue that returns without an element, because it only tries or because it timed out, saw a
      moment at which the queue was empty but for an element whose signal is still to come. */
  lemma FailureMeansEmpty(run: seq<State>, b: nat, r: nat, mode: Mode) returns (m: nat)
    requires IsRun(run) && b < r < |run| - 1 && BeginDequeue(run[b], run[b + 1], mode)
    requires forall j | b < j <= r :: run[j].consumer != Idle
    requires run[r + 1].consumer == Idle && run[r].consumer != Take
    ensures b < m <= r && run[m].items == Bit(run[m].producer == Signal)
  {
    hide Step;
    CallHasSeen(run, b, r, mode);
    WaiterHasSeen(run, b, r);
    m :| b < m < r + 1 && NoneAt(run, m);
    RunKeepsInvariant(run, m);
  }
}
