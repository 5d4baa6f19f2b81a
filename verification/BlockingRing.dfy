/**
 * BlockingReaderWriterQueue over the real ReaderWriterQueue (libs/moodycamel/readerwriterqueue.h, lines
 * 648-750): module BlockingSpscQueue, whose inner queue is a number of elements, run together with module
 * SpscQueue, whose calls take many steps.
 *
 * The element counts for the wrapper from the step that publishes it to the step that releases its slot.
 * The consumer calls the inner queue only with a permit in hand. Nothing is presumed about the result of
 * that call; the main result is that it is never a failure, which the wrapper asserts.
 */
module BlockingRing {
  import W = BlockingSpscQueue
  import Q = SpscQueue

  datatype State = State(w: W.State, q: Q.State)

  ghost predicate Init(s: State, n: nat, size: nat) {
    W.Init(s.w) && Q.Init(s.q, n, size) && !s.q.peeking
  }

  /** A step of the semaphore, or of the wrapper around it. */
  ghost predicate OuterStep(s: State, s': State) {
    && s'.q == s.q
    && (|| W.DoSignal(s.w, s'.w)
        || W.DoPost(s.w, s'.w)
        || (exists mode :: W.BeginDequeue(s.w, s'.w, mode))
        || W.DoTryLoad(s.w, s'.w)
        || W.DoSpinLoad(s.w, s'.w)
        || W.DoTrySubtract(s.w, s'.w)
        || W.DoSubtract(s.w, s'.w)
        || W.TakeKernelToken(s.w, s'.w)
        || W.TimeOut(s.w, s'.w)
        || W.DoRollAdd(s.w, s'.w)
        || W.DoRollSubtract(s.w, s'.w)
        || W.RollTryWaitFails(s.w, s'.w))
  }

  ghost predicate BeginEnqueue(s: State, s': State, e: Q.Elem, mode: Q.Alloc) {
    s.w.producer == W.Ready && Q.BeginEnqueue(s.q, s'.q, e, mode) && s'.w == s.w
  }

  ghost predicate ProducerStep(s: State, s': State) {
    && s.w.producer == W.Ready && Q.ProducerStep(s.q, s'.q)
    && if |s'.q.enqueued| > |s.q.enqueued| then W.InnerEnqueue(s.w, s'.w) else s'.w == s.w
  }

  ghost predicate BeginDequeue(s: State, s': State) {
    s.w.consumer == W.Take && Q.BeginDequeue(s.q, s'.q) && s'.w == s.w
  }

  /** A step of the inner try_dequeue; a failure would send the caller home without an element. */
  ghost predicate ConsumerStep(s: State, s': State) {
    && s.w.consumer == W.Take && Q.ConsumerStep(s.q, s'.q)
    && (if |s'.q.dequeued| > |s.q.dequeued| then W.InnerDequeue(s.w, s'.w)
        else if s.q.c.CFoundEmpty? then s'.w == s.w.(consumer := W.Idle)
        else s'.w == s.w)
  }

  ghost predicate Step(s: State, s': State) {
    || OuterStep(s, s')
    || (exists e, mode :: BeginEnqueue(s, s', e, mode))
    || ProducerStep(s, s')
    || BeginDequeue(s, s')
    || ConsumerStep(s, s')
  }

  // ---------------------------------------------------------------- the invariant

  /** What the two machines know of each other. */
  predicate Linked(w: W.State, q: Q.State) {
    && w.items == |q.enqueued| - |q.dequeued|
    && (w.consumer != W.Take ==> q.c == Q.CIdle)
    && (w.producer != W.Ready ==> q.p == Q.PIdle)
    && !q.peeking
    && (q.c.CLoadTailBlock? ==> !q.c.wasEmpty)
    && !q.c.CFoundEmpty? && !q.c.CShown?
  }

  ghost predicate Inv(s: State) {
    W.Inv(s.w) && Q.Inv(s.q) && Linked(s.w, s.q)
  }

  lemma OuterKeeps(s: State, s': State)
    requires Inv(s) && OuterStep(s, s')
    ensures Inv(s')
  {
    hide Q.Inv;
    assert W.Step(s.w, s'.w);
    W.StepKeeps(s.w, s'.w);
  }

  lemma BeginEnqueueKeeps(s: State, s': State, e: Q.Elem, mode: Q.Alloc)
    requires Inv(s) && BeginEnqueue(s, s', e, mode)
    ensures Inv(s')
  {
    hide Q.Inv, W.Inv;
    Q.BeginsKeep(s.q, s'.q, e, mode);
  }

  /** The history of a step of the inner queue's producer: it publishes its element, or changes nothing. */
  lemma ProducerPublishes(q: Q.State, q': Q.State)
    requires Q.ProducerStep(q, q')
    ensures q'.dequeued == q.dequeued && q'.c == q.c && q'.peeking == q.peeking
    ensures q'.enqueued == q.enqueued || (|q'.enqueued| == |q.enqueued| + 1 && q'.p == Q.PIdle)
  {
  }

  lemma ProducerKeeps(s: State, s': State)
    requires Inv(s) && ProducerStep(s, s')
    ensures Inv(s')
  {
    hide Q.Inv, Q.ProducerStep;
    Q.ProducerStepKeeps(s.q, s'.q);
    ProducerPublishes(s.q, s'.q);
    if |s'.q.enqueued| > |s.q.enqueued| {
      W.ProducerKeeps(s.w, s'.w);
    }
  }

  lemma BeginDequeueKeeps(s: State, s': State)
    requires Inv(s) && BeginDequeue(s, s')
    ensures Inv(s')
  {
    hide Q.Inv, W.Inv;
    Q.BeginsKeep(s.q, s'.q, 0, Q.CannotAlloc);
  }

  /** The history of a step of the inner queue's consumer, which never finds a queue empty that is not. */
  lemma ConsumerFinds(q: Q.State, q': Q.State)
    requires Q.Inv(q) && Q.ConsumerStep(q, q') && q.enqueued != q.dequeued && !q.peeking
    requires !q.c.CFoundEmpty? && (q.c.CLoadTailBlock? ==> !q.c.wasEmpty)
    ensures q'.enqueued == q.enqueued && q'.p == q.p && !q'.peeking
    ensures q'.dequeued == q.dequeued || (|q'.dequeued| == |q.dequeued| + 1 && q'.c == Q.CIdle)
    ensures !q'.c.CFoundEmpty? && !q'.c.CShown? && (q'.c.CLoadTailBlock? ==> !q'.c.wasEmpty)
  {
    hide Q.AllPositionsOk, Q.CapacityOk, Q.Contents;
    if q.c.CLoadTailBlock? {
      assert q.span > 0 && q.ring[0] != q.ring[q.span];
    }
  }

  lemma ConsumerKeeps(s: State, s': State)
    requires Inv(s) && ConsumerStep(s, s')
    ensures Inv(s')
  {
    hide Q.Inv, Q.ConsumerStep;
    assert s.w.items > 0;
    Q.ConsumerStepKeeps(s.q, s'.q);
    ConsumerFinds(s.q, s'.q);
    if |s'.q.dequeued| > |s.q.dequeued| {
      W.WakeKeeps(s.w, s'.w);
    }
  }

  lemma StepKeeps(s: State, s': State)
    requires Inv(s) && Step(s, s')
    ensures Inv(s')
  {
    hide Inv, OuterStep, BeginEnqueue, ProducerStep, BeginDequeue, ConsumerStep;
    if {
      case OuterStep(s, s') => OuterKeeps(s, s');
      case exists e, mode :: BeginEnqueue(s, s', e, mode) =>
        var e, mode :| BeginEnqueue(s, s', e, mode);
        BeginEnqueueKeeps(s, s', e, mode);
      case ProducerStep(s, s') => ProducerKeeps(s, s');
      case BeginDequeue(s, s') => BeginDequeueKeeps(s, s');
      case ConsumerStep(s, s') => ConsumerKeeps(s, s');
    }
  }

  // ---------------------------------------------------------------- results over whole runs

  ghost predicate IsRun(run: seq<State>) {
    && run != []
    && run[0].q.maxSize > 0 && run[0].q.maxBlock >= 2
    && Init(run[0], Q.Layout(run[0].q.maxSize, run[0].q.maxBlock).0, Q.Layout(run[0].q.maxSize, run[0].q.maxBlock).1)
    && forall i | 0 <= i < |run| - 1 :: Step(run[i], run[i + 1])
  }

  lemma InitKeeps(s: State)
    requires s.q.maxSize > 0 && s.q.maxBlock >= 2
    requires Init(s, Q.Layout(s.q.maxSize, s.q.maxBlock).0, Q.Layout(s.q.maxSize, s.q.maxBlock).1)
    ensures Inv(s)
  {
    var (n, size) := Q.Layout(s.q.maxSize, s.q.maxBlock);
    Q.LayoutSuffices(s.q.maxSize, s.q.maxBlock);
    hide Q.Inv, Q.Layout;
    Q.InitKeeps(s.q, n, size);
  }

  lemma {:induction false} RunKeepsInvariant(run: seq<State>, i: nat)
    requires IsRun(run) && i < |run|
    ensures Inv(run[i])
  {
    hide Inv, Init, Step;
    if i == 0 {
      InitKeeps(run[0]);
    } else {
      RunKeepsInvariant(run, i - 1);
      StepKeeps(run[i - 1], run[i]);
    }
  }

  /**
   * Main result: the try_dequeue that follows a granted permit never comes back empty-handed, and what the
   * blocking queue hands out are the elements put in, in their order.
   */
  lemma GrantedDequeueSucceeds(run: seq<State>, i: nat)
    requires IsRun(run) && i < |run|
    ensures !run[i].q.c.CFoundEmpty?
    ensures run[i].w.consumer == W.Take ==> run[i].q.enqueued != run[i].q.dequeued
    ensures run[i].q.dequeued <= run[i].q.enqueued
  {
    RunKeepsInvariant(run, i);
  }

  /** And the number of elements that the wrapper counts is the number in the blocks. */
  lemma CountIsContents(run: seq<State>, i: nat)
    requires IsRun(run) && i < |run|
    ensures Q.Shape(run[i].q) && run[i].w.items == |Q.Contents(run[i].q)|
  {
    RunKeepsInvariant(run, i);
  }
}
