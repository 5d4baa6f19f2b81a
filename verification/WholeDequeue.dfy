/**
 * The dequeue of an explicit producer as a whole (libs/moodycamel/concurrentqueue.h:1885-1983, 2170-2261):
 * module DequeueCounters, which hands out indexes, run together with module BlockIndex, which finds their
 * elements. The guard of the latter's claims is not presumed here but proved.
 */
module ExplicitDequeue {
  import C = DequeueCounters
  import B = BlockIndex

  type Thread = nat

  datatype State = State(c: C.State, b: B.State)

  ghost predicate Init(s: State) {
    C.Init(s.c) && B.Init(s.b) && |s.c.pc| == |s.b.pc|
  }

  /** headIndex.fetch_add hands out the next indexes, whether or not there are elements at them. */
  ghost predicate Grant(b: B.State, b': B.State, t: Thread, count: nat) {
    && t < |b.pc| && b.pc[t] == B.Idle
    && b' == b.(head := b.head + count, pc := b.pc[t := B.Claimed(b.head, b.head + count)])
  }

  ghost predicate Produce(s: State, s': State) {
    && s'.c == s.c && s'.b.tail == s.b.tail
    && ((exists e, a :: B.BeginEnqueue(s.b, s'.b, e, a)) || B.ProducerStep(s.b, s'.b))
  }

  /** tailIndex.store */
  ghost predicate Publish(s: State, s': State) {
    B.DoStoreTail(s.b, s'.b) && C.Enqueue(s.c, s'.c, 1)
  }

  ghost predicate Begin(s: State, s': State, t: Thread, max: nat) {
    max > 0 && C.Begin(s.c, s'.c, t, max) && s'.b == s.b
  }

  /** An access to the counters, except the one that hands out indexes. */
  ghost predicate Count(s: State, s': State, t: Thread) {
    && s'.b == s.b
    && (|| C.DoLoad(s.c, s'.c, t)
        || C.DoAddOptimistic(s.c, s'.c, t)
        || C.DoReloadTail(s.c, s'.c, t)
        || C.DoGiveBack(s.c, s'.c, t))
  }

  ghost predicate Claim(s: State, s': State, t: Thread) {
    C.DoAddHead(s.c, s'.c, t) && Grant(s.b, s'.b, t, s.c.pc[t].actual)
  }

  /** A step of the look-up and the walk. */
  ghost predicate Work(s: State, s': State, t: Thread) {
    && s'.c == s.c
    && (|| B.DoLoadHeader(s.b, s'.b, t)
        || B.DoLoadFront(s.b, s'.b, t)
        || B.DoLoadBase(s.b, s'.b, t)
        || B.DoLoadBlock(s.b, s'.b, t)
        || B.DoMoveOut(s.b, s'.b, t)
        || B.DoSetEmpty(s.b, s'.b, t))
  }

  ghost predicate Return(s: State, s': State, t: Thread) {
    C.DoReturn(s.c, s'.c, t) && B.DoReturn(s.b, s'.b, t)
  }

  ghost predicate Step(s: State, s': State) {
    || Produce(s, s')
    || Publish(s, s')
    || (exists t, max :: Begin(s, s', t, max))
    || (exists t :: Count(s, s', t) || Claim(s, s', t) || Work(s, s', t) || Return(s, s', t))
  }

  // ---------------------------------------------------------------- the invariant

  /** Calls that ask for an element do not end up with a claim of none. */
  predicate AsksForSome(p: C.Pc) {
    match p
    case LoadTail(max) => max > 0
    case LoadOvercommit(max, _) => max > 0
    case LoadOptimistic(max, _, _) => max > 0
    case AddOptimistic(desired, _) => desired > 0
    case ReloadTail(desired, _, _) => desired > 0
    case GiveBackSome(actual, _, _) => actual > 0
    case AddHead(actual) => actual > 0
    case _ => true
  }

  /** A thread works off exactly the claim that the counters gave it. */
  predicate Linked(p: C.Pc, q: B.Consumer) {
    && AsksForSome(p)
    && (p.Claimed? <==> !q.Idle?)
    && (p.Claimed? ==> q.first == p.first && q.stop == p.first + p.count)
  }

  ghost predicate AllLinked(s: State) {
    && |s.c.pc| == |s.b.pc|
    && (forall t | 0 <= t < |s.c.pc| :: Linked(s.c.pc[t], s.b.pc[t]))
    && s.c.tail == s.b.tail && s.c.head == s.b.head
  }

  ghost predicate Inv(s: State) {
    C.Inv(s.c) && B.Inv(s.b) && AllLinked(s)
  }

  /** The guard of the index machine holds because of the counters. */
  lemma GrantIsClaim(s: State, s': State, t: Thread)
    requires Inv(s) && Claim(s, s', t)
    ensures B.Claim(s.b, s'.b, t, s.c.pc[t].actual)
  {
    hide B.Inv;
    assert Linked(s.c.pc[t], s.b.pc[t]);
    C.ClaimIsBelowTail(s.c, t);
  }

  /** One thread moves on in one machine or in both. */
  lemma LinkedMoves(s: State, s': State, t: Thread)
    requires AllLinked(s) && t < |s.c.pc| && |s'.c.pc| == |s.c.pc| && |s'.b.pc| == |s.b.pc|
    requires forall u | 0 <= u < |s.c.pc| && u != t :: s'.c.pc[u] == s.c.pc[u] && s'.b.pc[u] == s.b.pc[u]
    requires Linked(s'.c.pc[t], s'.b.pc[t])
    requires s'.c.tail == s'.b.tail && s'.c.head == s'.b.head
    ensures AllLinked(s')
  {
    forall u | 0 <= u < |s'.c.pc|
      ensures Linked(s'.c.pc[u], s'.b.pc[u])
    {
      assert Linked(s.c.pc[u], s.b.pc[u]);
    }
  }

  lemma ProduceKeeps(s: State, s': State)
    requires Inv(s) && (Produce(s, s') || Publish(s, s'))
    ensures Inv(s')
  {
    ProducerLeavesConsumers(s.b, s'.b);
    hide C.Inv, B.Inv, B.ProducerStep, B.BeginEnqueue, B.DoStoreTail;
    assert B.Step(s.b, s'.b);
    B.StepKeeps(s.b, s'.b);
    if Publish(s, s') {
      assert C.Step(s.c, s'.c);
      C.StepKeeps(s.c, s'.c);
    }
  }

  lemma ProducerLeavesConsumers(b: B.State, b': B.State)
    requires B.ProducerStep(b, b') || B.DoStoreTail(b, b') || exists e, a :: B.BeginEnqueue(b, b', e, a)
    ensures b'.pc == b.pc && b'.head == b.head
    ensures B.DoStoreTail(b, b') ==> B.ProducerStep(b, b') && b'.tail == b.tail + 1
  {
  }

  lemma CountKeeps(s: State, s': State, t: Thread, max: nat)
    requires Inv(s) && (Begin(s, s', t, max) || Count(s, s', t))
    ensures Inv(s')
  {
    hide C.Inv, B.Inv;
    assert C.ConsumerStep(s.c, s'.c, t) || C.Begin(s.c, s'.c, t, max);
    assert C.Step(s.c, s'.c);
    C.StepKeeps(s.c, s'.c);
    assert Linked(s.c.pc[t], s.b.pc[t]);
    LinkedMoves(s, s', t);
  }

  lemma ClaimKeeps(s: State, s': State, t: Thread)
    requires Inv(s) && Claim(s, s', t)
    ensures Inv(s')
  {
    GrantIsClaim(s, s', t);
    hide C.Inv, B.Inv;
    assert C.ConsumerStep(s.c, s'.c, t) && B.ConsumerStep(s.b, s'.b, t);
    assert C.Step(s.c, s'.c) && B.Step(s.b, s'.b);
    C.StepKeeps(s.c, s'.c);
    B.StepKeeps(s.b, s'.b);
    LinkedMoves(s, s', t);
  }

  lemma WorkKeepsClaim(b: B.State, b': B.State, t: Thread, s: State, s': State)
    requires Work(s, s', t) && s.b == b && s'.b == b'
    ensures t < |b.pc| == |b'.pc| && b'.pc == b.pc[t := b'.pc[t]] && b'.head == b.head && b'.tail == b.tail
    ensures !b.pc[t].Idle? && !b'.pc[t].Idle? && b'.pc[t].first == b.pc[t].first && b'.pc[t].stop == b.pc[t].stop
    ensures B.ConsumerStep(b, b', t)
  {
  }

  lemma WorkKeeps(s: State, s': State, t: Thread)
    requires Inv(s) && Work(s, s', t)
    ensures Inv(s')
  {
    WorkKeepsClaim(s.b, s'.b, t, s, s');
    hide C.Inv, B.Inv, B.ConsumerStep, B.DoLoadBase, B.DoLoadBlock, B.DoMoveOut, B.DoSetEmpty;
    assert B.Step(s.b, s'.b);
    B.StepKeeps(s.b, s'.b);
    assert Linked(s.c.pc[t], s.b.pc[t]);
    LinkedMoves(s, s', t);
  }

  lemma ReturnKeeps(s: State, s': State, t: Thread)
    requires Inv(s) && Return(s, s', t)
    ensures Inv(s')
  {
    hide C.Inv, B.Inv;
    assert C.ConsumerStep(s.c, s'.c, t) && B.ConsumerStep(s.b, s'.b, t);
    assert C.Step(s.c, s'.c) && B.Step(s.b, s'.b);
    C.StepKeeps(s.c, s'.c);
    B.StepKeeps(s.b, s'.b);
    LinkedMoves(s, s', t);
  }

  lemma StepKeeps(s: State, s': State)
    requires Inv(s) && Step(s, s')
    ensures Inv(s')
  {
    hide Inv, Produce, Publish, Begin, Count, Claim, Work, Return;
    if Produce(s, s') || Publish(s, s') {
      ProduceKeeps(s, s');
    } else if t: Thread, max: nat :| Begin(s, s', t, max) {
      CountKeeps(s, s', t, max);
    } else {
      var t: Thread :| Count(s, s', t) || Claim(s, s', t) || Work(s, s', t) || Return(s, s', t);
      if {
        case Count(s, s', t) => CountKeeps(s, s', t, 1);
        case Claim(s, s', t) => ClaimKeeps(s, s', t);
        case Work(s, s', t) => WorkKeeps(s, s', t);
        case Return(s, s', t) => ReturnKeeps(s, s', t);
      }
    }
  }

  // ---------------------------------------------------------------- results over whole runs

  ghost predicate IsRun(run: seq<State>) {
    && run != []
    && Init(run[0])
    && forall i | 0 <= i < |run| - 1 :: Step(run[i], run[i + 1])
  }

  lemma InitKeeps(s: State)
    requires Init(s)
    ensures Inv(s)
  {
    hide C.Inv, B.Inv;
    C.InitKeeps(s.c);
    B.InitKeeps(s.b);
  }

  lemma {:induction false} RunKeepsInvariant(run: seq<State>, i: nat)
    requires IsRun(run) && i < |run|
    ensures Inv(run[i])
  {
    hide Inv, Init, Step;
    if i == 0 {
      InitKeeps(run[0]);
    } else {
      RunKeepsInvariant(run, i - 1);
      StepKeeps(run[i - 1], run[i]);
    }
  }

  /**
   * Main result: the indexes that the counters hand out are always those of elements that were enqueued, so
   * that the index machine never has to wait for its guard.
   */
  lemma GrantsAreClaims(run: seq<State>, i: nat, t: Thread)
    requires IsRun(run) && i < |run| - 1 && Claim(run[i], run[i + 1], t)
    ensures B.Claim(run[i].b, run[i + 1].b, t, run[i].c.pc[t].actual)
    ensures run[i + 1].c.pc[t].first + run[i + 1].c.pc[t].count <= |run[i].b.enqueued|
  {
    RunKeepsInvariant(run, i);
    GrantIsClaim(run[i], run[i + 1], t);
  }

  lemma ReturnedOutput(s: State, t: Thread)
    requires Inv(s) && t < |s.c.pc|
    ensures t < |s.b.pc| && (s.c.pc[t].Claimed? <==> !s.b.pc[t].Idle?)
    ensures s.b.pc[t].Returned? ==>
      var first, count := s.c.pc[t].first, s.c.pc[t].count;
      first + count <= |s.b.enqueued| && s.b.pc[t].out == s.b.enqueued[first..first + count]
  {
    assert Linked(s.c.pc[t], s.b.pc[t]) && B.ThreadOk(s.b, t);
  }

  /**
   * Main result: a dequeue, single or bulk, that returns with a claim of the counters has taken out exactly the
   * elements that were enqueued at the claimed indexes, in order.
   */
  lemma CallsGetTheirElements(run: seq<State>, i: nat, t: Thread)
    requires IsRun(run) && i < |run| && t < |run[i].b.pc| && run[i].b.pc[t].Returned?
    ensures t < |run[i].c.pc| && run[i].c.pc[t].Claimed?
    ensures var first, count := run[i].c.pc[t].first, run[i].c.pc[t].count;
            first + count <= |run[i].b.enqueued|
            && run[i].b.pc[t].out == run[i].b.enqueued[first..first + count]
  {
    RunKeepsInvariant(run, i);
    ReturnedOutput(run[i], t);
  }

  // ---------------------------------------------------------------- a call that runs alone

  /** A step of a dequeue before it returns. */
  ghost predicate OwnStep(s: State, s': State, t: Thread) {
    Count(s, s', t) || Claim(s, s', t) || Work(s, s', t)
  }

  /** A dequeue of up to `max` elements by thread `t`, up to its return, with no step of another thread or the
      producer in between. */
  ghost predicate LoneCall(seg: seq<State>, t: Thread, max: nat) {
    && |seg| > 1 && Begin(seg[0], seg[1], t, max)
    && forall i | 1 <= i < |seg| - 1 :: OwnStep(seg[i], seg[i + 1], t)
  }

  ghost predicate CanGoOn(s: State, t: Thread) {
    exists s' :: OwnStep(s, s', t)
  }

  lemma OwnStepKeeps(s: State, s': State, t: Thread)
    requires Inv(s) && OwnStep(s, s', t)
    ensures Inv(s') && s'.b.enqueued == s.b.enqueued
    ensures s'.c == s.c || (C.ConsumerStep(s.c, s'.c, t) && !s.c.pc[t].Claimed?)
  {
    WorkEnqueuesNothing(s, s', t);
    hide Inv, Work;
    if Count(s, s', t) {
      CountKeeps(s, s', t, 1);
    } else if Claim(s, s', t) {
      ClaimKeeps(s, s', t);
    } else {
      WorkKeeps(s, s', t);
      assert s'.c == s.c by { WorkLeavesCounters(s, s', t); }
    }
  }

  lemma WorkLeavesCounters(s: State, s': State, t: Thread)
    requires Work(s, s', t)
    ensures s'.c == s.c
  {
  }

  lemma WorkEnqueuesNothing(s: State, s': State, t: Thread)
    requires OwnStep(s, s', t)
    ensures s'.b.enqueued == s.b.enqueued
  {
  }

  lemma {:induction false} LoneStates(seg: seq<State>, t: Thread, max: nat, i: nat) returns (k: nat)
    requires LoneCall(seg, t, max) && Inv(seg[0]) && 1 <= i < |seg|
    requires seg[0].c.head <= seg[0].c.tail && seg[0].c.optimistic == seg[0].c.overcommit + seg[0].c.head
    ensures Inv(seg[i]) && seg[i].b.enqueued == seg[0].b.enqueued
    ensures 1 <= k <= 7 && k <= C.LoneLength(seg[0].c) && t < |seg[0].c.pc|
    ensures seg[i].c == C.LoneState(seg[0].c, t, max, k)
  {
    hide Inv, OwnStep, C.ConsumerStep, C.LoneState;
    if i == 1 {
      k := 1;
      CountKeeps(seg[0], seg[1], t, max);
      assert seg[1].c == C.LoneState(seg[0].c, t, max, 1) by { FirstLoneState(seg[0].c, seg[1].c, t, max); }
    } else {
      k := LoneStates(seg, t, max, i - 1);
      assert OwnStep(seg[i - 1], seg[i], t);
      OwnStepKeeps(seg[i - 1], seg[i], t);
      if seg[i].c != seg[i - 1].c {
        C.LoneStep(seg[0].c, seg[i].c, t, max, k);
        C.LoneStateEnds(seg[0].c, t, max, k);
        k := k + 1;
      }
    }
  }

  lemma FirstLoneState(c: C.State, c': C.State, t: Thread, max: nat)
    requires C.Begin(c, c', t, max) && c.head <= c.tail
    ensures c' == C.LoneState(c, t, max, 1)
  {
  }

  lemma QuietCounters(s: State)
    requires Inv(s) && C.Quiet(s.c)
    ensures s.c.head <= s.c.tail && s.c.optimistic == s.c.overcommit + s.c.head
    ensures s.b.head == s.c.head && s.b.tail == s.c.tail
  {
    hide B.Inv;
    C.QuietEstimate(s.c);
  }

  /**
   * Main result: a dequeue that runs alone gets exactly as many elements as it asks for, or as there are: the oldest
   * ones, in order. It comes back with nothing exactly when there are none, and until it comes back it can go on.
   */
  lemma LoneCallGetsWhatIsThere(seg: seq<State>, t: Thread, max: nat)
    requires LoneCall(seg, t, max) && Inv(seg[0]) && C.Quiet(seg[0].c)
    ensures var s, last := seg[0], seg[|seg| - 1];
            t < |last.c.pc| && t < |last.b.pc| && s.b.head <= s.b.tail == |s.b.enqueued|
    ensures var s, last := seg[0], seg[|seg| - 1];
            if last.c.pc[t].Idle? then
              s.b.head == s.b.tail
            else if last.b.pc[t].Returned? then
              s.b.head < s.b.tail
              && last.b.pc[t].out == s.b.enqueued[s.b.head..s.b.head + C.Min(max, s.b.tail - s.b.head)]
            else
              CanGoOn(last, t)
  {
    var s, last := seg[0], seg[|seg| - 1];
    QuietCounters(s);
    var k := LoneStates(seg, t, max, |seg| - 1);
    C.LoneStateEnds(s.c, t, max, k);
    AllIsEnqueued(s.b);
    ReturnedOutput(last, t);
    hide Inv, LoneCall, C.LoneState;
    if !last.c.pc[t].Idle? && !last.b.pc[t].Returned? {
      if last.c.pc[t].Claimed? {
        NextWork(last, t);
      } else {
        NextCount(s, last, t, max, k);
      }
    }
  }

  lemma AllIsEnqueued(b: B.State)
    requires B.Inv(b)
    ensures b.tail == |b.enqueued|
  {
  }

  lemma NextWork(s: State, t: Thread)
    requires Inv(s) && t < |s.c.pc| && s.c.pc[t].Claimed? && !s.b.pc[t].Returned?
    ensures CanGoOn(s, t)
  {
    assert Linked(s.c.pc[t], s.b.pc[t]) && B.ThreadOk(s.b, t);
    hide C.Inv, B.Inv, B.ThreadOk;
    var b' := B.NextOf(s.b, t);
    assert Work(s, State(s.c, b'), t);
    assert OwnStep(s, State(s.c, b'), t);
  }

  lemma NextCount(s0: State, s: State, t: Thread, max: nat, k: nat)
    requires t < |s0.c.pc| && s0.c.pc[t] == C.Idle && s0.c.head <= s0.c.tail
    requires s0.c.optimistic == s0.c.overcommit + s0.c.head
    requires 1 <= k <= C.LoneLength(s0.c) && s.c == C.LoneState(s0.c, t, max, k)
    requires t < |s.c.pc| && t < |s.b.pc| && !s.c.pc[t].Idle? && !s.c.pc[t].Claimed? && s.b.pc[t].Idle?
    ensures CanGoOn(s, t)
  {
    var c' := C.LoneState(s0.c, t, max, k + 1);
    C.LoneStep(s0.c, c', t, max, k);
    if s.c.pc[t].AddHead? {
      var n := s.c.pc[t].actual;
      var b' := s.b.(head := s.b.head + n, pc := s.b.pc[t := B.Claimed(s.b.head, s.b.head + n)]);
      assert Claim(s, State(c', b'), t);
      assert OwnStep(s, State(c', b'), t);
    } else {
      hide C.LoneState;
      assert Count(s, State(c', s.b), t);
      assert OwnStep(s, State(c', s.b), t);
    }
  }
}

/**
 * The same for an implicit producer (libs/moodycamel/concurrentqueue.h:2473-2541, 2695-2793), with module
 * ImplicitBlockIndex.
 */
module ImplicitDequeue {
  import C = DequeueCounters
  import B = ImplicitBlockIndex

  type Thread = nat

  datatype State = State(c: C.State, b: B.State)

  ghost predicate Init(s: State) {
    C.Init(s.c) && B.Init(s.b) && |s.c.pc| == |s.b.pc|
  }

  /** headIndex.fetch_add hands out the next indexes, whether or not there are elements at them. */
  ghost predicate Grant(b: B.State, b': B.State, t: Thread, count: nat) {
    && t < |b.pc| && b.pc[t] == B.Idle
    && b' == b.(head := b.head + count, pc := b.pc[t := B.Claimed(b.head, b.head + count)])
  }

  ghost predicate Produce(s: State, s': State) {
    && s'.c == s.c && s'.b.tail == s.b.tail
    && ((exists e, a :: B.BeginEnqueue(s.b, s'.b, e, a)) || B.ProducerStep(s.b, s'.b))
  }

  /** tailIndex.store */
  ghost predicate Publish(s: State, s': State) {
    B.DoStoreTail(s.b, s'.b) && C.Enqueue(s.c, s'.c, 1)
  }

  ghost predicate Begin(s: State, s': State, t: Thread, max: nat) {
    max > 0 && C.Begin(s.c, s'.c, t, max) && s'.b == s.b
  }

  /** An access to the counters, except the one that hands out indexes. */
  ghost predicate Count(s: State, s': State, t: Thread) {
    && s'.b == s.b
    && (|| C.DoLoad(s.c, s'.c, t)
        || C.DoAddOptimistic(s.c, s'.c, t)
        || C.DoReloadTail(s.c, s'.c, t)
        || C.DoGiveBack(s.c, s'.c, t))
  }

  ghost predicate Claim(s: State, s': State, t: Thread) {
    C.DoAddHead(s.c, s'.c, t) && Grant(s.b, s'.b, t, s.c.pc[t].actual)
  }

  /** A step of the look-up and the walk. */
  ghost predicate Work(s: State, s': State, t: Thread) {
    && s'.c == s.c
    && (|| B.DoLoadHeader(s.b, s'.b, t)
        || B.DoLoadTail(s.b, s'.b, t)
        || B.DoLoadBase(s.b, s'.b, t)
        || B.DoLoadBlock(s.b, s'.b, t)
        || B.DoMoveOut(s.b, s'.b, t)
        || B.DoSetEmpty(s.b, s'.b, t)
        || B.DoUnlink(s.b, s'.b, t)
        || B.DoFree(s.b, s'.b, t))
  }

  ghost predicate Return(s: State, s': State, t: Thread) {
    C.DoReturn(s.c, s'.c, t) && B.DoReturn(s.b, s'.b, t)
  }

  ghost predicate Step(s: State, s': State) {
    || Produce(s, s')
    || Publish(s, s')
    || (exists t, max :: Begin(s, s', t, max))
    || (exists t :: Count(s, s', t) || Claim(s, s', t) || Work(s, s', t) || Return(s, s', t))
  }

  // ---------------------------------------------------------------- the invariant

  /** Calls that ask for an element do not end up with a claim of none. */
  predicate AsksForSome(p: C.Pc) {
    match p
    case LoadTail(max) => max > 0
    case LoadOvercommit(max, _) => max > 0
    case LoadOptimistic(max, _, _) => max > 0
    case AddOptimistic(desired, _) => desired > 0
    case ReloadTail(desired, _, _) => desired > 0
    case GiveBackSome(actual, _, _) => actual > 0
    case AddHead(actual) => actual > 0
    case _ => true
  }

  /** A thread works off exactly the claim that the counters gave it. */
  predicate Linked(p: C.Pc, q: B.Consumer) {
    && AsksForSome(p)
    && (p.Claimed? <==> !q.Idle?)
    && (p.Claimed? ==> q.first == p.first && q.stop == p.first + p.count)
  }

  ghost predicate AllLinked(s: State) {
    && |s.c.pc| == |s.b.pc|
    && (forall t | 0 <= t < |s.c.pc| :: Linked(s.c.pc[t], s.b.pc[t]))
    && s.c.tail == s.b.tail && s.c.head == s.b.head
  }

  ghost predicate Inv(s: State) {
    C.Inv(s.c) && B.Inv(s.b) && AllLinked(s)
  }

  /** The guard of the index machine holds because of the counters. */
  lemma GrantIsClaim(s: State, s': State, t: Thread)
    requires Inv(s) && Claim(s, s', t)
    ensures B.Claim(s.b, s'.b, t, s.c.pc[t].actual)
  {
    hide B.Inv;
    assert Linked(s.c.pc[t], s.b.pc[t]);
    C.ClaimIsBelowTail(s.c, t);
  }

  /** One thread moves on in one machine or in both. */
  lemma LinkedMoves(s: State, s': State, t: Thread)
    requires AllLinked(s) && t < |s.c.pc| && |s'.c.pc| == |s.c.pc| && |s'.b.pc| == |s.b.pc|
    requires forall u | 0 <= u < |s.c.pc| && u != t :: s'.c.pc[u] == s.c.pc[u] && s'.b.pc[u] == s.b.pc[u]
    requires Linked(s'.c.pc[t], s'.b.pc[t])
    requires s'.c.tail == s'.b.tail && s'.c.head == s'.b.head
    ensures AllLinked(s')
  {
    forall u | 0 <= u < |s'.c.pc|
      ensures Linked(s'.c.pc[u], s'.b.pc[u])
    {
      assert Linked(s.c.pc[u], s.b.pc[u]);
    }
  }

  lemma ProduceKeeps(s: State, s': State)
    requires Inv(s) && (Produce(s, s') || Publish(s, s'))
    ensures Inv(s')
  {
    ProducerLeavesConsumers(s.b, s'.b);
    hide C.Inv, B.Inv, B.ProducerStep, B.BeginEnqueue, B.DoStoreTail;
    assert B.Step(s.b, s'.b);
    B.StepKeeps(s.b, s'.b);
    if Publish(s, s') {
      assert C.Step(s.c, s'.c);
      C.StepKeeps(s.c, s'.c);
    }
  }

  lemma ProducerLeavesConsumers(b: B.State, b': B.State)
    requires B.ProducerStep(b, b') || B.DoStoreTail(b, b') || exists e, a :: B.BeginEnqueue(b, b', e, a)
    ensures b'.pc == b.pc && b'.head == b.head
    ensures B.DoStoreTail(b, b') ==> B.ProducerStep(b, b') && b'.tail == b.tail + 1
  {
  }

  lemma CountKeeps(s: State, s': State, t: Thread, max: nat)
    requires Inv(s) && (Begin(s, s', t, max) || Count(s, s', t))
    ensures Inv(s')
  {
    hide C.Inv, B.Inv;
    assert C.ConsumerStep(s.c, s'.c, t) || C.Begin(s.c, s'.c, t, max);
    assert C.Step(s.c, s'.c);
    C.StepKeeps(s.c, s'.c);
    assert Linked(s.c.pc[t], s.b.pc[t]);
    LinkedMoves(s, s', t);
  }

  lemma ClaimKeeps(s: State, s': State, t: Thread)
    requires Inv(s) && Claim(s, s', t)
    ensures Inv(s')
  {
    GrantIsClaim(s, s', t);
    hide C.Inv, B.Inv;
    assert C.ConsumerStep(s.c, s'.c, t) && B.ConsumerStep(s.b, s'.b, t);
    assert C.Step(s.c, s'.c) && B.Step(s.b, s'.b);
    C.StepKeeps(s.c, s'.c);
    B.StepKeeps(s.b, s'.b);
    LinkedMoves(s, s', t);
  }

  lemma WorkKeepsClaim(b: B.State, b': B.State, t: Thread, s: State, s': State)
    requires Work(s, s', t) && s.b == b && s'.b == b'
    ensures t < |b.pc| == |b'.pc| && b'.pc == b.pc[t := b'.pc[t]] && b'.head == b.head && b'.tail == b.tail
    ensures !b.pc[t].Idle? && !b'.pc[t].Idle? && b'.pc[t].first == b.pc[t].first && b'.pc[t].stop == b.pc[t].stop
    ensures B.ConsumerStep(b, b', t)
  {
  }

  lemma WorkKeeps(s: State, s': State, t: Thread)
    requires Inv(s) && Work(s, s', t)
    ensures Inv(s')
  {
    WorkKeepsClaim(s.b, s'.b, t, s, s');
    hide C.Inv, B.Inv, B.ConsumerStep, B.DoLoadBase, B.DoLoadBlock, B.DoMoveOut, B.DoSetEmpty;
    assert B.Step(s.b, s'.b);
    B.StepKeeps(s.b, s'.b);
    assert Linked(s.c.pc[t], s.b.pc[t]);
    LinkedMoves(s, s', t);
  }

  lemma ReturnKeeps(s: State, s': State, t: Thread)
    requires Inv(s) && Return(s, s', t)
    ensures Inv(s')
  {
    hide C.Inv, B.Inv;
    assert C.ConsumerStep(s.c, s'.c, t) && B.ConsumerStep(s.b, s'.b, t);
    assert C.Step(s.c, s'.c) && B.Step(s.b, s'.b);
    C.StepKeeps(s.c, s'.c);
    B.StepKeeps(s.b, s'.b);
    LinkedMoves(s, s', t);
  }

  lemma StepKeeps(s: State, s': State)
    requires Inv(s) && Step(s, s')
    ensures Inv(s')
  {
    hide Inv, Produce, Publish, Begin, Count, Claim, Work, Return;
    if Produce(s, s') || Publish(s, s') {
      ProduceKeeps(s, s');
    } else if t: Thread, max: nat :| Begin(s, s', t, max) {
      CountKeeps(s, s', t, max);
    } else {
      var t: Thread :| Count(s, s', t) || Claim(s, s', t) || Work(s, s', t) || Return(s, s', t);
      if {
        case Count(s, s', t) => CountKeeps(s, s', t, 1);
        case Claim(s, s', t) => ClaimKeeps(s, s', t);
        case Work(s, s', t) => WorkKeeps(s, s', t);
        case Return(s, s', t) => ReturnKeeps(s, s', t);
      }
    }
  }

  // ---------------------------------------------------------------- results over whole runs

  ghost predicate IsRun(run: seq<State>) {
    && run != []
    && Init(run[0])
    && forall i | 0 <= i < |run| - 1 :: Step(run[i], run[i + 1])
  }

  lemma InitKeeps(s: State)
    requires Init(s)
    ensures Inv(s)
  {
    hide C.Inv, B.Inv;
    C.InitKeeps(s.c);
    B.InitKeeps(s.b);
  }

  lemma {:induction false} RunKeepsInvariant(run: seq<State>, i: nat)
    requires IsRun(run) && i < |run|
    ensures Inv(run[i])
  {
    hide Inv, Init, Step;
    if i == 0 {
      InitKeeps(run[0]);
    } else {
      RunKeepsInvariant(run, i - 1);
      StepKeeps(run[i - 1], run[i]);
    }
  }

  /**
   * Main result: the indexes that the counters hand out are always those of elements that were enqueued, so
   * that the index machine never has to wait for its guard.
   */
  lemma GrantsAreClaims(run: seq<State>, i: nat, t: Thread)
    requires IsRun(run) && i < |run| - 1 && Claim(run[i], run[i + 1], t)
    ensures B.Claim(run[i].b, run[i + 1].b, t, run[i].c.pc[t].actual)
    ensures run[i + 1].c.pc[t].first + run[i + 1].c.pc[t].count <= |run[i].b.enqueued|
  {
    RunKeepsInvariant(run, i);
    GrantIsClaim(run[i], run[i + 1], t);
  }

  lemma ReturnedOutput(s: State, t: Thread)
    requires Inv(s) && t < |s.c.pc|
    ensures t < |s.b.pc| && (s.c.pc[t].Claimed? <==> !s.b.pc[t].Idle?)
    ensures s.b.pc[t].Returned? ==>
      var first, count := s.c.pc[t].first, s.c.pc[t].count;
      first + count <= |s.b.enqueued| && s.b.pc[t].out == s.b.enqueued[first..first + count]
  {
    assert Linked(s.c.pc[t], s.b.pc[t]) && B.ThreadOk(s.b, t);
  }

  /**
   * Main result: a dequeue, single or bulk, that returns with a claim of the counters has taken out exactly the
   * elements that were enqueued at the claimed indexes, in order.
   */
  lemma CallsGetTheirElements(run: seq<State>, i: nat, t: Thread)
    requires IsRun(run) && i < |run| && t < |run[i].b.pc| && run[i].b.pc[t].Returned?
    ensures t < |run[i].c.pc| && run[i].c.pc[t].Claimed?
    ensures var first, count := run[i].c.pc[t].first, run[i].c.pc[t].count;
            first + count <= |run[i].b.enqueued|
            && run[i].b.pc[t].out == run[i].b.enqueued[first..first + count]
  {
    RunKeepsInvariant(run, i);
    ReturnedOutput(run[i], t);
  }

  // ---------------------------------------------------------------- a call that runs alone

  /** A step of a dequeue before it returns. */
  ghost predicate OwnStep(s: State, s': State, t: Thread) {
    Count(s, s', t) || Claim(s, s', t) || Work(s, s', t)
  }

  /** A dequeue of up to `max` elements by thread `t`, up to its return, with no step of another thread or the
      producer in between. */
  ghost predicate LoneCall(seg: seq<State>, t: Thread, max: nat) {
    && |seg| > 1 && Begin(seg[0], seg[1], t, max)
    && forall i | 1 <= i < |seg| - 1 :: OwnStep(seg[i], seg[i + 1], t)
  }

  ghost predicate CanGoOn(s: State, t: Thread) {
    exists s' :: OwnStep(s, s', t)
  }

  lemma OwnStepKeeps(s: State, s': State, t: Thread)
    requires Inv(s) && OwnStep(s, s', t)
    ensures Inv(s') && s'.b.enqueued == s.b.enqueued
    ensures s'.c == s.c || (C.ConsumerStep(s.c, s'.c, t) && !s.c.pc[t].Claimed?)
  {
    WorkEnqueuesNothing(s, s', t);
    hide Inv, Work;
    if Count(s, s', t) {
      CountKeeps(s, s', t, 1);
    } else if Claim(s, s', t) {
      ClaimKeeps(s, s', t);
    } else {
      WorkKeeps(s, s', t);
      assert s'.c == s.c by { WorkLeavesCounters(s, s', t); }
    }
  }

  lemma WorkLeavesCounters(s: State, s': State, t: Thread)
    requires Work(s, s', t)
    ensures s'.c == s.c
  {
  }

  lemma WorkEnqueuesNothing(s: State, s': State, t: Thread)
    requires OwnStep(s, s', t)
    ensures s'.b.enqueued == s.b.enqueued
  {
  }

  lemma {:induction false} LoneStates(seg: seq<State>, t: Thread, max: nat, i: nat) returns (k: nat)
    requires LoneCall(seg, t, max) && Inv(seg[0]) && 1 <= i < |seg|
    requires seg[0].c.head <= seg[0].c.tail && seg[0].c.optimistic == seg[0].c.overcommit + seg[0].c.head
    ensures Inv(seg[i]) && seg[i].b.enqueued == seg[0].b.enqueued
    ensures 1 <= k <= 7 && k <= C.LoneLength(seg[0].c) && t < |seg[0].c.pc|
    ensures seg[i].c == C.LoneState(seg[0].c, t, max, k)
  {
    hide Inv, OwnStep, C.ConsumerStep, C.LoneState;
    if i == 1 {
      k := 1;
      CountKeeps(seg[0], seg[1], t, max);
      assert seg[1].c == C.LoneState(seg[0].c, t, max, 1) by { FirstLoneState(seg[0].c, seg[1].c, t, max); }
    } else {
      k := LoneStates(seg, t, max, i - 1);
      assert OwnStep(seg[i - 1], seg[i], t);
      OwnStepKeeps(seg[i - 1], seg[i], t);
      if seg[i].c != seg[i - 1].c {
        C.LoneStep(seg[0].c, seg[i].c, t, max, k);
        C.LoneStateEnds(seg[0].c, t, max, k);
        k := k + 1;
      }
    }
  }

  lemma FirstLoneState(c: C.State, c': C.State, t: Thread, max: nat)
    requires C.Begin(c, c', t, max) && c.head <= c.tail
    ensures c' == C.LoneState(c, t, max, 1)
  {
  }

  lemma QuietCounters(s: State)
    requires Inv(s) && C.Quiet(s.c)
    ensures s.c.head <= s.c.tail && s.c.optimistic == s.c.overcommit + s.c.head
    ensures s.b.head == s.c.head && s.b.tail == s.c.tail
  {
    hide B.Inv;
    C.QuietEstimate(s.c);
  }

  /**
   * Main result: a dequeue that runs alone gets exactly as many elements as it asks for, or as there are: the oldest
   * ones, in order. It comes back with nothing exactly when there are none, and until it comes back it can go on.
   */
  lemma LoneCallGetsWhatIsThere(seg: seq<State>, t: Thread, max: nat)
    requires LoneCall(seg, t, max) && Inv(seg[0]) && C.Quiet(seg[0].c)
    ensures var s, last := seg[0], seg[|seg| - 1];
            t < |last.c.pc| && t < |last.b.pc| && s.b.head <= s.b.tail == |s.b.enqueued|
    ensures var s, last := seg[0], seg[|seg| - 1];
            if last.c.pc[t].Idle? then
              s.b.head == s.b.tail
            else if last.b.pc[t].Returned? then
              s.b.head < s.b.tail
              && last.b.pc[t].out == s.b.enqueued[s.b.head..s.b.head + C.Min(max, s.b.tail - s.b.head)]
            else
              CanGoOn(last, t)
  {
    var s, last := seg[0], seg[|seg| - 1];
    QuietCounters(s);
    var k := LoneStates(seg, t, max, |seg| - 1);
    C.LoneStateEnds(s.c, t, max, k);
    AllIsEnqueued(s.b);
    ReturnedOutput(last, t);
    hide Inv, LoneCall, C.LoneState;
    if !last.c.pc[t].Idle? && !last.b.pc[t].Returned? {
      if last.c.pc[t].Claimed? {
        NextWork(last, t);
      } else {
        NextCount(s, last, t, max, k);
      }
    }
  }

  lemma AllIsEnqueued(b: B.State)
    requires B.Inv(b)
    ensures b.tail == |b.enqueued|
  {
  }

  lemma NextWork(s: State, t: Thread)
    requires Inv(s) && t < |s.c.pc| && s.c.pc[t].Claimed? && !s.b.pc[t].Returned?
    ensures CanGoOn(s, t)
  {
    assert Linked(s.c.pc[t], s.b.pc[t]) && B.ThreadOk(s.b, t);
    hide C.Inv, B.Inv, B.ThreadOk;
    var b' := B.NextOf(s.b, t);
    assert Work(s, State(s.c, b'), t);
    assert OwnStep(s, State(s.c, b'), t);
  }

  lemma NextCount(s0: State, s: State, t: Thread, max: nat, k: nat)
    requires t < |s0.c.pc| && s0.c.pc[t] == C.Idle && s0.c.head <= s0.c.tail
    requires s0.c.optimistic == s0.c.overcommit + s0.c.head
    requires 1 <= k <= C.LoneLength(s0.c) && s.c == C.LoneState(s0.c, t, max, k)
    requires t < |s.c.pc| && t < |s.b.pc| && !s.c.pc[t].Idle? && !s.c.pc[t].Claimed? && s.b.pc[t].Idle?
    ensures CanGoOn(s, t)
  {
    var c' := C.LoneState(s0.c, t, max, k + 1);
    C.LoneStep(s0.c, c', t, max, k);
    if s.c.pc[t].AddHead? {
      var n := s.c.pc[t].actual;
      var b' := s.b.(head := s.b.head + n, pc := s.b.pc[t := B.Claimed(s.b.head, s.b.head + n)]);
      assert Claim(s, State(c', b'), t);
      assert OwnStep(s, State(c', b'), t);
    } else {
      hide C.LoneState;
      assert Count(s, State(c', s.b), t);
      assert OwnStep(s, State(c', s.b), t);
    }
  }
}
