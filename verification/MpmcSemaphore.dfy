/**
 * The lightweight semaphore of libs/moodycamel/blockingconcurrentqueue.h (lines 250-414): an atomic
 * count in front of a kernel semaphore, with spinning, single and batch waits, and timeouts that are
 * rolled back.
 *
 * One transition is one access to m_count or to the kernel semaphore, by any of any number of
 * threads. The kernel semaphore is a counter; a timeout may strike at any moment, and the spin loop
 * may end after any iteration. A single wait performs the accesses of a batch wait with max == 1.
 * `granted` and `signalled` are history.
 */
module MpmcSemaphore {
  import opened Sums

  type Thread = nat

  datatype Kind = TryOnly | Forever | Timed

  datatype Request = Request(max: nat, kind: Kind)

  datatype Pc =
    | Idle
      // tryWaitMany; `held` permits were already obtained by the surrounding call
    | TryLoad(req: Request, max: nat, held: nat)
    | TryCas(req: Request, max: nat, held: nat, was: int)
      // waitManyWithPartialSpinning
    | SpinLoad(req: Request)
    | SpinCas(req: Request, was: int)
    | Subtract(req: Request)
    | Sleep(req: Request)
    | RollLoad(req: Request)
    | RollTryWait(req: Request)
    | RollCas(req: Request, was: int)
      // the call is about to return `result`
    | Done(req: Request, result: nat)
      // signal
    | SignalAdd(permits: nat)
    | SignalPost(remaining: nat)

  datatype State = State(
    count: int,
    kernel: nat,
    pc: seq<Pc>,
    initial: nat,
    granted: nat,
    signalled: nat)

  function Min(a: int, b: int): int {
    if a < b then a else b
  }

  function Positive(x: int): (r: nat) {
    if x > 0 then x else 0
  }

  // ---------------------------------------------------------------- transitions

  ghost predicate Init(s: State) {
    && s.count == s.initial
    && s.kernel == s.granted == s.signalled == 0
    && forall t | 0 <= t < |s.pc| :: s.pc[t] == Idle
  }

  ghost predicate BeginWait(s: State, s': State, t: Thread, req: Request) {
    && t < |s.pc| && s.pc[t] == Idle
    && s' == s.(pc := s.pc[t := TryLoad(req, req.max, 0)])
  }

  ghost predicate BeginSignal(s: State, s': State, t: Thread, permits: nat) {
    && t < |s.pc| && s.pc[t] == Idle
    && s' == s.(pc := s.pc[t := SignalAdd(permits)])
  }

  ghost predicate Return(s: State, s': State, t: Thread) {
    && t < |s.pc| && s.pc[t].Done?
    && s' == s.(pc := s.pc[t := Idle])
  }

  /** Where tryWaitMany goes when the count it saw is not positive: back to its caller, or, if it was
      only the first attempt of a wait, on to the spin loop. */
  function NothingAvailable(req: Request, held: nat): Pc {
    if held == 0 && !req.kind.TryOnly? && req.max > 0 then SpinLoad(req) else Done(req, held)
  }

  ghost predicate DoTryLoad(s: State, s': State, t: Thread) {
    && t < |s.pc| && s.pc[t].TryLoad?
    && var TryLoad(req, max, held) := s.pc[t];
    && s' == s.(pc := s.pc[t :=
      if s.count > 0 then TryCas(req, max, held, s.count) else NothingAvailable(req, held)])
  }

  /** compare_exchange_weak: succeeds only if the count is as expected, and may fail even then. A
      failure reloads the count. */
  ghost predicate DoTryCas(s: State, s': State, t: Thread) {
    && t < |s.pc| && s.pc[t].TryCas?
    && var TryCas(req, max, held, was) := s.pc[t];
    && var taken := Min(was, max);
    && taken >= 0
    && ((s.count == was
         && s' == s.(
           count := s.count - taken,
           granted := s.granted + taken,
           pc := s.pc[t := if held + taken == 0 then NothingAvailable(req, 0) else Done(req, held + taken)]))
        || s' == s.(pc := s.pc[t :=
             if s.count > 0 then TryCas(req, max, held, s.count) else NothingAvailable(req, held)]))
  }

  ghost predicate DoSpinLoad(s: State, s': State, t: Thread) {
    && t < |s.pc| && s.pc[t].SpinLoad?
    && var req := s.pc[t].req;
    && if s.count > 0 then
         s' == s.(pc := s.pc[t := SpinCas(req, s.count)])
       else
         || s' == s.(pc := s.pc[t := SpinLoad(req)])
         || s' == s.(pc := s.pc[t := Subtract(req)])
  }

  ghost predicate DoSpinCas(s: State, s': State, t: Thread) {
    && t < |s.pc| && s.pc[t].SpinCas?
    && var SpinCas(req, was) := s.pc[t];
    && var taken := Min(was, req.max);
    && taken >= 0
    && if s.count == was then
         s' == s.(
           count := s.count - taken,
           granted := s.granted + taken,
           pc := s.pc[t := Done(req, taken)])
       else
         || s' == s.(pc := s.pc[t := SpinLoad(req)])
         || s' == s.(pc := s.pc[t := Subtract(req)])
  }

  /** With one permit in hand a batch wait goes on to take what else is there. */
  function HoldingOne(req: Request): Pc {
    if req.max > 1 then TryLoad(req, req.max - 1, 1) else Done(req, 1)
  }

  ghost predicate DoSubtract(s: State, s': State, t: Thread) {
    && t < |s.pc| && s.pc[t].Subtract?
    && var req := s.pc[t].req;
    && if s.count > 0 then
         s' == s.(count := s.count - 1, granted := s.granted + 1, pc := s.pc[t := HoldingOne(req)])
       else
         s' == s.(count := s.count - 1, pc := s.pc[t := Sleep(req)])
  }

  ghost predicate TakeKernelToken(s: State, s': State, t: Thread) {
    && t < |s.pc| && (s.pc[t].Sleep? || s.pc[t].RollTryWait?)
    && s.kernel > 0
    && s' == s.(
      kernel := s.kernel - 1,
      granted := s.granted + 1,
      pc := s.pc[t := HoldingOne(s.pc[t].req)])
  }

  ghost predicate TimeOut(s: State, s': State, t: Thread) {
    && t < |s.pc| && s.pc[t].Sleep? && s.pc[t].req.kind.Timed?
    && s' == s.(pc := s.pc[t := RollLoad(s.pc[t].req)])
  }

  ghost predicate DoRollLoad(s: State, s': State, t: Thread) {
    && t < |s.pc| && s.pc[t].RollLoad?
    && var req := s.pc[t].req;
    && s' == s.(pc := s.pc[t := if s.count >= 0 then RollTryWait(req) else RollCas(req, s.count)])
  }

  ghost predicate RollTryWaitFails(s: State, s': State, t: Thread) {
    && t < |s.pc| && s.pc[t].RollTryWait? && s.kernel == 0
    && s' == s.(pc := s.pc[t := RollLoad(s.pc[t].req)])
  }

  ghost predicate DoRollCas(s: State, s': State, t: Thread) {
    && t < |s.pc| && s.pc[t].RollCas?
    && var RollCas(req, was) := s.pc[t];
    && if s.count == was then
         s' == s.(count := s.count + 1, pc := s.pc[t := Done(req, 0)])
       else
         s' == s.(pc := s.pc[t := RollLoad(req)])
  }

  ghost predicate DoSignalAdd(s: State, s': State, t: Thread) {
    && t < |s.pc| && s.pc[t].SignalAdd?
    && var permits := s.pc[t].permits;
    && var release := Min(-s.count, permits);
    && s' == s.(
      count := s.count + permits,
      signalled := s.signalled + permits,
      pc := s.pc[t := if release > 0 then SignalPost(release) else Idle])
  }

  ghost predicate DoSignalPost(s: State, s': State, t: Thread) {
    && t < |s.pc| && s.pc[t].SignalPost? && s.pc[t].remaining > 0
    && var remaining := s.pc[t].remaining;
    && s' == s.(
      kernel := s.kernel + 1,
      pc := s.pc[t := if remaining > 1 then SignalPost(remaining - 1) else Idle])
  }

  ghost predicate AtomicStep(s: State, s': State, t: Thread) {
    || DoTryLoad(s, s', t)
    || DoTryCas(s, s', t)
    || DoSpinLoad(s, s', t)
    || DoSpinCas(s, s', t)
    || DoSubtract(s, s', t)
    || TakeKernelToken(s, s', t)
    || TimeOut(s, s', t)
    || DoRollLoad(s, s', t)
    || RollTryWaitFails(s, s', t)
    || DoRollCas(s, s', t)
    || DoSignalAdd(s, s', t)
    || DoSignalPost(s, s', t)
  }

  ghost predicate Step(s: State, s': State) {
    || (exists t, req :: BeginWait(s, s', t, req))
    || (exists t, permits :: BeginSignal(s, s', t, permits))
    || (exists t :: Return(s, s', t))
    || (exists t :: AtomicStep(s, s', t))
  }

  // ---------------------------------------------------------------- the invariant

  /** Asleep on the kernel semaphore, or timed out with its decrement of the count not undone. */
  function Waiting(pc: Pc): nat {
    if pc.Sleep? || pc.RollLoad? || pc.RollTryWait? || pc.RollCas? then 1 else 0
  }

  /** Kernel tokens a signalling thread is about to post. */
  function Unposted(pc: Pc): nat {
    if pc.SignalPost? then pc.remaining else 0
  }

  /** Permits a call has obtained and not yet returned to its caller. */
  function Held(pc: Pc): nat {
    match pc
    case TryLoad(_, _, held) => held
    case TryCas(_, _, held, _) => held
    case Done(_, result) => result
    case _ => 0
  }

  /** Permits not granted to anybody: in the count, in the kernel semaphore, or on the way there. */
  function Available(s: State): nat {
    Positive(s.count) + s.kernel + Sum(s.pc, Unposted)
  }

  predicate CallOk(pc: Pc) {
    match pc
    case TryLoad(req, max, held) => held + max == req.max && (held > 0 ==> held == 1 && !req.kind.TryOnly?)
    case TryCas(req, max, held, was) =>
      held + max == req.max && (held > 0 ==> held == 1 && !req.kind.TryOnly?) && was > 0
    case SpinLoad(req) => req.max > 0 && !req.kind.TryOnly?
    case SpinCas(req, was) => req.max > 0 && !req.kind.TryOnly? && was > 0
    case Subtract(req) => req.max > 0 && !req.kind.TryOnly?
    case Sleep(req) => req.max > 0 && !req.kind.TryOnly?
    case RollLoad(req) => req.max > 0 && req.kind.Timed?
    case RollTryWait(req) => req.max > 0 && req.kind.Timed?
    case RollCas(req, was) => req.max > 0 && req.kind.Timed? && was < 0
    case Done(req, result) => result <= req.max && (req.kind.Forever? && req.max > 0 ==> result > 0)
    case _ => true
  }

  ghost predicate Inv(s: State) {
    && s.initial + s.signalled == s.granted + Available(s)
    && Sum(s.pc, Waiting) == Positive(-s.count) + s.kernel + Sum(s.pc, Unposted)
    && forall t | 0 <= t < |s.pc| :: CallOk(s.pc[t])
  }

  /** One thread's step keeps the invariant, and changes what callers hold only by what is granted. */
  ghost predicate Keeps(s: State, s': State, t: Thread)
    requires t < |s.pc|
  {
    && Inv(s')
    && |s'.pc| == |s.pc| && s'.pc == s.pc[t := s'.pc[t]]
    && s'.initial == s.initial
    && s'.granted + Held(s.pc[t]) == s.granted + Held(s'.pc[t])
    && s'.signalled + (if s'.pc[t].SignalAdd? then s'.pc[t].permits else 0)
       == s.signalled + (if s.pc[t].SignalAdd? then s.pc[t].permits else 0)
  }

  /** It is enough that a step balances the two accounts. */
  lemma BalancedStepKeeps(s: State, s': State, t: Thread)
    requires Inv(s) && t < |s.pc| == |s'.pc| && s'.pc == s.pc[t := s'.pc[t]] && CallOk(s'.pc[t])
    requires s'.initial == s.initial
    requires s'.signalled - s.signalled
      == s'.granted - s.granted + Positive(s'.count) - Positive(s.count) + s'.kernel - s.kernel
         + Unposted(s'.pc[t]) - Unposted(s.pc[t])
    requires Waiting(s'.pc[t]) - Waiting(s.pc[t])
      == Positive(-s'.count) - Positive(-s.count) + s'.kernel - s.kernel + Unposted(s'.pc[t]) - Unposted(s.pc[t])
    ensures Inv(s')
  {
    SumAfter(s.pc, Waiting, t, s'.pc[t]);
    SumAfter(s.pc, Unposted, t, s'.pc[t]);
  }

  lemma TryKeeps(s: State, s': State, t: Thread)
    requires Inv(s) && t < |s.pc|
    requires DoTryLoad(s, s', t) || DoTryCas(s, s', t)
    ensures Keeps(s, s', t)
  {
    assert CallOk(s.pc[t]);
    BalancedStepKeeps(s, s', t);
  }

  lemma SpinKeeps(s: State, s': State, t: Thread)
    requires Inv(s) && t < |s.pc|
    requires DoSpinLoad(s, s', t) || DoSpinCas(s, s', t)
    ensures Keeps(s, s', t)
  {
    assert CallOk(s.pc[t]);
    BalancedStepKeeps(s, s', t);
  }

  lemma SubtractKeeps(s: State, s': State, t: Thread)
    requires Inv(s) && t < |s.pc|
    requires DoSubtract(s, s', t) || TakeKernelToken(s, s', t) || TimeOut(s, s', t)
    ensures Keeps(s, s', t)
  {
    assert CallOk(s.pc[t]);
    BalancedStepKeeps(s, s', t);
  }

  lemma RollKeeps(s: State, s': State, t: Thread)
    requires Inv(s) && t < |s.pc|
    requires DoRollLoad(s, s', t) || RollTryWaitFails(s, s', t) || DoRollCas(s, s', t)
    ensures Keeps(s, s', t)
  {
    assert CallOk(s.pc[t]);
    BalancedStepKeeps(s, s', t);
  }

  lemma SignalKeeps(s: State, s': State, t: Thread)
    requires Inv(s) && t < |s.pc|
    requires DoSignalAdd(s, s', t) || DoSignalPost(s, s', t)
    ensures Keeps(s, s', t)
  {
    BalancedStepKeeps(s, s', t);
  }

  lemma AtomicStepKeeps(s: State, s': State, t: Thread)
    requires Inv(s) && t < |s.pc| && AtomicStep(s, s', t)
    ensures Keeps(s, s', t)
  {
    if {
      case DoTryLoad(s, s', t) || DoTryCas(s, s', t) => TryKeeps(s, s', t);
      case DoSpinLoad(s, s', t) || DoSpinCas(s, s', t) => SpinKeeps(s, s', t);
      case DoSubtract(s, s', t) || TakeKernelToken(s, s', t) || TimeOut(s, s', t) => SubtractKeeps(s, s', t);
      case DoRollLoad(s, s', t) || RollTryWaitFails(s, s', t) || DoRollCas(s, s', t) => RollKeeps(s, s', t);
      case DoSignalAdd(s, s', t) || DoSignalPost(s, s', t) => SignalKeeps(s, s', t);
    }
  }

  /** Calls begin and return without touching the semaphore. */
  lemma CallBoundaryKeeps(s: State, s': State, t: Thread, p: Pc)
    requires Inv(s) && t < |s.pc| && s' == s.(pc := s.pc[t := p])
    requires (s.pc[t].Idle? && (p.SignalAdd? || (p.TryLoad? && p.max == p.req.max && p.held == 0)))
      || (s.pc[t].Done? && p.Idle?)
    ensures Inv(s')
  {
    SumAfter(s.pc, Waiting, t, p);
    SumAfter(s.pc, Unposted, t, p);
  }

  lemma StepKeeps(s: State, s': State)
    requires Inv(s) && Step(s, s')
    ensures Inv(s')
  {
    if t: Thread, req :| BeginWait(s, s', t, req) {
      CallBoundaryKeeps(s, s', t, TryLoad(req, req.max, 0));
    } else if t: Thread, permits: nat :| BeginSignal(s, s', t, permits) {
      CallBoundaryKeeps(s, s', t, SignalAdd(permits));
    } else if t: Thread :| Return(s, s', t) {
      CallBoundaryKeeps(s, s', t, Idle);
    } else {
      var t: Thread :| AtomicStep(s, s', t);
      AtomicStepKeeps(s, s', t);
    }
  }

  // ---------------------------------------------------------------- results over whole runs

  ghost predicate IsRun(run: seq<State>) {
    && run != []
    && Init(run[0])
    && forall i | 0 <= i < |run| - 1 :: Step(run[i], run[i + 1])
  }

  lemma InitKeeps(s: State)
    requires Init(s) && s.initial >= 0
    ensures Inv(s)
  {
    SumOfZeros(s.pc, Waiting);
    SumOfZeros(s.pc, Unposted);
  }

  lemma {:induction false} RunKeepsInvariant(run: seq<State>, i: nat)
    requires IsRun(run) && i < |run|
    ensures Inv(run[i])
  {
    if i == 0 {
      InitKeeps(run[0]);
    } else {
      RunKeepsInvariant(run, i - 1);
      StepKeeps(run[i - 1], run[i]);
    }
  }

  /** Permits are neither made nor lost: what was there initially or signalled has been granted, is
      in the count, is a kernel token, or is a token about to be posted. */
  lemma PermitsAreConserved(run: seq<State>, i: nat)
    requires IsRun(run) && i < |run|
    ensures var s := run[i];
      s.initial + s.signalled == s.granted + Positive(s.count) + s.kernel + Sum(s.pc, Unposted)
  {
    RunKeepsInvariant(run, i);
  }

  /** The threads asleep or rolling back are exactly those the count says are missing a permit,
      plus those whose token is in the kernel semaphore or about to be posted. */
  lemma WaitersAreAccountedFor(run: seq<State>, i: nat)
    requires IsRun(run) && i < |run|
    ensures var s := run[i];
      Sum(s.pc, Waiting) == Positive(-s.count) + s.kernel + Sum(s.pc, Unposted)
  {
    RunKeepsInvariant(run, i);
  }

  /** No wakeup is lost: if some thread waits and no token is or will be in the kernel semaphore,
      then every permit there ever was has been granted. */
  lemma NoSleeperWhilePermitsRemain(run: seq<State>, i: nat, t: Thread)
    requires IsRun(run) && i < |run| && t < |run[i].pc| && Waiting(run[i].pc[t]) == 1
    requires run[i].kernel == 0 && Sum(run[i].pc, Unposted) == 0
    ensures run[i].count < 0 && run[i].granted == run[i].initial + run[i].signalled
  {
    RunKeepsInvariant(run, i);
    SumAfter(run[i].pc, Waiting, t, run[i].pc[t]);
  }

  /** A timed-out thread that finds the count not negative is owed a kernel token, so the try_wait
      of its rollback loop is bound to succeed once the tokens on the way are posted. */
  lemma RollbackIsOwedAToken(run: seq<State>, i: nat, t: Thread)
    requires IsRun(run) && i < |run| && t < |run[i].pc| && Waiting(run[i].pc[t]) == 1
    requires run[i].count >= 0
    ensures run[i].kernel + Sum(run[i].pc, Unposted) > 0
  {
    RunKeepsInvariant(run, i);
    SumAfter(run[i].pc, Waiting, t, run[i].pc[t]);
  }

  /** A call never returns more than it asked for; without a timeout it returns something whenever
      it asked for something (the assert of waitMany, which fails only for max == 0). */
  lemma ResultsAreWithinRequest(run: seq<State>, i: nat, t: Thread)
    requires IsRun(run) && i < |run| && t < |run[i].pc| && run[i].pc[t].Done?
    ensures run[i].pc[t].result <= run[i].pc[t].req.max
    ensures run[i].pc[t].req.kind.Forever? ==> (run[i].pc[t].result > 0 <==> run[i].pc[t].req.max > 0)
  {
    RunKeepsInvariant(run, i);
    assert CallOk(run[i].pc[t]);
  }

  // ---------------------------------------------------------------- what a call that gets little has seen

  /** A sequence of states in which the semaphore may also rest while its clients go on. */
  ghost predicate IsTrace(run: seq<State>) {
    forall i | 0 <= i < |run| - 1 :: run[i + 1] == run[i] || Step(run[i], run[i + 1])
  }

  predicate NoneAt(run: seq<State>, m: nat) {
    m < |run| && run[m].count <= 0
  }

  /** At some moment after `b` and up to `i` the count was not positive. */
  ghost predicate NoneSeen(run: seq<State>, b: nat, i: nat) {
    exists m :: b < m <= i && NoneAt(run, m)
  }

  /** What the program point of a thread says about its call of wait for `req`, which began after state `b`. */
  ghost predicate Informed(run: seq<State>, b: nat, i: nat, req: Request, pc: Pc) {
    match pc
    case TryLoad(r, max, held) => r == req && held + max == req.max
    case TryCas(r, max, held, was) => r == req && held + max == req.max && was > 0
    case SpinLoad(r) => r == req && req.max > 0
    case SpinCas(r, was) => r == req && req.max > 0 && was > 0
    case Subtract(r) => r == req && req.max > 0
    case Sleep(r) => r == req && req.max > 0 && NoneSeen(run, b, i)
    case RollLoad(r) => r == req && req.max > 0 && NoneSeen(run, b, i)
    case RollTryWait(r) => r == req && req.max > 0 && NoneSeen(run, b, i)
    case RollCas(r, _) => r == req && req.max > 0 && NoneSeen(run, b, i)
    case Done(r, result) => r == req && (result < req.max ==> NoneSeen(run, b, i))
    case _ => false
  }

  lemma NoneSeenLater(run: seq<State>, b: nat, i: nat)
    requires NoneSeen(run, b, i)
    ensures NoneSeen(run, b, i + 1)
  {
  }

  lemma NextAccess(s: State, s': State, t: Thread)
    requires AtomicStep(s, s', t)
    ensures t < |s.pc| == |s'.pc| && s'.pc == s.pc[t := s'.pc[t]]
    ensures match s.pc[t]
            case Idle => false
            case Done(_, _) => false
            case TryLoad(_, _, _) => DoTryLoad(s, s', t)
            case TryCas(_, _, _, _) => DoTryCas(s, s', t)
            case SpinLoad(_) => DoSpinLoad(s, s', t)
            case SpinCas(_, _) => DoSpinCas(s, s', t)
            case Subtract(_) => DoSubtract(s, s', t)
            case Sleep(_) => TakeKernelToken(s, s', t) || TimeOut(s, s', t)
            case RollLoad(_) => DoRollLoad(s, s', t)
            case RollTryWait(_) => TakeKernelToken(s, s', t) || RollTryWaitFails(s, s', t)
            case RollCas(_, _) => DoRollCas(s, s', t)
            case SignalAdd(_) => DoSignalAdd(s, s', t)
            case SignalPost(_) => DoSignalPost(s, s', t)
  {
  }

  lemma InformedNext(run: seq<State>, b: nat, i: nat, t: Thread, req: Request)
    requires b < i < |run| - 1 && t < |run[i].pc| && AtomicStep(run[i], run[i + 1], t)
    requires Informed(run, b, i, req, run[i].pc[t])
    ensures t < |run[i + 1].pc| && Informed(run, b, i + 1, req, run[i + 1].pc[t])
  {
    var s, s' := run[i], run[i + 1];
    NextAccess(s, s', t);
    hide AtomicStep;
    if NoneSeen(run, b, i) {
      NoneSeenLater(run, b, i);
    }
    if s.count <= 0 {
      assert NoneAt(run, i);
      assert NoneSeen(run, b, i + 1);
    }
    if s'.count <= 0 {
      assert NoneAt(run, i + 1);
      assert NoneSeen(run, b, i + 1);
    }
    hide NoneSeen;
  }

  lemma StepOfAnother(s: State, s': State, t: Thread)
    requires s' == s || Step(s, s')
    requires t < |s.pc| && s.pc[t] != Idle && !s.pc[t].Done?
    ensures t < |s'.pc| && (s'.pc[t] == s.pc[t] || AtomicStep(s, s', t))
  {
    hide AtomicStep;
    if u: Thread :| AtomicStep(s, s', u) {
      NextAccess(s, s', u);
    }
  }

  lemma InformedLater(run: seq<State>, b: nat, i: nat, req: Request, pc: Pc)
    requires Informed(run, b, i, req, pc)
    ensures Informed(run, b, i + 1, req, pc)
  {
    if NoneSeen(run, b, i) {
      NoneSeenLater(run, b, i);
    }
    hide NoneSeen;
  }

  /** Thread `t` is inside one call of wait after state `b`, up to state `i`. */
  ghost predicate Inside(run: seq<State>, b: nat, i: nat, t: Thread)
    requires i < |run|
  {
    && (forall j | b < j <= i :: t < |run[j].pc| && run[j].pc[t] != Idle)
    && (forall j | b < j < i :: !run[j].pc[t].Done?)
  }

  lemma {:induction false} CallIsInformed(run: seq<State>, b: nat, i: nat, t: Thread, req: Request)
    requires IsTrace(run) && b < i < |run| && BeginWait(run[b], run[b + 1], t, req) && Inside(run, b, i, t)
    ensures Informed(run, b, i, req, run[i].pc[t])
  {
    hide Step;
    if b + 1 < i {
      CallIsInformed(run, b, i - 1, t, req);
      hide Informed, AtomicStep;
      StepOfAnother(run[i - 1], run[i], t);
      InformedLater(run, b, i - 1, req, run[i - 1].pc[t]);
      if AtomicStep(run[i - 1], run[i], t) {
        InformedNext(run, b, i - 1, t, req);
      }
    }
  }

  /** Main result: a call that obtains fewer permits than it asked for, or none, whether it tries, waits or times out,
      found the count not positive at some moment, or left it so. */
  lemma ShortResultMeansNoPermits(run: seq<State>, b: nat, r: nat, t: Thread, req: Request) returns (m: nat)
    requires IsTrace(run) && b < r < |run| && BeginWait(run[b], run[b + 1], t, req) && Inside(run, b, r, t)
    requires run[r].pc[t].Done? && run[r].pc[t].result < req.max
    ensures b < m <= r && run[m].count <= 0
  {
    CallIsInformed(run, b, r, t, req);
    m :| b < m <= r && NoneAt(run, m);
  }

  /** Nobody waits for anything but a kernel token. */
  lemma OnlySleepersWait(run: seq<State>, i: nat, t: Thread) returns (s': State)
    requires IsRun(run) && i < |run| && t < |run[i].pc| && run[i].pc[t] != Idle && !run[i].pc[t].Done?
    requires run[i].pc[t].Sleep? ==> run[i].kernel > 0 || run[i].pc[t].req.kind.Timed?
    requires run[i].pc[t].SignalPost? ==> run[i].pc[t].remaining > 0
    ensures AtomicStep(run[i], s', t)
  {
    RunKeepsInvariant(run, i);
    assert CallOk(run[i].pc[t]);
    s' := NextOf(run[i], t);
  }

  lemma NextOf(s: State, t: Thread) returns (s': State)
    requires t < |s.pc| && CallOk(s.pc[t]) && s.pc[t] != Idle && !s.pc[t].Done?
    requires s.pc[t].Sleep? ==> s.kernel > 0 || s.pc[t].req.kind.Timed?
    requires s.pc[t].SignalPost? ==> s.pc[t].remaining > 0
    ensures AtomicStep(s, s', t)
  {
    match s.pc[t]
    case TryLoad(req, max, held) =>
      s' := s.(pc := s.pc[t := if s.count > 0 then TryCas(req, max, held, s.count) else NothingAvailable(req, held)]);
      assert DoTryLoad(s, s', t);
    case TryCas(req, max, held, was) =>
      s' := s.(pc := s.pc[t := if s.count > 0 then TryCas(req, max, held, s.count) else NothingAvailable(req, held)]);
      assert DoTryCas(s, s', t);
    case SpinLoad(req) =>
      s' := s.(pc := s.pc[t := if s.count > 0 then SpinCas(req, s.count) else SpinLoad(req)]);
      assert DoSpinLoad(s, s', t);
    case SpinCas(req, was) =>
      var taken := Min(was, req.max);
      s' := if s.count == was
            then s.(count := s.count - taken, granted := s.granted + taken, pc := s.pc[t := Done(req, taken)])
            else s.(pc := s.pc[t := SpinLoad(req)]);
      assert DoSpinCas(s, s', t);
    case Subtract(req) =>
      s' := if s.count > 0
            then s.(count := s.count - 1, granted := s.granted + 1, pc := s.pc[t := HoldingOne(req)])
            else s.(count := s.count - 1, pc := s.pc[t := Sleep(req)]);
      assert DoSubtract(s, s', t);
    case SignalAdd(permits) =>
      var release := Min(-s.count, permits);
      s' := s.(
        count := s.count + permits,
        signalled := s.signalled + permits,
        pc := s.pc[t := if release > 0 then SignalPost(release) else Idle]);
      assert DoSignalAdd(s, s', t);
    case SignalPost(remaining) =>
      s' := s.(
        kernel := s.kernel + 1,
        pc := s.pc[t := if remaining > 1 then SignalPost(remaining - 1) else Idle]);
      assert DoSignalPost(s, s', t);
    case _ => s' := NextOfSleeper(s, t);
  }

  lemma NextOfSleeper(s: State, t: Thread) returns (s': State)
    requires t < |s.pc| && (s.pc[t].Sleep? || s.pc[t].RollLoad? || s.pc[t].RollTryWait? || s.pc[t].RollCas?)
    requires s.pc[t].Sleep? ==> s.kernel > 0 || s.pc[t].req.kind.Timed?
    ensures AtomicStep(s, s', t)
  {
    var req := s.pc[t].req;
    if s.pc[t].RollLoad? {
      s' := s.(pc := s.pc[t := if s.count >= 0 then RollTryWait(req) else RollCas(req, s.count)]);
      assert DoRollLoad(s, s', t);
    } else if s.pc[t].RollCas? {
      s' := if s.count == s.pc[t].was then s.(count := s.count + 1, pc := s.pc[t := Done(req, 0)])
            else s.(pc := s.pc[t := RollLoad(req)]);
      assert DoRollCas(s, s', t);
    } else if s.kernel > 0 {
      s' := s.(kernel := s.kernel - 1, granted := s.granted + 1, pc := s.pc[t := HoldingOne(req)]);
      assert TakeKernelToken(s, s', t);
    } else {
      s' := s.(pc := s.pc[t := RollLoad(req)]);
      assert TimeOut(s, s', t) || RollTryWaitFails(s, s', t);
    }
  }
}
