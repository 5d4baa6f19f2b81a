/**
 * The dequeue protocol of one producer's sub-queue in libs/moodycamel/concurrentqueue.h: the
 * counters tailIndex, headIndex, dequeueOptimisticCount and dequeueOvercommit, as ExplicitProducer's
 * and ImplicitProducer's dequeue and dequeue_bulk use them (lines 1885-1983, 2170-2261).
 *
 * One transition is one atomic access; any number of consumers interleave with the one producer
 * under sequential consistency. dequeue makes the same accesses as dequeue_bulk with max == 1, so
 * one machine covers both. Indexes are unbounded here; module CircularIndex shows when the code's
 * wrapped 64-bit comparison gives the same answers.
 *
 * Every unit added to dequeueOptimisticCount is a numbered ticket. Three fields are history, read
 * by no step: the tickets that passed the test (`passed`), those that failed it and were given back
 * through dequeueOvercommit (`failed`), and who claimed each index below headIndex (`claimedBy`).
 */
module DequeueCounters {
  import opened Sums

  type Thread = nat

  datatype Pc =
    | Idle
    | LoadTail(max: nat)
    | LoadOvercommit(max: nat, tail: nat)
    | LoadOptimistic(max: nat, tail: nat, overcommit: nat)
    | AddOptimistic(desired: nat, overcommit: nat)
    | ReloadTail(desired: nat, overcommit: nat, ticket: nat)
    | GiveBackSome(actual: nat, desired: nat, ticket: nat)
    | GiveBackAll(desired: nat, ticket: nat)
    | AddHead(actual: nat)
    | Claimed(first: nat, count: nat)

  datatype State = State(
    tail: nat,
    head: nat,
    optimistic: nat,
    overcommit: nat,
    pc: seq<Pc>,
    passed: set<nat>,
    failed: set<nat>,
    claimedBy: seq<Thread>)

  function Min(a: int, b: int): int {
    if a < b then a else b
  }

  predicate Within(x: nat, first: nat, count: nat) {
    first <= x < first + count
  }

  function Tickets(first: nat, count: nat): (r: set<nat>) {
    set x | 0 <= x < first + count && Within(x, first, count)
  }

  // ---------------------------------------------------------------- transitions

  ghost predicate Init(s: State) {
    && s.tail == s.head == s.optimistic == s.overcommit == 0
    && (forall t | 0 <= t < |s.pc| :: s.pc[t] == Idle)
    && s.passed == {} && s.failed == {} && s.claimedBy == []
  }

  /** The producer publishes `count` more elements (enqueue or enqueue_bulk). */
  ghost predicate Enqueue(s: State, s': State, count: nat) {
    s' == s.(tail := s.tail + count)
  }

  ghost predicate Begin(s: State, s': State, t: Thread, max: nat) {
    && t < |s.pc| && s.pc[t] == Idle
    && s' == s.(pc := s.pc[t := LoadTail(max)])
  }

  ghost predicate DoLoad(s: State, s': State, t: Thread) {
    && t < |s.pc|
    && match s.pc[t]
       case LoadTail(max) => s' == s.(pc := s.pc[t := LoadOvercommit(max, s.tail)])
       case LoadOvercommit(max, tail) => s' == s.(pc := s.pc[t := LoadOptimistic(max, tail, s.overcommit)])
       case LoadOptimistic(max, tail, overcommit) =>
         var desired := tail - (s.optimistic - overcommit);
         s' == s.(pc := s.pc[t := if desired > 0 then AddOptimistic(Min(desired, max), overcommit) else Idle])
       case _ => false
  }

  ghost predicate DoAddOptimistic(s: State, s': State, t: Thread) {
    && t < |s.pc| && s.pc[t].AddOptimistic?
    && var AddOptimistic(desired, overcommit) := s.pc[t];
    && s' == s.(
      optimistic := s.optimistic + desired,
      pc := s.pc[t := ReloadTail(desired, overcommit, s.optimistic)])
  }

  /** The decisive test, against a fresh tail but a possibly stale overcommit. */
  ghost predicate DoReloadTail(s: State, s': State, t: Thread) {
    && t < |s.pc| && s.pc[t].ReloadTail?
    && var ReloadTail(desired, overcommit, ticket) := s.pc[t];
    && var available := s.tail - (ticket - overcommit);
    && if available > 0 then
         var actual := Min(desired, available);
         s' == s.(
           pc := s.pc[t := if actual < desired then GiveBackSome(actual, desired, ticket) else AddHead(actual)],
           passed := s.passed + Tickets(ticket, actual))
       else
         s' == s.(pc := s.pc[t := GiveBackAll(desired, ticket)])
  }

  ghost predicate DoGiveBack(s: State, s': State, t: Thread) {
    && t < |s.pc|
    && match s.pc[t]
       case GiveBackSome(actual, desired, ticket) =>
         && actual <= desired
         && s' == s.(
           overcommit := s.overcommit + (desired - actual),
           pc := s.pc[t := AddHead(actual)],
           failed := s.failed + Tickets(ticket + actual, desired - actual))
       case GiveBackAll(desired, ticket) =>
         && s' == s.(
           overcommit := s.overcommit + desired,
           pc := s.pc[t := Idle],
           failed := s.failed + Tickets(ticket, desired))
       case _ => false
  }

  ghost predicate DoAddHead(s: State, s': State, t: Thread) {
    && t < |s.pc| && s.pc[t].AddHead?
    && var AddHead(actual) := s.pc[t];
    && s' == s.(
      head := s.head + actual,
      pc := s.pc[t := Claimed(s.head, actual)],
      claimedBy := s.claimedBy + seq(actual, _ => t))
  }

  /** The claimed elements have been moved out and the call returns. */
  ghost predicate DoReturn(s: State, s': State, t: Thread) {
    && t < |s.pc| && s.pc[t].Claimed?
    && s' == s.(pc := s.pc[t := Idle])
  }

  ghost predicate ConsumerStep(s: State, s': State, t: Thread) {
    || DoLoad(s, s', t)
    || DoAddOptimistic(s, s', t)
    || DoReloadTail(s, s', t)
    || DoGiveBack(s, s', t)
    || DoAddHead(s, s', t)
    || DoReturn(s, s', t)
  }

  ghost predicate Step(s: State, s': State) {
    || (exists count :: Enqueue(s, s', count))
    || (exists t, max :: Begin(s, s', t, max))
    || (exists t :: ConsumerStep(s, s', t))
  }

  // ---------------------------------------------------------------- the invariant

  /** Tickets a thread has drawn and that are neither passed nor given back yet. */
  function Undecided(pc: Pc): (r: set<nat>) {
    match pc
    case ReloadTail(desired, _, ticket) => Tickets(ticket, desired)
    case GiveBackSome(actual, desired, ticket) =>
      if actual <= desired then Tickets(ticket + actual, desired - actual) else {}
    case GiveBackAll(desired, ticket) => Tickets(ticket, desired)
    case _ => {}
  }

  function UndecidedCount(pc: Pc): nat {
    match pc
    case ReloadTail(desired, _, _) => desired
    case GiveBackSome(actual, desired, _) => if actual <= desired then desired - actual else 0
    case GiveBackAll(desired, _) => desired
    case _ => 0
  }

  /** Passed tickets whose indexes have not been taken from headIndex yet. */
  function UnclaimedCount(pc: Pc): nat {
    match pc
    case GiveBackSome(actual, _, _) => actual
    case AddHead(actual) => actual
    case _ => 0
  }

  function Below(tickets: set<nat>, bound: nat): (r: set<nat>) {
    set x | x in tickets && x < bound
  }

  predicate ThreadOk(s: State, t: Thread)
    requires t < |s.pc|
  {
    match s.pc[t]
    case LoadOptimistic(_, _, overcommit) => overcommit <= s.overcommit
    case AddOptimistic(_, overcommit) => overcommit <= s.overcommit
    case ReloadTail(_, overcommit, ticket) => overcommit <= |Below(s.failed, ticket)|
    case GiveBackSome(actual, desired, ticket) => actual < desired
    case Claimed(first, count) =>
      && first + count <= |s.claimedBy|
      && forall x | 0 <= x < first + count && Within(x, first, count) :: s.claimedBy[x] == t
    case _ => true
  }

  /** The undecided tickets of a thread have been drawn, and nothing is settled about them. */
  predicate Fresh(s: State, t: Thread)
    requires t < |s.pc|
  {
    forall x | x in Undecided(s.pc[t]) :: x < s.optimistic && x !in s.passed && x !in s.failed
  }

  /** No ticket was drawn twice. */
  predicate Apart(s: State, t: Thread, u: Thread)
    requires t < |s.pc| && u < |s.pc|
  {
    t != u ==> forall x | x in Undecided(s.pc[t]) :: x !in Undecided(s.pc[u])
  }

  /** Why a ticket could pass: with the failures before it discounted, it is below the tail. */
  predicate PassedOk(s: State, x: nat) {
    x + 1 <= s.tail + |Below(s.failed, x)|
  }

  ghost predicate Inv(s: State) {
    && s.passed !! s.failed
    && (forall x | x in s.failed :: x < s.optimistic)
    && (forall x | x in s.passed :: x < s.optimistic)
    && (forall x | x in s.passed :: PassedOk(s, x))
    && (forall t | 0 <= t < |s.pc| :: ThreadOk(s, t))
    && (forall t | 0 <= t < |s.pc| :: Fresh(s, t))
    && (forall t, u | 0 <= t < |s.pc| && 0 <= u < |s.pc| :: Apart(s, t, u))
    && s.overcommit == |s.failed|
    && |s.claimedBy| == s.head
    && s.head + Sum(s.pc, UnclaimedCount) == |s.passed|
    && |s.passed| + |s.failed| + Sum(s.pc, UndecidedCount) == s.optimistic
  }

  // ---------------------------------------------------------------- counting

  lemma {:induction false} TicketsCount(first: nat, count: nat)
    ensures |Tickets(first, count)| == count
  {
    if count == 0 {
      assert Tickets(first, count) == {};
    } else {
      TicketsCount(first, count - 1);
      assert Tickets(first, count) == Tickets(first, count - 1) + {first + count - 1};
    }
  }

  lemma {:induction false} SubsetSize(a: set<nat>, b: set<nat>)
    requires a <= b
    ensures |a| <= |b|
  {
    assert b == a + (b - a);
  }

  lemma BelowGrows(a: set<nat>, b: set<nat>, x: nat, y: nat)
    requires a <= b && x <= y
    ensures |Below(a, x)| <= |Below(b, y)|
  {
    SubsetSize(Below(a, x), Below(b, y));
  }

  lemma UnionSize(a: set<nat>, b: set<nat>)
    requires a !! b
    ensures |a + b| == |a| + |b|
  {
  }

  // ---------------------------------------------------------------- every step keeps the invariant

  /** The central counting argument: of the tickets up to the largest one that passed, enough were
      given back that no more can have passed than elements were ever enqueued. */
  lemma PassedWithinTail(s: State)
    requires s.passed !! s.failed
    requires forall x | x in s.passed :: PassedOk(s, x)
    ensures |s.passed| <= s.tail
  {
    if s.passed != {} {
      var m := Largest(s.passed);
      assert PassedOk(s, m);
      var low := Below(s.failed, m);
      SubsetSize(s.passed + low, Tickets(0, m + 1));
      TicketsCount(0, m + 1);
      UnionSize(s.passed, low);
    }
  }

  lemma Largest(a: set<nat>) returns (m: nat)
    requires a != {}
    ensures m in a && forall x | x in a :: x <= m
  {
    var e :| e in a;
    if a == {e} {
      m := e;
    } else {
      m := Largest(a - {e});
      if m < e {
        m := e;
      }
      assert forall x | x in a :: x == e || x in a - {e};
    }
  }

  /** A step that draws no ticket and decides none, as all but three kinds of steps are. */
  ghost predicate KeepsTickets(s: State, s': State) {
    && s'.passed == s.passed && s'.failed == s.failed && s'.optimistic == s.optimistic
    && s.tail <= s'.tail && |s'.pc| == |s.pc|
    && forall u | 0 <= u < |s.pc| :: Undecided(s'.pc[u]) == Undecided(s.pc[u])
  }

  lemma TicketsStay(s: State, s': State)
    requires Inv(s) && KeepsTickets(s, s')
    ensures forall u | 0 <= u < |s'.pc| :: Fresh(s', u)
    ensures forall u, v | 0 <= u < |s'.pc| && 0 <= v < |s'.pc| :: Apart(s', u, v)
    ensures forall x | x in s'.passed :: PassedOk(s', x)
  {
    hide Undecided, Below, ThreadOk;
    forall u | 0 <= u < |s'.pc|
      ensures Fresh(s', u)
    {
      assert Fresh(s, u);
    }
    forall u, v | 0 <= u < |s'.pc| && 0 <= v < |s'.pc|
      ensures Apart(s', u, v)
    {
      assert Apart(s, u, v);
    }
    forall x | x in s'.passed
      ensures PassedOk(s', x)
    {
      assert PassedOk(s, x);
    }
  }

  lemma LoadThread(s: State, s': State, t: Thread, u: Thread)
    requires u < |s.pc| && DoLoad(s, s', t) && ThreadOk(s, t) && ThreadOk(s, u)
    ensures ThreadOk(s', u)
  {
    hide Below;
  }

  lemma LoadKeeps(s: State, s': State, t: Thread)
    requires Inv(s) && DoLoad(s, s', t)
    ensures Inv(s')
  {
    TicketsStay(s, s');
    SumAfter(s.pc, UnclaimedCount, t, s'.pc[t]);
    SumAfter(s.pc, UndecidedCount, t, s'.pc[t]);
    assert ThreadOk(s, t);
    forall u | 0 <= u < |s'.pc|
      ensures ThreadOk(s', u)
    {
      LoadThread(s, s', t, u);
    }
    hide ThreadOk, Fresh, Apart, PassedOk;
  }

  lemma AddOptimisticKeeps(s: State, s': State, t: Thread)
    requires Inv(s) && DoAddOptimistic(s, s', t)
    ensures Inv(s')
  {
    SumAfter(s.pc, UnclaimedCount, t, s'.pc[t]);
    SumAfter(s.pc, UndecidedCount, t, s'.pc[t]);
    assert ThreadOk(s, t) && Fresh(s, t);
    assert Below(s.failed, s.optimistic) == s.failed;
    forall u | 0 <= u < |s'.pc|
      ensures ThreadOk(s', u) && Fresh(s', u)
    {
      assert ThreadOk(s, u) && Fresh(s, u);
    }
    forall u, v | 0 <= u < |s'.pc| && 0 <= v < |s'.pc|
      ensures Apart(s', u, v)
    {
      assert Apart(s, u, v) && Fresh(s, u) && Fresh(s, v);
    }
    forall x | x in s'.passed
      ensures PassedOk(s', x)
    {
      assert PassedOk(s, x);
    }
  }

  /** What the test settles about tickets concerns those of its own thread. */
  lemma ReloadTailSettles(s: State, s': State, t: Thread)
    requires t < |s.pc| && Fresh(s, t) && DoReloadTail(s, s', t)
    ensures forall x | x in Undecided(s'.pc[t]) :: x in Undecided(s.pc[t]) && x !in s'.passed
    ensures forall x | x in s'.passed :: x in s.passed || x in Undecided(s.pc[t])
  {
  }

  lemma ReloadTailThread(s: State, s': State, t: Thread, u: Thread)
    requires t < |s.pc| && u < |s.pc| && DoReloadTail(s, s', t)
    requires ThreadOk(s, t) && Fresh(s, t) && ThreadOk(s, u) && Fresh(s, u) && Apart(s, u, t)
    ensures ThreadOk(s', u) && Fresh(s', u)
  {
    ReloadTailSettles(s, s', t);
    hide Undecided, Tickets;
  }

  lemma ReloadTailThreads(s: State, s': State, t: Thread)
    requires Inv(s) && DoReloadTail(s, s', t)
    ensures forall u | 0 <= u < |s'.pc| :: ThreadOk(s', u) && Fresh(s', u)
    ensures forall u, v | 0 <= u < |s'.pc| && 0 <= v < |s'.pc| :: Apart(s', u, v)
  {
    ReloadTailSettles(s, s', t);
    forall u | 0 <= u < |s'.pc|
      ensures ThreadOk(s', u) && Fresh(s', u)
    {
      ReloadTailThread(s, s', t, u);
    }
    hide Undecided, Tickets, ThreadOk, Fresh, PassedOk;
    forall u, v | 0 <= u < |s'.pc| && 0 <= v < |s'.pc|
      ensures Apart(s', u, v)
    {
      assert Apart(s, u, v);
    }
  }

  lemma NewlyPassed(s: State, overcommit: nat, ticket: nat, actual: nat, x: nat)
    requires overcommit <= |Below(s.failed, ticket)| && actual <= s.tail - (ticket - overcommit)
    requires Within(x, ticket, actual)
    ensures PassedOk(s, x)
  {
    BelowGrows(s.failed, s.failed, ticket, x);
  }

  lemma FreshTickets(s: State, t: Thread, actual: nat)
    requires t < |s.pc| && Fresh(s, t) && s.pc[t].ReloadTail? && actual <= s.pc[t].desired
    ensures s.passed !! Tickets(s.pc[t].ticket, actual)
  {
    assert Tickets(s.pc[t].ticket, actual) <= Undecided(s.pc[t]);
  }

  lemma ReloadTailCounts(s: State, s': State, t: Thread)
    requires t < |s.pc| && Fresh(s, t) && DoReloadTail(s, s', t)
    ensures |s'.passed| == |s.passed| + UnclaimedCount(s'.pc[t])
    ensures UnclaimedCount(s'.pc[t]) + UndecidedCount(s'.pc[t]) == UndecidedCount(s.pc[t])
  {
    hide Tickets, Fresh;
    var ReloadTail(desired, overcommit, ticket) := s.pc[t];
    var available := s.tail - (ticket - overcommit);
    if available > 0 {
      var actual := Min(desired, available);
      TicketsCount(ticket, actual);
      FreshTickets(s, t, actual);
      UnionSize(s.passed, Tickets(ticket, actual));
    }
  }

  lemma ReloadTailPasses(s: State, s': State, t: Thread)
    requires t < |s.pc| && ThreadOk(s, t) && DoReloadTail(s, s', t)
    requires forall x | x in s.passed :: PassedOk(s, x)
    ensures forall x | x in s'.passed :: PassedOk(s', x)
  {
    var ReloadTail(desired, overcommit, ticket) := s.pc[t];
    forall x | x in s'.passed
      ensures PassedOk(s', x)
    {
      if x in s.passed {
        assert PassedOk(s, x);
      } else {
        NewlyPassed(s, overcommit, ticket, Min(desired, s.tail - (ticket - overcommit)), x);
      }
    }
  }

  lemma ReloadTailSums(s: State, s': State, t: Thread)
    requires t < |s.pc| && Fresh(s, t) && DoReloadTail(s, s', t)
    requires s.head + Sum(s.pc, UnclaimedCount) == |s.passed|
    requires |s.passed| + |s.failed| + Sum(s.pc, UndecidedCount) == s.optimistic
    ensures s'.head + Sum(s'.pc, UnclaimedCount) == |s'.passed|
    ensures |s'.passed| + |s'.failed| + Sum(s'.pc, UndecidedCount) == s'.optimistic
  {
    ReloadTailCounts(s, s', t);
    SumAfter(s.pc, UnclaimedCount, t, s'.pc[t]);
    SumAfter(s.pc, UndecidedCount, t, s'.pc[t]);
    hide Tickets, Fresh;
  }

  lemma ReloadTailBounds(s: State, s': State, t: Thread)
    requires t < |s.pc| && Fresh(s, t) && DoReloadTail(s, s', t)
    requires s.passed !! s.failed && forall x | x in s.passed :: x < s.optimistic
    ensures s'.passed !! s'.failed && forall x | x in s'.passed :: x < s'.optimistic
  {
    ReloadTailSettles(s, s', t);
    hide Tickets, Undecided;
  }

  lemma ReloadTailKeeps(s: State, s': State, t: Thread)
    requires Inv(s) && DoReloadTail(s, s', t)
    ensures Inv(s')
  {
    ReloadTailThreads(s, s', t);
    assert ThreadOk(s, t) && Fresh(s, t);
    ReloadTailBounds(s, s', t);
    ReloadTailPasses(s, s', t);
    ReloadTailSums(s, s', t);
    hide ThreadOk, Fresh, Apart, PassedOk, Tickets;
  }

  /** The tickets given back are those the thread had undecided. */
  lemma GiveBackSettles(s: State, s': State, t: Thread)
    requires t < |s.pc| && Fresh(s, t) && DoGiveBack(s, s', t)
    ensures s'.failed == s.failed + Undecided(s.pc[t])
    ensures |s'.failed| == |s.failed| + UndecidedCount(s.pc[t])
    ensures s'.overcommit == s.overcommit + UndecidedCount(s.pc[t])
  {
    hide Tickets;
    var given := Undecided(s.pc[t]);
    assert s.failed !! given;
    UnionSize(s.failed, given);
    if s.pc[t].GiveBackSome? {
      TicketsCount(s.pc[t].ticket + s.pc[t].actual, s.pc[t].desired - s.pc[t].actual);
    } else {
      TicketsCount(s.pc[t].ticket, s.pc[t].desired);
    }
  }

  lemma GiveBackThread(s: State, s': State, t: Thread, u: Thread)
    requires t < |s.pc| && u < |s.pc| && DoGiveBack(s, s', t) && ThreadOk(s, u)
    ensures ThreadOk(s', u)
  {
    hide Below, Tickets;
    if s.pc[u].ReloadTail? {
      BelowGrows(s.failed, s'.failed, s.pc[u].ticket, s.pc[u].ticket);
    }
  }

  lemma GiveBackThreads(s: State, s': State, t: Thread)
    requires Inv(s) && DoGiveBack(s, s', t)
    ensures forall u | 0 <= u < |s'.pc| :: ThreadOk(s', u)
  {
    forall u | 0 <= u < |s'.pc|
      ensures ThreadOk(s', u)
    {
      GiveBackThread(s, s', t, u);
    }
  }

  lemma GiveBackTickets(s: State, s': State, t: Thread)
    requires Inv(s) && DoGiveBack(s, s', t) && s'.failed == s.failed + Undecided(s.pc[t])
    ensures forall u | 0 <= u < |s'.pc| :: Fresh(s', u)
    ensures forall u, v | 0 <= u < |s'.pc| && 0 <= v < |s'.pc| :: Apart(s', u, v)
    ensures forall x | x in s'.passed :: PassedOk(s', x)
    ensures s'.passed !! s'.failed
  {
    assert Fresh(s, t);
    forall u | 0 <= u < |s'.pc|
      ensures Fresh(s', u)
    {
      assert Fresh(s, u) && Apart(s, u, t);
    }
    forall u, v | 0 <= u < |s'.pc| && 0 <= v < |s'.pc|
      ensures Apart(s', u, v)
    {
      assert Apart(s, u, v);
    }
    forall x | x in s'.passed
      ensures PassedOk(s', x)
    {
      assert PassedOk(s, x);
      BelowGrows(s.failed, s'.failed, x, x);
    }
  }

  lemma GiveBackSums(s: State, s': State, t: Thread)
    requires t < |s.pc| && DoGiveBack(s, s', t) && |s'.failed| == |s.failed| + UndecidedCount(s.pc[t])
    requires s.head + Sum(s.pc, UnclaimedCount) == |s.passed|
    requires |s.passed| + |s.failed| + Sum(s.pc, UndecidedCount) == s.optimistic
    ensures s'.head + Sum(s'.pc, UnclaimedCount) == |s'.passed|
    ensures |s'.passed| + |s'.failed| + Sum(s'.pc, UndecidedCount) == s'.optimistic
  {
    hide Tickets;
    SumAfter(s.pc, UnclaimedCount, t, s'.pc[t]);
    SumAfter(s.pc, UndecidedCount, t, s'.pc[t]);
  }

  lemma GiveBackKeeps(s: State, s': State, t: Thread)
    requires Inv(s) && DoGiveBack(s, s', t)
    ensures Inv(s')
  {
    assert Fresh(s, t);
    GiveBackSettles(s, s', t);
    GiveBackThreads(s, s', t);
    GiveBackTickets(s, s', t);
    GiveBackSums(s, s', t);
    hide ThreadOk, Apart, PassedOk, Tickets, Undecided;
  }

  /** The indexes a thread takes are its own, and nobody else's change. */
  lemma AddHeadThread(s: State, s': State, t: Thread, u: Thread)
    requires u < |s.pc| && (DoAddHead(s, s', t) || DoReturn(s, s', t))
    requires |s.claimedBy| == s.head && ThreadOk(s, u)
    ensures ThreadOk(s', u)
  {
    hide Below;
  }

  lemma AddHeadKeeps(s: State, s': State, t: Thread)
    requires Inv(s) && (DoAddHead(s, s', t) || DoReturn(s, s', t))
    ensures Inv(s')
  {
    TicketsStay(s, s');
    SumAfter(s.pc, UnclaimedCount, t, s'.pc[t]);
    SumAfter(s.pc, UndecidedCount, t, s'.pc[t]);
    forall u | 0 <= u < |s'.pc|
      ensures ThreadOk(s', u)
    {
      AddHeadThread(s, s', t, u);
    }
    hide ThreadOk, Fresh, Apart, PassedOk;
  }

  lemma BeginKeeps(s: State, s': State, t: Thread, max: nat)
    requires Inv(s) && Begin(s, s', t, max)
    ensures Inv(s')
  {
    TicketsStay(s, s');
    hide Fresh, Apart, PassedOk;
    SumAfter(s.pc, UnclaimedCount, t, s'.pc[t]);
    SumAfter(s.pc, UndecidedCount, t, s'.pc[t]);
    forall u | 0 <= u < |s'.pc|
      ensures ThreadOk(s', u)
    {
      assert ThreadOk(s, u);
    }
  }

  lemma EnqueueKeeps(s: State, s': State, count: nat)
    requires Inv(s) && Enqueue(s, s', count)
    ensures Inv(s')
  {
    TicketsStay(s, s');
    hide Fresh, Apart, PassedOk;
    forall u | 0 <= u < |s'.pc|
      ensures ThreadOk(s', u)
    {
      assert ThreadOk(s, u);
    }
  }

  lemma StepKeeps(s: State, s': State)
    requires Inv(s) && Step(s, s')
    ensures Inv(s')
  {
    if count: nat :| Enqueue(s, s', count) {
      EnqueueKeeps(s, s', count);
    } else if t: Thread, max: nat :| Begin(s, s', t, max) {
      BeginKeeps(s, s', t, max);
    } else {
      var t: Thread :| ConsumerStep(s, s', t);
      if {
        case DoLoad(s, s', t) => LoadKeeps(s, s', t);
        case DoAddOptimistic(s, s', t) => AddOptimisticKeeps(s, s', t);
        case DoReloadTail(s, s', t) => ReloadTailKeeps(s, s', t);
        case DoGiveBack(s, s', t) => GiveBackKeeps(s, s', t);
        case DoAddHead(s, s', t) || DoReturn(s, s', t) => AddHeadKeeps(s, s', t);
      }
    }
  }

  // ---------------------------------------------------------------- results over whole runs

  ghost predicate IsRun(run: seq<State>) {
    && run != []
    && Init(run[0])
    && forall i | 0 <= i < |run| - 1 :: Step(run[i], run[i + 1])
  }

  lemma InitKeeps(s: State)
    requires Init(s)
    ensures Inv(s)
  {
    SumOfZeros(s.pc, UnclaimedCount);
    SumOfZeros(s.pc, UndecidedCount);
  }

  lemma {:induction false} RunKeepsInvariant(run: seq<State>, i: nat)
    requires IsRun(run) && i < |run|
    ensures Inv(run[i])
  {
    if i == 0 {
      InitKeeps(run[0]);
    } else {
      RunKeepsInvariant(run, i - 1);
      StepKeeps(run[i - 1], run[i]);
    }
  }

  /** A thread that is about to take indexes from headIndex finds that many below tailIndex. */
  lemma ClaimIsBelowTail(s: State, t: Thread)
    requires Inv(s) && t < |s.pc|
    ensures s.head <= s.tail
    ensures s.pc[t].AddHead? ==> s.head + s.pc[t].actual <= s.tail
  {
    PassedWithinTail(s);
    SumAfter(s.pc, UnclaimedCount, t, s.pc[t]);
  }

  /** headIndex never passes tailIndex, even counting every claim that is already committed to, so a
      thread that passed the test always takes indexes of elements that were enqueued. */
  lemma ClaimsStayBelowTail(run: seq<State>, i: nat, t: Thread)
    requires IsRun(run) && i < |run| && t < |run[i].pc|
    ensures run[i].head <= run[i].tail
    ensures run[i].pc[t].AddHead? ==> run[i].head + run[i].pc[t].actual <= run[i].tail
    ensures run[i].pc[t].Claimed? ==> run[i].pc[t].first + run[i].pc[t].count <= run[i].tail
  {
    RunKeepsInvariant(run, i);
    ClaimIsBelowTail(run[i], t);
    assert ThreadOk(run[i], t);
  }

  /** No index is ever claimed by two threads. */
  lemma ClaimsAreDisjoint(run: seq<State>, i: nat, t: Thread, u: Thread, x: nat)
    requires IsRun(run) && i < |run| && t < |run[i].pc| && u < |run[i].pc| && t != u
    requires run[i].pc[t].Claimed? && Within(x, run[i].pc[t].first, run[i].pc[t].count)
    ensures run[i].pc[u].Claimed? ==> !Within(x, run[i].pc[u].first, run[i].pc[u].count)
  {
    RunKeepsInvariant(run, i);
    assert ThreadOk(run[i], t) && ThreadOk(run[i], u);
  }

  /** Conservation: every unit of the optimistic count is an index taken from headIndex, a unit of
      overcommit, or still in the hands of a thread inside the protocol. */
  lemma OptimisticCountIsConserved(run: seq<State>, i: nat)
    requires IsRun(run) && i < |run|
    ensures var s := run[i];
      s.head + s.overcommit + Sum(s.pc, UnclaimedCount) + Sum(s.pc, UndecidedCount) == s.optimistic
  {
    RunKeepsInvariant(run, i);
  }

  predicate Quiet(s: State) {
    forall t | 0 <= t < |s.pc| :: s.pc[t] == Idle
  }

  lemma QuietEstimate(s: State)
    requires Inv(s) && Quiet(s)
    ensures s.optimistic == s.overcommit + s.head && s.head <= s.tail
  {
    SumOfZeros(s.pc, UnclaimedCount);
    SumOfZeros(s.pc, UndecidedCount);
    PassedWithinTail(s);
  }

  /** So between calls the difference that the first test uses is the exact head, and the number of
      elements a dequeue aims for is exactly the number present. */
  lemma QuiescentEstimateIsExact(run: seq<State>, i: nat)
    requires IsRun(run) && i < |run|
    requires Quiet(run[i])
    ensures run[i].optimistic == run[i].overcommit + run[i].head && run[i].head <= run[i].tail
  {
    RunKeepsInvariant(run, i);
    QuietEstimate(run[i]);
  }

  // ---------------------------------------------------------------- what a call that gets little has seen

  /** Thread `t` is inside one call after state `b`, up to state `i`. */
  ghost predicate Inside(run: seq<State>, b: nat, i: nat, t: Thread)
    requires i < |run|
  {
    forall j | b < j <= i :: t < |run[j].pc| && run[j].pc[t] != Idle
  }

  predicate TailAt(run: seq<State>, r: nat, tail: nat) {
    r < |run| && run[r].tail == tail
  }

  predicate OvercommitAt(run: seq<State>, o: nat, overcommit: nat) {
    o < |run| && run[o].overcommit == overcommit
  }

  /** After state `b` and before state `i` the call read this tail; ... */
  ghost predicate ReadTail(run: seq<State>, b: nat, i: nat, tail: nat) {
    exists r :: b < r < i && TailAt(run, r, tail)
  }

  ghost predicate ReadOvercommit(run: seq<State>, b: nat, i: nat, overcommit: nat) {
    exists o :: b < o < i && OvercommitAt(run, o, overcommit)
  }

  predicate DrewAt(run: seq<State>, o: nat, u: nat, overcommit: nat, ticket: nat) {
    o <= u < |run| && run[o].overcommit == overcommit && run[u].optimistic == ticket
  }

  /** ... it read this overcommit and later drew this ticket; ... */
  ghost predicate Drew(run: seq<State>, b: nat, i: nat, overcommit: nat, ticket: nat) {
    exists o: nat, u: nat :: b < o && u < i && DrewAt(run, o, u, overcommit, ticket)
  }

  predicate EnoughAt(run: seq<State>, l: nat, o: nat, u: nat, got: nat) {
    l < |run| && o <= u < |run| && run[l].tail <= run[u].optimistic - run[o].overcommit + got
  }

  /** ... by what it read, no more than `got` elements were there for it. */
  ghost predicate Enough(run: seq<State>, b: nat, i: nat, got: nat) {
    exists l: nat, o: nat, u: nat :: b < l < i && b < o && u < i && EnoughAt(run, l, o, u, got)
  }

  /** What the program point of a thread says about the reads of its call, which asked for `max`. */
  ghost predicate Informed(run: seq<State>, b: nat, i: nat, max: nat, pc: Pc) {
    match pc
    case Idle => true
    case LoadTail(m) => m == max
    case LoadOvercommit(m, tail) => m == max && ReadTail(run, b, i, tail)
    case LoadOptimistic(m, tail, overcommit) =>
      m == max && ReadTail(run, b, i, tail) && ReadOvercommit(run, b, i, overcommit)
    case AddOptimistic(desired, overcommit) =>
      desired <= max && ReadOvercommit(run, b, i, overcommit) && (desired < max ==> Enough(run, b, i, desired))
    case ReloadTail(desired, overcommit, ticket) =>
      desired <= max && Drew(run, b, i, overcommit, ticket) && (desired < max ==> Enough(run, b, i, desired))
    case GiveBackSome(actual, desired, _) => actual <= desired <= max && Enough(run, b, i, actual)
    case GiveBackAll(_, _) => Enough(run, b, i, 0)
    case AddHead(actual) => actual <= max && (actual < max ==> Enough(run, b, i, actual))
    case Claimed(_, count) => count <= max && (count < max ==> Enough(run, b, i, count))
  }

  lemma InformedLater(run: seq<State>, b: nat, i: nat, max: nat, pc: Pc)
    requires Informed(run, b, i, max, pc)
    ensures Informed(run, b, i + 1, max, pc)
  {
    hide TailAt, OvercommitAt, DrewAt, EnoughAt;
  }

  /** One access of the call itself. */
  lemma InformedNext(run: seq<State>, b: nat, i: nat, t: Thread, max: nat)
    requires b < i < |run| - 1 && t < |run[i].pc| && t < |run[i + 1].pc|
    requires ConsumerStep(run[i], run[i + 1], t) && Informed(run, b, i, max, run[i].pc[t])
    ensures Informed(run, b, i + 1, max, run[i + 1].pc[t])
    ensures run[i + 1].pc[t] == Idle && !run[i].pc[t].Claimed? ==> Enough(run, b, i + 1, 0)
  {
    var s, s' := run[i], run[i + 1];
    InformedLater(run, b, i, max, s.pc[t]);
    match s.pc[t]
    case LoadTail(_) =>
      assert TailAt(run, i, s.tail);
    case LoadOvercommit(_, _) =>
      assert OvercommitAt(run, i, s.overcommit);
    case LoadOptimistic(_, tail, overcommit) =>
      var l :| b < l < i && TailAt(run, l, tail);
      var o :| b < o < i && OvercommitAt(run, o, overcommit);
      var desired := tail - (s.optimistic - overcommit);
      assert EnoughAt(run, l, o, i, if desired > 0 then desired else 0);
    case AddOptimistic(_, overcommit) =>
      var o :| b < o < i && OvercommitAt(run, o, overcommit);
      assert DrewAt(run, o, i, overcommit, s.optimistic);
    case ReloadTail(_, overcommit, ticket) =>
      var o: nat, u: nat :| b < o && u < i && DrewAt(run, o, u, overcommit, ticket);
      var available := s.tail - (ticket - overcommit);
      assert EnoughAt(run, i, o, u, if available > 0 then available else 0);
    case _ =>
  }

  lemma InformedStep(run: seq<State>, b: nat, i: nat, t: Thread, max: nat)
    requires b < i < |run| - 1 && t < |run[i].pc| && Step(run[i], run[i + 1])
    requires run[i].pc[t] != Idle && Informed(run, b, i, max, run[i].pc[t])
    ensures t < |run[i + 1].pc| && Informed(run, b, i + 1, max, run[i + 1].pc[t])
    ensures run[i + 1].pc[t] == Idle && !run[i].pc[t].Claimed? ==> Enough(run, b, i + 1, 0)
  {
    hide Informed, Enough, ConsumerStep;
    InformedLater(run, b, i, max, run[i].pc[t]);
    StepOfAnother(run[i], run[i + 1], t);
    if ConsumerStep(run[i], run[i + 1], t) {
      InformedNext(run, b, i, t, max);
    }
  }

  lemma StepOfAnother(s: State, s': State, t: Thread)
    requires Step(s, s') && t < |s.pc| && s.pc[t] != Idle
    ensures |s'.pc| == |s.pc| && (s'.pc[t] == s.pc[t] || ConsumerStep(s, s', t))
  {
  }

  lemma {:induction false} CallIsInformed(run: seq<State>, b: nat, i: nat, t: Thread, max: nat)
    requires IsRun(run) && b < i < |run| && Begin(run[b], run[b + 1], t, max) && Inside(run, b, i, t)
    ensures Informed(run, b, i, max, run[i].pc[t])
  {
    hide Step, Init;
    if b + 1 < i {
      CallIsInformed(run, b, i - 1, t, max);
      hide Informed;
      InformedStep(run, b, i - 1, t, max);
    }
  }

  lemma {:induction false} TailGrows(run: seq<State>, i: nat, j: nat)
    requires IsRun(run) && i <= j < |run|
    ensures run[i].tail <= run[j].tail
  {
    if i < j {
      TailGrows(run, i, j - 1);
      assert Step(run[j - 1], run[j]);
    }
  }

  /**
   * Main result: a dequeue that comes back with fewer elements than it asked for, or with none, leaves no element
   * unspoken for. The tail that it read, which is at least the one when it began, exceeds what it got by at most
   * the indexes taken so far, those that other calls had drawn tickets for, and those given back since the call
   * read how many had been.
   */
  lemma ShortCallsLeaveNothing(run: seq<State>, b: nat, r: nat, t: Thread, max: nat, got: nat)
    returns (l: nat, o: nat, u: nat)
    requires IsRun(run) && b < r < |run| - 1 && Begin(run[b], run[b + 1], t, max) && Inside(run, b, r, t)
    requires t < |run[r + 1].pc| && run[r + 1].pc[t] == Idle
    requires got == if run[r].pc[t].Claimed? then run[r].pc[t].count else 0
    requires run[r].pc[t].Claimed? ==> got < max
    ensures b < l <= r && b < o <= u <= r && run[b].tail <= run[l].tail
    ensures run[l].tail <= run[u].head + Sum(run[u].pc, UnclaimedCount) + Sum(run[u].pc, UndecidedCount)
                           + (run[u].overcommit - run[o].overcommit) + got
  {
    hide Step, Init, Begin;
    CallIsInformed(run, b, r, t, max);
    InformedStep(run, b, r, t, max);
    if run[r].pc[t].Claimed? {
      assert Enough(run, b, r, got);
      hide Informed;
      l, o, u :| b < l < r && b < o && u < r && EnoughAt(run, l, o, u, got);
    } else {
      hide Informed;
      assert Enough(run, b, r + 1, got);
      l, o, u :| b < l < r + 1 && b < o && u < r + 1 && EnoughAt(run, l, o, u, got);
    }
    OptimisticCountIsConserved(run, u);
    TailGrows(run, b, l);
  }

  // ---------------------------------------------------------------- a call that runs alone

  ghost predicate LoneCall(seg: seq<State>, t: Thread, max: nat) {
    && |seg| > 1 && Begin(seg[0], seg[1], t, max)
    && forall i | 1 <= i < |seg| - 1 :: ConsumerStep(seg[i], seg[i + 1], t)
  }

  ghost predicate CanGoOn(s: State, t: Thread) {
    exists s' :: ConsumerStep(s, s', t)
  }

  /** The states of a call for `max` elements that nothing disturbs. */
  function LoneState(s: State, t: Thread, max: nat, k: nat): State
    requires t < |s.pc| && s.head <= s.tail
  {
    var n := Min(s.tail - s.head, max);
    var drawn := s.(optimistic := s.optimistic + n);
    var passed := drawn.(passed := s.passed + Tickets(s.optimistic, n));
    var taken := passed.(head := s.head + n, claimedBy := s.claimedBy + seq(n, _ => t));
    if k == 0 then s
    else if k == 1 then s.(pc := s.pc[t := LoadTail(max)])
    else if k == 2 then s.(pc := s.pc[t := LoadOvercommit(max, s.tail)])
    else if k == 3 then s.(pc := s.pc[t := LoadOptimistic(max, s.tail, s.overcommit)])
    else if s.head == s.tail then s
    else if k == 4 then s.(pc := s.pc[t := AddOptimistic(n, s.overcommit)])
    else if k == 5 then drawn.(pc := s.pc[t := ReloadTail(n, s.overcommit, s.optimistic)])
    else if k == 6 then passed.(pc := s.pc[t := AddHead(n)])
    else if k == 7 then taken.(pc := s.pc[t := Claimed(s.head, n)])
    else taken
  }

  function LoneLength(s: State): nat {
    if s.head == s.tail then 4 else 8
  }

  lemma LoneStep(s: State, s': State, t: Thread, max: nat, k: nat)
    requires t < |s.pc| && s.pc[t] == Idle && s.head <= s.tail && s.optimistic == s.overcommit + s.head
    requires 1 <= k <= LoneLength(s)
    ensures ConsumerStep(LoneState(s, t, max, k), s', t)
        <==> k < LoneLength(s) && s' == LoneState(s, t, max, k + 1)
  {
    hide Tickets;
  }

  /** Where a call that runs alone can stand. */
  lemma LoneStateEnds(s: State, t: Thread, max: nat, k: nat)
    requires t < |s.pc| && s.pc[t] == Idle && s.head <= s.tail && 1 <= k <= LoneLength(s) && k <= 7
    ensures var p := LoneState(s, t, max, k).pc[t];
      && |LoneState(s, t, max, k).pc| == |s.pc|
      && (p.Idle? ==> s.head == s.tail)
      && (p.Claimed? <==> k == 7)
      && (k == 7 ==> s.head < s.tail && p == Claimed(s.head, Min(s.tail - s.head, max)))
  {
    hide Tickets;
  }

  lemma {:induction false} LoneStates(seg: seq<State>, t: Thread, max: nat, k: nat)
    requires LoneCall(seg, t, max) && 1 <= k < |seg| && k <= LoneLength(seg[0])
    requires seg[0].head <= seg[0].tail && seg[0].optimistic == seg[0].overcommit + seg[0].head
    ensures seg[k] == LoneState(seg[0], t, max, k)
  {
    hide ConsumerStep;
    if k > 1 {
      LoneStates(seg, t, max, k - 1);
      LoneStep(seg[0], seg[k], t, max, k - 1);
    }
  }

  /**
   * Main result: a dequeue that runs alone claims exactly as many elements as it asks for, or as there are, from the
   * head on. It fails exactly when there are none, and takes at most eight steps.
   */
  lemma LoneCallClaimsWhatIsThere(seg: seq<State>, t: Thread, max: nat)
    requires LoneCall(seg, t, max) && Inv(seg[0]) && Quiet(seg[0])
    ensures seg[0].head <= seg[0].tail && |seg| <= LoneLength(seg[0]) + 1
    ensures |seg| < LoneLength(seg[0]) + 1 ==> CanGoOn(seg[|seg| - 1], t)
    ensures seg[0].head == seg[0].tail ==> |seg| == 5 ==> seg[4] == seg[0]
    ensures seg[0].head < seg[0].tail && |seg| >= 8 ==>
      && seg[7].pc == seg[0].pc[t := Claimed(seg[0].head, Min(max, seg[0].tail - seg[0].head))]
      && seg[7].tail == seg[0].tail
  {
    var s := seg[0];
    QuietEstimate(s);
    hide Inv, Quiet, ConsumerStep;
    var n := LoneLength(s);
    if |seg| <= n {
      LoneStates(seg, t, max, |seg| - 1);
      LoneStep(s, LoneState(s, t, max, |seg|), t, max, |seg| - 1);
      assert CanGoOn(seg[|seg| - 1], t);
    }
    if |seg| >= 8 && n == 8 {
      LoneStates(seg, t, max, 7);
    }
    if |seg| >= 5 && n == 4 {
      LoneStates(seg, t, max, 4);
    }
    if |seg| > n + 1 {
      assert ConsumerStep(seg[n], seg[n + 1], t);
      LoneStates(seg, t, max, n);
      LoneStep(s, seg[n + 1], t, max, n);
    }
  }
}

/** The comparison of wrapped indexes (libs/moodycamel/concurrentqueue.h, lines 406-417). */
module CircularIndex {
  const RANGE: int := 0x1_0000_0000_0000_0000
  const HALF: int := 0x8000_0000_0000_0000

  function Wrap(x: int): (r: nat) {
    x % RANGE
  }

  /** `static_cast<T>(a - b) > static_cast<T>(1) << (bits - 1)` on 64-bit values. */
  predicate CircularLessThan(a: int, b: int)
    requires 0 <= a < RANGE && 0 <= b < RANGE
  {
    Wrap(a - b) > HALF
  }

  /** On the wrapped images of unbounded indexes the test is the plain order exactly when the first
      is less than half the range below, or at most half the range above, the second. */
  lemma CircularOrderIsPlainOrder(a: int, b: int)
    requires -RANGE < a - b < RANGE
    ensures (CircularLessThan(Wrap(a), Wrap(b)) <==> a < b) <==> -HALF < a - b <= HALF
  {
    WrapDifference(a, b);
  }

  lemma WrapDifference(a: int, b: int)
    ensures Wrap(Wrap(a) - Wrap(b)) == Wrap(a - b)
  {
    assert Wrap(a) - Wrap(b) == (a - b) - RANGE * (a / RANGE - b / RANGE);
    WrapShift(a - b, b / RANGE - a / RANGE);
  }

  lemma {:induction false} WrapShift(x: int, k: int)
    ensures Wrap(x + RANGE * k) == Wrap(x)
    decreases if k < 0 then -k else k
  {
    if k > 0 {
      WrapShift(x, k - 1);
      assert x + RANGE * k == (x + RANGE * (k - 1)) + RANGE;
    } else if k < 0 {
      WrapShift(x, k + 1);
      assert x + RANGE * k == (x + RANGE * (k + 1)) - RANGE;
    }
  }
}
