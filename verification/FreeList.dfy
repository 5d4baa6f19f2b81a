/**
 * The lock-free free list of libs/moodycamel/concurrentqueue.h (lines 1351-1465).
 *
 * One transition is one atomic access; any number of threads interleave under sequential
 * consistency. A node's freeListRefs word is kept as the raw 32-bit number that the code
 * manipulates: a reference count in the low 31 bits and the "should be on the free list"
 * flag in the top bit.
 *
 * Two fields of State are history, and no step of the list's own code reads them: `stack`, the
 * nodes reachable from the head in order, and `phase`, who answers for a node. (`phase` also says
 * which nodes the clients hold, and so which ones they may pass to add.)
 */
module FreeList {

  type Node = nat
  type Thread = nat

  datatype Ptr = Null | At(node: Node)

  const SHOULD_BE_ON_FREELIST: nat := 0x8000_0000
  const WORD: nat := 0x1_0000_0000

  /** Where control goes when add_knowing_refcount_is_zero returns: to add's caller, or
      back into the loop of try_get, which still holds its local `head`. */
  datatype Continuation = Return | Resume(head: Ptr)

  /** The next atomic access of a thread, with the local variables that are live there. */
  datatype Pc =
    | Idle
      // try_get
    | GetLoadHead
    | GetTest(head: Ptr)
    | GetCasRefs(node: Node, refs: nat)
    | GetLoadNext(node: Node)
    | GetCasHead(node: Node, next: Ptr)
    | GetSubTwo(node: Node)
    | GetSubOne(node: Node, head: Ptr)
      // add
    | AddFlag(node: Node)
      // add_knowing_refcount_is_zero
    | PutLoadHead(node: Node, k: Continuation)
    | PutStoreNext(node: Node, head: Ptr, k: Continuation)
    | PutStoreRefs(node: Node, head: Ptr, k: Continuation)
    | PutCasHead(node: Node, head: Ptr, k: Continuation)
    | PutGiveUp(node: Node, head: Ptr, k: Continuation)

  /** Who answers for a node (history only). */
  datatype Phase =
    | Outside              // with the clients of the list
    | Adding(who: Thread)   // inside add, before the flag is set
    | Flagged              // should be on the list; the last reference holder will put it there
    | PutZero(who: Thread)  // being put, refcount still zero
    | PutOne(who: Thread)   // being put, the list's own reference already counted
    | Listed
    | Taken(who: Thread)    // unlinked, references not yet returned

  datatype State = State(
    head: Ptr,
    refs: seq<nat>,
    next: seq<Ptr>,
    pc: seq<Pc>,
    stack: seq<Node>,
    phase: seq<Phase>)

  predicate IsNode(s: State, p: Ptr) {
    p.At? ==> p.node < |s.refs|
  }

  function Resumed(k: Continuation): Pc {
    match k
    case Return => Idle
    case Resume(head) => GetTest(head)
  }

  // ---------------------------------------------------------------- transitions

  ghost predicate Init(s: State) {
    && |s.refs| == |s.next| == |s.phase|
    && s.head == Null
    && s.stack == []
    && (forall n | 0 <= n < |s.refs| :: s.refs[n] == 0 && s.next[n] == Null && s.phase[n] == Outside)
    && (forall t | 0 <= t < |s.pc| :: s.pc[t] == Idle)
  }

  /** A client may add any node that is in the clients' hands. */
  ghost predicate BeginAdd(s: State, s': State, t: Thread, n: Node) {
    && t < |s.pc| && s.pc[t] == Idle
    && n < |s.refs| == |s.phase| && s.phase[n] == Outside
    && s' == s.(pc := s.pc[t := AddFlag(n)], phase := s.phase[n := Adding(t)])
  }

  ghost predicate BeginGet(s: State, s': State, t: Thread) {
    && t < |s.pc| && s.pc[t] == Idle
    && s' == s.(pc := s.pc[t := GetLoadHead])
  }

  /** `freeListRefs.fetch_add(SHOULD_BE_ON_FREELIST) == 0` */
  ghost predicate DoAddFlag(s: State, s': State, t: Thread) {
    && t < |s.pc| && s.pc[t].AddFlag?
    && var n := s.pc[t].node;
    && n < |s.refs| == |s.phase|
    && var was := s.refs[n];
    && s' == s.(
      refs := s.refs[n := (was + SHOULD_BE_ON_FREELIST) % WORD],
      pc := s.pc[t := if was == 0 then PutLoadHead(n, Return) else Idle],
      phase := s.phase[n := if was == 0 then PutZero(t) else Flagged])
  }

  ghost predicate DoGetLoadHead(s: State, s': State, t: Thread) {
    && t < |s.pc| && s.pc[t] == GetLoadHead
    && s' == s.(pc := s.pc[t := GetTest(s.head)])
  }

  /** `while (head != nullptr)`: return null, or load the node's word and test its count. */
  ghost predicate DoGetTest(s: State, s': State, t: Thread) {
    && t < |s.pc| && s.pc[t].GetTest?
    && match s.pc[t].head
       case Null => s' == s.(pc := s.pc[t := Idle])
       case At(n) =>
         && n < |s.refs|
         && s' == s.(pc := s.pc[t :=
           if s.refs[n] % SHOULD_BE_ON_FREELIST == 0 then GetLoadHead else GetCasRefs(n, s.refs[n])])
  }

  ghost predicate DoGetCasRefs(s: State, s': State, t: Thread) {
    && t < |s.pc| && s.pc[t].GetCasRefs?
    && var n := s.pc[t].node;
    && n < |s.refs|
    && s' ==
       if s.refs[n] == s.pc[t].refs then
         s.(refs := s.refs[n := (s.refs[n] + 1) % WORD], pc := s.pc[t := GetLoadNext(n)])
       else
         s.(pc := s.pc[t := GetLoadHead])
  }

  ghost predicate DoGetLoadNext(s: State, s': State, t: Thread) {
    && t < |s.pc| && s.pc[t].GetLoadNext?
    && var n := s.pc[t].node;
    && n < |s.next|
    && s' == s.(pc := s.pc[t := GetCasHead(n, s.next[n])])
  }

  ghost predicate DoGetCasHead(s: State, s': State, t: Thread) {
    && t < |s.pc| && s.pc[t].GetCasHead?
    && var n := s.pc[t].node;
    && n < |s.phase|
    && if s.head == At(n) then
         && s' == s.(
           head := s.pc[t].next,
           pc := s.pc[t := GetSubTwo(n)],
           stack := if s.stack == [] then [] else s.stack[1..],
           phase := s.phase[n := Taken(t)])
       else
         s' == s.(pc := s.pc[t := GetSubOne(n, s.head)])
  }

  /** `freeListRefs.fetch_sub(2)`; the node is handed to the caller. */
  ghost predicate DoGetSubTwo(s: State, s': State, t: Thread) {
    && t < |s.pc| && s.pc[t].GetSubTwo?
    && var n := s.pc[t].node;
    && n < |s.refs| == |s.phase|
    && s' == s.(
      refs := s.refs[n := (s.refs[n] + WORD - 2) % WORD],
      pc := s.pc[t := Idle],
      phase := s.phase[n := Outside])
  }

  /** `freeListRefs.fetch_sub(1) == SHOULD_BE_ON_FREELIST + 1` */
  ghost predicate DoGetSubOne(s: State, s': State, t: Thread) {
    && t < |s.pc| && s.pc[t].GetSubOne?
    && var n := s.pc[t].node;
    && var head := s.pc[t].head;
    && n < |s.refs| == |s.phase|
    && var was := s.refs[n];
    && var last := was == SHOULD_BE_ON_FREELIST + 1;
    && s' == s.(
      refs := s.refs[n := (was + WORD - 1) % WORD],
      pc := s.pc[t := if last then PutLoadHead(n, Resume(head)) else GetTest(head)],
      phase := if last then s.phase[n := PutZero(t)] else s.phase)
  }

  ghost predicate DoPutLoadHead(s: State, s': State, t: Thread) {
    && t < |s.pc| && s.pc[t].PutLoadHead?
    && s' == s.(pc := s.pc[t := PutStoreNext(s.pc[t].node, s.head, s.pc[t].k)])
  }

  ghost predicate DoPutStoreNext(s: State, s': State, t: Thread) {
    && t < |s.pc| && s.pc[t].PutStoreNext?
    && var PutStoreNext(n, head, k) := s.pc[t];
    && n < |s.next|
    && s' == s.(next := s.next[n := head], pc := s.pc[t := PutStoreRefs(n, head, k)])
  }

  ghost predicate DoPutStoreRefs(s: State, s': State, t: Thread) {
    && t < |s.pc| && s.pc[t].PutStoreRefs?
    && var PutStoreRefs(n, head, k) := s.pc[t];
    && n < |s.refs| == |s.phase|
    && s' == s.(
      refs := s.refs[n := 1],
      pc := s.pc[t := PutCasHead(n, head, k)],
      phase := s.phase[n := PutOne(t)])
  }

  ghost predicate DoPutCasHead(s: State, s': State, t: Thread) {
    && t < |s.pc| && s.pc[t].PutCasHead?
    && var PutCasHead(n, head, k) := s.pc[t];
    && n < |s.phase|
    && if s.head == head then
         && s' == s.(
           head := At(n),
           pc := s.pc[t := Resumed(k)],
           stack := [n] + s.stack,
           phase := s.phase[n := Listed])
       else
         s' == s.(pc := s.pc[t := PutGiveUp(n, s.head, k)])
  }

  /** `freeListRefs.fetch_add(SHOULD_BE_ON_FREELIST - 1) == 1` */
  ghost predicate DoPutGiveUp(s: State, s': State, t: Thread) {
    && t < |s.pc| && s.pc[t].PutGiveUp?
    && var PutGiveUp(n, head, k) := s.pc[t];
    && n < |s.refs| == |s.phase|
    && var was := s.refs[n];
    && s' == s.(
      refs := s.refs[n := (was + SHOULD_BE_ON_FREELIST - 1) % WORD],
      pc := s.pc[t := if was == 1 then PutStoreNext(n, head, k) else Resumed(k)],
      phase := s.phase[n := if was == 1 then PutZero(t) else Flagged])
  }

  ghost predicate AtomicStep(s: State, s': State, t: Thread) {
    || DoAddFlag(s, s', t)
    || DoGetLoadHead(s, s', t)
    || DoGetTest(s, s', t)
    || DoGetCasRefs(s, s', t)
    || DoGetLoadNext(s, s', t)
    || DoGetCasHead(s, s', t)
    || DoGetSubTwo(s, s', t)
    || DoGetSubOne(s, s', t)
    || DoPutLoadHead(s, s', t)
    || DoPutStoreNext(s, s', t)
    || DoPutStoreRefs(s, s', t)
    || DoPutCasHead(s, s', t)
    || DoPutGiveUp(s, s', t)
  }

  ghost predicate Step(s: State, s': State) {
    || (exists t, n :: BeginAdd(s, s', t, n))
    || (exists t :: BeginGet(s, s', t))
    || (exists t :: AtomicStep(s, s', t))
  }

  // ---------------------------------------------------------------- the invariant

  /** The threads that have incremented a node's count and not yet given the reference back. */
  predicate Holds(pc: Pc, n: Node) {
    (pc.GetLoadNext? || pc.GetCasHead? || pc.GetSubTwo? || pc.GetSubOne?) && pc.node == n
  }

  ghost function Holders(pc: seq<Pc>, n: Node): (r: set<Thread>) {
    set t | 0 <= t < |pc| && Holds(pc[t], n)
  }

  /** What the refcount word of a node must be, given its phase. */
  ghost predicate WordMatches(word: nat, phase: Phase, holders: nat) {
    match phase
    case Outside => word == holders
    case Adding(_) => word == holders
    case Flagged => word == SHOULD_BE_ON_FREELIST + holders && holders > 0
    case PutZero(_) => word == SHOULD_BE_ON_FREELIST && holders == 0
    case PutOne(_) => word == holders + 1
    case Listed => word == holders + 1
    case Taken(_) => word == holders + 1
  }

  predicate Puts(pc: Pc, n: Node) {
    (pc.PutLoadHead? || pc.PutStoreNext? || pc.PutStoreRefs?) && pc.node == n
  }

  /** The responsible thread really is at the place its responsibility is discharged. */
  predicate OwnerMatches(s: State, n: Node)
    requires n < |s.phase|
  {
    match s.phase[n]
    case Adding(t) => t < |s.pc| && s.pc[t] == AddFlag(n)
    case PutZero(t) => t < |s.pc| && Puts(s.pc[t], n)
    case PutOne(t) => t < |s.pc| && (s.pc[t].PutCasHead? || s.pc[t].PutGiveUp?) && s.pc[t].node == n
    case Taken(t) => t < |s.pc| && s.pc[t] == GetSubTwo(n)
    case _ => true
  }

  ghost predicate ThreadOk(s: State, t: Thread)
    requires t < |s.pc| && |s.refs| == |s.next| == |s.phase|
  {
    match s.pc[t]
    case Idle => true
    case GetLoadHead => true
    case GetTest(h) => IsNode(s, h)
    case GetCasRefs(n, refs) => n < |s.refs| && refs % SHOULD_BE_ON_FREELIST != 0
    case GetLoadNext(n) => n < |s.refs|
    case GetCasHead(n, next) => n < |s.refs| && next == s.next[n]
    case GetSubTwo(n) => n < |s.refs| && s.phase[n] == Taken(t)
    case GetSubOne(n, h) => n < |s.refs| && IsNode(s, h)
    case AddFlag(n) => n < |s.refs| && s.phase[n] == Adding(t)
    case PutLoadHead(n, k) => n < |s.refs| && s.phase[n] == PutZero(t) && IsNode(s, Target(k))
    case PutStoreNext(n, h, k) => n < |s.refs| && s.phase[n] == PutZero(t) && IsNode(s, Target(k)) && IsNode(s, h)
    case PutStoreRefs(n, h, k) =>
      n < |s.refs| && s.phase[n] == PutZero(t) && IsNode(s, Target(k)) && IsNode(s, h) && s.next[n] == h
    case PutCasHead(n, h, k) =>
      n < |s.refs| && s.phase[n] == PutOne(t) && IsNode(s, Target(k)) && IsNode(s, h) && s.next[n] == h
    case PutGiveUp(n, h, k) => n < |s.refs| && s.phase[n] == PutOne(t) && IsNode(s, Target(k)) && IsNode(s, h)
  }

  function Target(k: Continuation): Ptr {
    match k
    case Return => Null
    case Resume(h) => h
  }

  function Top(stack: seq<Node>): Ptr {
    if stack == [] then Null else At(stack[0])
  }

  function After(stack: seq<Node>, i: nat): Ptr {
    if i + 1 < |stack| then At(stack[i + 1]) else Null
  }

  predicate Linked(s: State, i: nat)
    requires |s.refs| == |s.next| == |s.phase| && i < |s.stack|
  {
    && s.stack[i] < |s.refs|
    && s.phase[s.stack[i]] == Listed
    && s.next[s.stack[i]] == After(s.stack, i)
  }

  /** The chain from the head visits exactly `stack`, and no node twice. */
  ghost predicate ChainOk(s: State)
    requires |s.refs| == |s.next| == |s.phase|
  {
    && s.head == Top(s.stack)
    && (forall i | 0 <= i < |s.stack| :: Linked(s, i))
    && (forall i, j | 0 <= i < j < |s.stack| :: s.stack[i] != s.stack[j])
    && (forall n | 0 <= n < |s.refs| && s.phase[n] == Listed :: n in s.stack)
  }

  ghost predicate NodeOk(s: State, n: Node)
    requires |s.refs| == |s.next| == |s.phase| && n < |s.refs|
  {
    && IsNode(s, s.next[n])
    && WordMatches(s.refs[n], s.phase[n], |Holders(s.pc, n)|)
    && OwnerMatches(s, n)
  }

  predicate HeadOk(s: State) {
    s.head.At? ==> s.head.node < |s.phase| && s.phase[s.head.node] == Listed
  }

  /** Fewer than 2^31 - 1 threads: the 31-bit count can hold one reference for each and the list's. */
  ghost predicate AllOk(s: State) {
    && |s.refs| == |s.next| == |s.phase|
    && |s.pc| + 1 < SHOULD_BE_ON_FREELIST
    && (forall n | 0 <= n < |s.refs| :: NodeOk(s, n))
    && (forall t | 0 <= t < |s.pc| :: ThreadOk(s, t))
  }

  ghost predicate Local(s: State) {
    AllOk(s) && HeadOk(s)
  }

  ghost predicate Inv(s: State) {
    Local(s) && ChainOk(s)
  }

  // ---------------------------------------------------------------- counting holders

  lemma SubrangeSize(s: set<nat>, n: nat)
    requires forall x | x in s :: x < n
    ensures |s| <= n
  {
    if n == 0 {
      assert s == {};
    } else {
      SubrangeSize(s - {n - 1}, n - 1);
      assert s <= (s - {n - 1}) + {n - 1};
      assert |s| <= |s - {n - 1}| + 1;
    }
  }

  lemma HoldersBound(pc: seq<Pc>, n: Node)
    ensures |Holders(pc, n)| <= |pc|
  {
    SubrangeSize(Holders(pc, n), |pc|);
  }

  /** A thread's move changes a node's holder count by exactly what the two program points say. */
  lemma HoldersAfter(pc: seq<Pc>, t: Thread, p: Pc, n: Node)
    requires t < |pc|
    ensures |Holders(pc[t := p], n)|
         == |Holders(pc, n)| - (if Holds(pc[t], n) then 1 else 0) + (if Holds(p, n) then 1 else 0)
    ensures Holds(pc[t], n) ==> |Holders(pc, n)| > 0
    ensures |Holders(pc, n)| <= |pc|
  {
    var a := Holders(pc, n);
    var b := Holders(pc[t := p], n);
    assert a - {t} == b - {t};
    assert t in a <==> Holds(pc[t], n);
    assert t in b <==> Holds(p, n);
    assert |a - {t}| == |a| - (if t in a then 1 else 0);
    assert |b - {t}| == |b| - (if t in b then 1 else 0);
    HoldersBound(pc, n);
  }

  /** The holder counts after thread `t` moved, for every node. */
  lemma HoldersMoved(s: State, s': State, t: Thread)
    requires t < |s.pc| && |s'.pc| == |s.pc| && s'.pc == s.pc[t := s'.pc[t]]
    ensures forall n {:trigger Holders(s'.pc, n)} ::
      (|Holders(s'.pc, n)|
       == |Holders(s.pc, n)| - (if Holds(s.pc[t], n) then 1 else 0) + (if Holds(s'.pc[t], n) then 1 else 0))
    ensures forall n {:trigger Holds(s.pc[t], n)} :: Holds(s.pc[t], n) ==> |Holders(s.pc, n)| > 0
    ensures forall n {:trigger Holders(s.pc, n)} :: |Holders(s.pc, n)| <= |s.pc|
  {
    forall n: Node
      ensures |Holders(s'.pc, n)|
        == |Holders(s.pc, n)| - (if Holds(s.pc[t], n) then 1 else 0) + (if Holds(s'.pc[t], n) then 1 else 0)
      ensures Holds(s.pc[t], n) ==> |Holders(s.pc, n)| > 0
      ensures |Holders(s.pc, n)| <= |s.pc|
    {
      HoldersAfter(s.pc, t, s'.pc[t], n);
    }
  }

  // ---------------------------------------------------------------- every step keeps the invariant

  lemma LinkedIffListed(s: State, n: Node)
    requires |s.refs| == |s.next| == |s.phase| && ChainOk(s) && n < |s.refs|
    ensures s.phase[n] == Listed <==> n in s.stack
  {
    if n in s.stack {
      var i :| 0 <= i < |s.stack| && s.stack[i] == n;
      assert Linked(s, i);
    }
  }

  /** Nothing about the linked nodes changed, so the chain is as it was. */
  lemma ChainFrame(s: State, s': State)
    requires |s.refs| == |s.next| == |s.phase| && ChainOk(s)
    requires |s'.refs| == |s'.next| == |s'.phase| == |s.refs|
    requires s'.head == s.head && s'.stack == s.stack
    requires forall n | 0 <= n < |s.phase| :: s'.phase[n] == Listed <==> s.phase[n] == Listed
    requires forall n | 0 <= n < |s.phase| && s.phase[n] == Listed :: s'.next[n] == s.next[n]
    ensures ChainOk(s') && HeadOk(s')
  {
    assert s.stack != [] ==> Linked(s, 0);
    forall i | 0 <= i < |s'.stack|
      ensures Linked(s', i)
    {
      assert Linked(s, i);
    }
  }

  lemma ChainPush(s: State, s': State, n: Node)
    requires |s.refs| == |s.next| == |s.phase| && ChainOk(s)
    requires |s'.refs| == |s'.next| == |s'.phase| == |s.refs|
    requires n < |s.refs| && s.phase[n] != Listed && s.next[n] == s.head
    requires s'.head == At(n) && s'.stack == [n] + s.stack && s'.next == s.next && s'.phase == s.phase[n := Listed]
    ensures ChainOk(s') && HeadOk(s')
  {
    forall i | 0 <= i < |s'.stack|
      ensures Linked(s', i) && (i > 0 ==> s'.stack[i] != n)
    {
      if i > 0 {
        assert Linked(s, i - 1);
      }
    }
    forall m | 0 <= m < |s'.refs| && s'.phase[m] == Listed
      ensures m in s'.stack
    {
      assert m == n || m in s.stack;
    }
  }

  lemma ChainPop(s: State, s': State, t: Thread)
    requires |s.refs| == |s.next| == |s.phase| && ChainOk(s) && s.stack != []
    requires |s'.refs| == |s'.next| == |s'.phase| == |s.refs| && s.stack[0] < |s.refs|
    requires s'.head == s.next[s.stack[0]] && s'.stack == s.stack[1..]
    requires s'.next == s.next && s'.phase == s.phase[s.stack[0] := Taken(t)]
    ensures ChainOk(s') && HeadOk(s')
  {
    assert Linked(s, 0);
    assert |s.stack| > 1 ==> Linked(s, 1);
    forall i | 0 <= i < |s'.stack|
      ensures Linked(s', i)
    {
      assert Linked(s, i + 1);
    }
    forall m | 0 <= m < |s'.refs| && s'.phase[m] == Listed
      ensures m in s'.stack
    {
      assert m in s.stack;
    }
  }

  /** A thread that sees the flag and its own reference only is looking at a node nobody else answers for. */
  lemma LastReference(s: State, t: Thread)
    requires Local(s) && t < |s.pc| && s.pc[t].GetSubOne?
    ensures s.pc[t].node < |s.refs|
    ensures s.refs[s.pc[t].node] == SHOULD_BE_ON_FREELIST + 1 ==>
      s.phase[s.pc[t].node] == Flagged && Holders(s.pc, s.pc[t].node) == {t}
  {
    assert ThreadOk(s, t);
    var n := s.pc[t].node;
    assert NodeOk(s, n);
    assert t in Holders(s.pc, n);
    HoldersBound(s.pc, n);
    if s.refs[n] == SHOULD_BE_ON_FREELIST + 1 {
      assert |Holders(s.pc, n) - {t}| == 0;
      assert Holders(s.pc, n) == {t} + (Holders(s.pc, n) - {t});
    }
  }

  lemma BeginAddKeeps(s: State, s': State, t: Thread, n: Node)
    requires Local(s) && BeginAdd(s, s', t, n)
    ensures AllOk(s')
  {
    HoldersMoved(s, s', t);
    assert ThreadOk(s, t);
    forall m | 0 <= m < |s'.refs|
      ensures NodeOk(s', m)
    {
      assert NodeOk(s, m);
    }
    forall u | 0 <= u < |s'.pc|
      ensures ThreadOk(s', u)
    {
      assert ThreadOk(s, u);
    }
  }

  lemma BeginGetKeeps(s: State, s': State, t: Thread)
    requires Local(s) && BeginGet(s, s', t)
    ensures AllOk(s')
  {
    HoldersMoved(s, s', t);
    assert ThreadOk(s, t);
    forall m | 0 <= m < |s'.refs|
      ensures NodeOk(s', m)
    {
      assert NodeOk(s, m);
    }
    forall u | 0 <= u < |s'.pc|
      ensures ThreadOk(s', u)
    {
      assert ThreadOk(s, u);
    }
  }

  lemma AddFlagKeeps(s: State, s': State, t: Thread)
    requires Local(s) && DoAddFlag(s, s', t)
    ensures AllOk(s')
  {
    HoldersMoved(s, s', t);
    assert ThreadOk(s, t);
    forall m | 0 <= m < |s'.refs|
      ensures NodeOk(s', m)
    {
      assert NodeOk(s, m);
    }
    forall u | 0 <= u < |s'.pc|
      ensures ThreadOk(s', u)
    {
      assert ThreadOk(s, u);
    }
  }

  lemma LoadHeadKeeps(s: State, s': State, t: Thread)
    requires Local(s) && (DoGetLoadHead(s, s', t) || DoPutLoadHead(s, s', t))
    ensures AllOk(s')
  {
    HoldersMoved(s, s', t);
    assert ThreadOk(s, t);
    forall m | 0 <= m < |s'.refs|
      ensures NodeOk(s', m)
    {
      assert NodeOk(s, m);
    }
    forall u | 0 <= u < |s'.pc|
      ensures ThreadOk(s', u)
    {
      assert ThreadOk(s, u);
    }
  }

  lemma GetTestKeeps(s: State, s': State, t: Thread)
    requires Local(s) && DoGetTest(s, s', t)
    ensures AllOk(s')
  {
    HoldersMoved(s, s', t);
    assert ThreadOk(s, t);
    forall m | 0 <= m < |s'.refs|
      ensures NodeOk(s', m)
    {
      assert NodeOk(s, m);
    }
    forall u | 0 <= u < |s'.pc|
      ensures ThreadOk(s', u)
    {
      assert ThreadOk(s, u);
    }
  }

  lemma GetLoadNextKeeps(s: State, s': State, t: Thread)
    requires Local(s) && DoGetLoadNext(s, s', t)
    ensures AllOk(s')
  {
    HoldersMoved(s, s', t);
    assert ThreadOk(s, t);
    forall m | 0 <= m < |s'.refs|
      ensures NodeOk(s', m)
    {
      assert NodeOk(s, m);
    }
    forall u | 0 <= u < |s'.pc|
      ensures ThreadOk(s', u)
    {
      assert ThreadOk(s, u);
    }
  }

  lemma GetCasRefsKeeps(s: State, s': State, t: Thread)
    requires Local(s) && DoGetCasRefs(s, s', t)
    ensures AllOk(s')
  {
    HoldersMoved(s, s', t);
    assert ThreadOk(s, t);
    forall m | 0 <= m < |s'.refs|
      ensures NodeOk(s', m)
    {
      assert NodeOk(s, m);
    }
    forall u | 0 <= u < |s'.pc|
      ensures ThreadOk(s', u)
    {
      assert ThreadOk(s, u);
    }
  }

  lemma GetCasHeadKeeps(s: State, s': State, t: Thread)
    requires Local(s) && DoGetCasHead(s, s', t)
    ensures AllOk(s')
  {
    HoldersMoved(s, s', t);
    assert ThreadOk(s, t);
    forall m | 0 <= m < |s'.refs|
      ensures NodeOk(s', m)
    {
      assert NodeOk(s, m);
    }
    forall u | 0 <= u < |s'.pc|
      ensures ThreadOk(s', u)
    {
      assert ThreadOk(s, u);
    }
  }

  lemma GetSubTwoKeeps(s: State, s': State, t: Thread)
    requires Local(s) && DoGetSubTwo(s, s', t)
    ensures AllOk(s')
  {
    HoldersMoved(s, s', t);
    assert ThreadOk(s, t);
    forall m | 0 <= m < |s'.refs|
      ensures NodeOk(s', m)
    {
      assert NodeOk(s, m);
    }
    forall u | 0 <= u < |s'.pc|
      ensures ThreadOk(s', u)
    {
      assert ThreadOk(s, u);
    }
  }

  lemma GetSubOneKeeps(s: State, s': State, t: Thread)
    requires Local(s) && DoGetSubOne(s, s', t)
    ensures AllOk(s')
  {
    HoldersMoved(s, s', t);
    assert ThreadOk(s, t);
    LastReference(s, t);
    forall m | 0 <= m < |s'.refs|
      ensures NodeOk(s', m)
    {
      assert NodeOk(s, m);
    }
    forall u | 0 <= u < |s'.pc|
      ensures ThreadOk(s', u)
    {
      assert ThreadOk(s, u);
    }
  }

  lemma PutStoreNextKeeps(s: State, s': State, t: Thread)
    requires Local(s) && DoPutStoreNext(s, s', t)
    ensures AllOk(s')
  {
    HoldersMoved(s, s', t);
    assert ThreadOk(s, t);
    forall m | 0 <= m < |s'.refs|
      ensures NodeOk(s', m)
    {
      assert NodeOk(s, m);
    }
    forall u | 0 <= u < |s'.pc|
      ensures ThreadOk(s', u)
    {
      assert ThreadOk(s, u);
      assert s.pc[u].GetCasHead? ==> u in Holders(s.pc, s.pc[u].node);
      assert NodeOk(s, s.pc[t].node);
    }
  }

  lemma PutStoreRefsKeeps(s: State, s': State, t: Thread)
    requires Local(s) && DoPutStoreRefs(s, s', t)
    ensures AllOk(s')
  {
    HoldersMoved(s, s', t);
    assert ThreadOk(s, t);
    forall m | 0 <= m < |s'.refs|
      ensures NodeOk(s', m)
    {
      assert NodeOk(s, m);
    }
    forall u | 0 <= u < |s'.pc|
      ensures ThreadOk(s', u)
    {
      assert ThreadOk(s, u);
    }
  }

  lemma PutCasHeadKeeps(s: State, s': State, t: Thread)
    requires Local(s) && DoPutCasHead(s, s', t)
    ensures AllOk(s')
  {
    HoldersMoved(s, s', t);
    assert ThreadOk(s, t);
    forall m | 0 <= m < |s'.refs|
      ensures NodeOk(s', m)
    {
      assert NodeOk(s, m);
    }
    forall u | 0 <= u < |s'.pc|
      ensures ThreadOk(s', u)
    {
      assert ThreadOk(s, u);
    }
  }

  lemma PutGiveUpKeeps(s: State, s': State, t: Thread)
    requires Local(s) && DoPutGiveUp(s, s', t)
    ensures AllOk(s')
  {
    HoldersMoved(s, s', t);
    assert ThreadOk(s, t);
    forall m | 0 <= m < |s'.refs|
      ensures NodeOk(s', m)
    {
      assert NodeOk(s, m);
    }
    forall u | 0 <= u < |s'.pc|
      ensures ThreadOk(s', u)
    {
      assert ThreadOk(s, u);
    }
  }

  lemma AtomicStepKeeps(s: State, s': State, t: Thread)
    requires Local(s) && AtomicStep(s, s', t)
    ensures AllOk(s')
  {
    if {
      case DoAddFlag(s, s', t) => AddFlagKeeps(s, s', t);
      case DoGetLoadHead(s, s', t) => LoadHeadKeeps(s, s', t);
      case DoGetTest(s, s', t) => GetTestKeeps(s, s', t);
      case DoGetCasRefs(s, s', t) => GetCasRefsKeeps(s, s', t);
      case DoGetLoadNext(s, s', t) => GetLoadNextKeeps(s, s', t);
      case DoGetCasHead(s, s', t) => GetCasHeadKeeps(s, s', t);
      case DoGetSubTwo(s, s', t) => GetSubTwoKeeps(s, s', t);
      case DoGetSubOne(s, s', t) => GetSubOneKeeps(s, s', t);
      case DoPutLoadHead(s, s', t) => LoadHeadKeeps(s, s', t);
      case DoPutStoreNext(s, s', t) => PutStoreNextKeeps(s, s', t);
      case DoPutStoreRefs(s, s', t) => PutStoreRefsKeeps(s, s', t);
      case DoPutCasHead(s, s', t) => PutCasHeadKeeps(s, s', t);
      case DoPutGiveUp(s, s', t) => PutGiveUpKeeps(s, s', t);
    }
  }

  /** The chain changes only by the two successful compare-and-swaps of the head. */
  lemma ChainKeeps(s: State, s': State, t: Thread)
    requires Inv(s) && AtomicStep(s, s', t)
    ensures ChainOk(s') && HeadOk(s')
  {
    assert ThreadOk(s, t);
    if DoGetCasHead(s, s', t) && s.head == At(s.pc[t].node) {
      ChainPop(s, s', t);
    } else if DoPutCasHead(s, s', t) && s.head == s.pc[t].head {
      ChainPush(s, s', s.pc[t].node);
    } else {
      if s.pc[t].GetSubOne? {
        LastReference(s, t);
      }
      ChainFrame(s, s');
    }
  }

  lemma StepKeeps(s: State, s': State)
    requires Inv(s) && Step(s, s')
    ensures Inv(s')
  {
    if t, n :| BeginAdd(s, s', t, n) {
      BeginAddKeeps(s, s', t, n);
      ChainFrame(s, s');
    } else if t :| BeginGet(s, s', t) {
      BeginGetKeeps(s, s', t);
      ChainFrame(s, s');
    } else {
      var t: Thread :| AtomicStep(s, s', t);
      AtomicStepKeeps(s, s', t);
      ChainKeeps(s, s', t);
    }
  }

  // ---------------------------------------------------------------- results over whole runs

  /** A finite execution: any interleaving from the empty list, with fewer than 2^31 - 1 threads. */
  ghost predicate IsRun(run: seq<State>) {
    && run != []
    && Init(run[0])
    && |run[0].pc| + 1 < SHOULD_BE_ON_FREELIST
    && forall i | 0 <= i < |run| - 1 :: Step(run[i], run[i + 1])
  }

  lemma InitKeeps(s: State)
    requires Init(s) && |s.pc| + 1 < SHOULD_BE_ON_FREELIST
    ensures Inv(s)
  {
    forall n | 0 <= n < |s.refs|
      ensures NodeOk(s, n)
    {
      assert forall t | 0 <= t < |s.pc| :: s.pc[t] == Idle && !Holds(s.pc[t], n);
      assert Holders(s.pc, n) == {};
    }
  }

  lemma {:induction false} RunKeepsInvariant(run: seq<State>, i: nat)
    requires IsRun(run) && i < |run|
    ensures Inv(run[i])
  {
    if i == 0 {
      InitKeeps(run[0]);
    } else {
      RunKeepsInvariant(run, i - 1);
      StepKeeps(run[i - 1], run[i]);
    }
  }

  /** The nodes met when following `next` from p are exactly `nodes`, and then the chain ends. */
  predicate Visits(next: seq<Ptr>, p: Ptr, nodes: seq<Node>)
    decreases |nodes|
  {
    if nodes == [] then p == Null
    else p == At(nodes[0]) && nodes[0] < |next| && Visits(next, next[nodes[0]], nodes[1..])
  }

  lemma {:induction false} ChainVisits(s: State, k: nat)
    requires |s.refs| == |s.next| == |s.phase| && ChainOk(s) && k <= |s.stack|
    ensures Visits(s.next, Top(s.stack[k..]), s.stack[k..])
    decreases |s.stack| - k
  {
    if k < |s.stack| {
      assert Linked(s, k);
      ChainVisits(s, k + 1);
      assert s.stack[k..][1..] == s.stack[k + 1..];
      assert s.stack[k..][0] == s.stack[k];
    }
  }

  /** In every reachable state the list is a proper list: the chain from freeListHead ends after
      visiting each linked node once. */
  lemma NeverOnTheListTwice(run: seq<State>, i: nat)
    requires IsRun(run) && i < |run|
    ensures var s := run[i];
      && Visits(s.next, s.head, s.stack)
      && forall a, b | 0 <= a < b < |s.stack| :: s.stack[a] != s.stack[b]
  {
    RunKeepsInvariant(run, i);
    ChainVisits(run[i], 0);
    assert run[i].stack[0..] == run[i].stack;
  }

  /** A node is in the hands of at most one taker, who sees the flag clear (the assert of try_get),
      and while it is taken it is neither linked nor being put back by anybody. */
  lemma OneTaker(run: seq<State>, i: nat, t: Thread, u: Thread, n: Node)
    requires IsRun(run) && i < |run| && t < |run[i].pc| && u < |run[i].pc|
    requires run[i].pc[t] == GetSubTwo(n)
    ensures n < |run[i].refs| && run[i].refs[n] < SHOULD_BE_ON_FREELIST && n !in run[i].stack
    ensures u != t ==>
      var pc := run[i].pc[u];
      && pc != GetSubTwo(n) && pc != AddFlag(n) && !Puts(pc, n)
      && !((pc.PutCasHead? || pc.PutGiveUp?) && pc.node == n)
  {
    RunKeepsInvariant(run, i);
    var s := run[i];
    assert ThreadOk(s, t) && ThreadOk(s, u);
    assert NodeOk(s, n);
    HoldersBound(s.pc, n);
    LinkedIffListed(s, n);
  }

  /** The other unchecked assumption of the source: when add sets the flag, the flag is clear, and
      only one thread at a time runs add_knowing_refcount_is_zero on a node. */
  lemma FlagIsClearAndPutIsExclusive(run: seq<State>, i: nat, t: Thread, u: Thread, n: Node)
    requires IsRun(run) && i < |run| && t < |run[i].pc| && u < |run[i].pc| && t != u
    ensures run[i].pc[t] == AddFlag(n) ==> n < |run[i].refs| && run[i].refs[n] < SHOULD_BE_ON_FREELIST
    ensures !(Puts(run[i].pc[t], n) && (Puts(run[i].pc[u], n) || run[i].pc[u] == AddFlag(n)))
    ensures !(run[i].pc[t].PutCasHead? && run[i].pc[t].node == n
      && (Puts(run[i].pc[u], n) || run[i].pc[u] == AddFlag(n)))
  {
    RunKeepsInvariant(run, i);
    var s := run[i];
    assert ThreadOk(s, t) && ThreadOk(s, u);
    if s.pc[t] == AddFlag(n) {
      assert NodeOk(s, n);
      HoldersBound(s.pc, n);
    }
  }

  /** Every step leaves the linked nodes alone, pushes one node that was not linked, or pops the
      first one; a pop installs the popped node's true successor (no ABA). */
  lemma EveryStepIsAStackStep(s: State, s': State)
    requires Inv(s) && Step(s, s')
    ensures
      || (s'.stack == s.stack && s'.head == s.head)
      || (exists n: Node :: n !in s.stack && s'.stack == [n] + s.stack && s'.head == At(n))
      || (s.stack != [] && s.head == At(s.stack[0]) && s'.stack == s.stack[1..] && s'.head == Top(s.stack[1..]))
  {
    if t: Thread :| AtomicStep(s, s', t) {
      assert ThreadOk(s, t);
      if DoGetCasHead(s, s', t) && s.head == At(s.pc[t].node) {
        assert Linked(s, 0);
      } else if DoPutCasHead(s, s', t) && s.head == s.pc[t].head {
        var n := s.pc[t].node;
        LinkedIffListed(s, n);
        assert n !in s.stack && s'.stack == [n] + s.stack;
      }
    }
  }

  /** The only ways responsibility for a node can move. */
  predicate MayMove(p: Phase, p': Phase) {
    || p == p'
    || (p.Outside? && p'.Adding?)
    || (p.Adding? && (p'.Flagged? || p' == PutZero(p.who)))
    || (p.Flagged? && p'.PutZero?)
    || (p.PutZero? && p' == PutOne(p.who))
    || (p.PutOne? && (p'.Listed? || p'.Flagged? || p' == PutZero(p.who)))
    || (p.Listed? && p'.Taken?)
    || (p.Taken? && p'.Outside?)
  }

  lemma GetMoves(s: State, s': State, t: Thread, n: Node)
    requires Local(s) && n < |s.phase|
    requires DoGetCasHead(s, s', t) || DoGetSubTwo(s, s', t) || DoGetSubOne(s, s', t)
    ensures n < |s'.phase| && MayMove(s.phase[n], s'.phase[n])
  {
    assert ThreadOk(s, t);
    if s.pc[t].GetSubOne? {
      LastReference(s, t);
    }
  }

  lemma PutMoves(s: State, s': State, t: Thread, n: Node)
    requires Local(s) && n < |s.phase|
    requires DoAddFlag(s, s', t) || DoPutStoreRefs(s, s', t) || DoPutCasHead(s, s', t) || DoPutGiveUp(s, s', t)
    ensures n < |s'.phase| && MayMove(s.phase[n], s'.phase[n])
  {
    assert ThreadOk(s, t);
  }

  lemma ResponsibilityMoves(s: State, s': State, n: Node)
    requires Local(s) && Step(s, s') && n < |s.phase|
    ensures n < |s'.phase| && MayMove(s.phase[n], s'.phase[n])
  {
    if t: Thread :| AtomicStep(s, s', t) {
      if DoGetCasHead(s, s', t) || DoGetSubTwo(s, s', t) || DoGetSubOne(s, s', t) {
        GetMoves(s, s', t, n);
      } else if DoAddFlag(s, s', t) || DoPutStoreRefs(s, s', t) || DoPutCasHead(s, s', t) || DoPutGiveUp(s, s', t) {
        PutMoves(s, s', t, n);
      }
    }
  }

  /** No node is lost: one that was added is linked, held by its taker, being put by some thread,
      or flagged with a reference holder who will find out that it must put it. */
  lemma NoNodeIsLost(run: seq<State>, i: nat, n: Node)
    requires IsRun(run) && i < |run| && n < |run[i].phase|
    ensures n < |run[i].refs|
    ensures var s := run[i];
      || s.phase[n] == Outside
      || n in s.stack
      || (exists t: Thread :: t < |s.pc| &&
           (s.pc[t] == AddFlag(n) || Puts(s.pc[t], n) || s.pc[t] == GetSubTwo(n)
            || ((s.pc[t].PutCasHead? || s.pc[t].PutGiveUp?) && s.pc[t].node == n)))
      || (s.refs[n] > SHOULD_BE_ON_FREELIST && exists t: Thread :: t < |s.pc| && Holds(s.pc[t], n))
  {
    RunKeepsInvariant(run, i);
    var s := run[i];
    assert NodeOk(s, n);
    if s.phase[n].Flagged? {
      assert Holders(s.pc, n) != {};
      var t :| t in Holders(s.pc, n);
      assert t < |s.pc| && Holds(s.pc[t], n);
    } else if s.phase[n].Adding? || s.phase[n].PutZero? || s.phase[n].PutOne? || s.phase[n].Taken? {
      var t := s.phase[n].who;
      assert t < |s.pc|;
    }
  }

  /** With no call in progress, everything that was added and not handed out is on the list, and
      every refcount is exact: one for a linked node, zero for any other. */
  lemma QuiescentListIsComplete(run: seq<State>, i: nat, n: Node)
    requires IsRun(run) && i < |run| && n < |run[i].phase|
    requires forall t | 0 <= t < |run[i].pc| :: run[i].pc[t] == Idle
    ensures n < |run[i].refs|
    ensures run[i].phase[n] == Outside <==> n !in run[i].stack
    ensures run[i].refs[n] == if n in run[i].stack then 1 else 0
  {
    RunKeepsInvariant(run, i);
    var s := run[i];
    assert NodeOk(s, n);
    LinkedIffListed(s, n);
    assert forall t | 0 <= t < |s.pc| :: !Holds(s.pc[t], n);
    assert Holders(s.pc, n) == {};
  }

  // ---------------------------------------------------------------- what try_get answers

  /** A thread in try_get that has read a null head and not looked at the head since. */
  predicate SawEmpty(pc: Pc) {
    match pc
    case GetTest(h) => h == Null
    case GetSubOne(_, h) => h == Null
    case PutLoadHead(_, k) => k == Resume(Null)
    case PutStoreNext(_, _, k) => k == Resume(Null)
    case PutStoreRefs(_, _, k) => k == Resume(Null)
    case PutCasHead(_, _, k) => k == Resume(Null)
    case PutGiveUp(_, _, k) => k == Resume(Null)
    case _ => false
  }

  /** Which access a thread in try_get makes next. */
  lemma NextAccess(s: State, s': State, t: Thread)
    requires t < |s.pc|
    ensures match s.pc[t]
            case Idle => !AtomicStep(s, s', t)
            case GetLoadHead => AtomicStep(s, s', t) <==> DoGetLoadHead(s, s', t)
            case GetTest(_) => AtomicStep(s, s', t) <==> DoGetTest(s, s', t)
            case GetCasRefs(_, _) => AtomicStep(s, s', t) <==> DoGetCasRefs(s, s', t)
            case GetLoadNext(_) => AtomicStep(s, s', t) <==> DoGetLoadNext(s, s', t)
            case GetCasHead(_, _) => AtomicStep(s, s', t) <==> DoGetCasHead(s, s', t)
            case GetSubTwo(_) => AtomicStep(s, s', t) <==> DoGetSubTwo(s, s', t)
            case _ => true
  {
  }

  lemma OneThreadMoves(s: State, s': State, u: Thread)
    requires AtomicStep(s, s', u)
    ensures u < |s.pc| == |s'.pc| && s'.pc == s.pc[u := s'.pc[u]]
  {
  }

  lemma AccessSeesEmpty(s: State, s': State, t: Thread)
    requires s.head == Top(s.stack) && AtomicStep(s, s', t) && t < |s.pc| == |s'.pc|
    ensures SawEmpty(s'.pc[t]) && !SawEmpty(s.pc[t]) ==> s.stack == []
  {
  }

  lemma StepSeesEmpty(s: State, s': State, t: Thread)
    requires Inv(s) && Step(s, s') && t < |s.pc|
    ensures |s'.pc| == |s.pc|
    ensures SawEmpty(s'.pc[t]) && !SawEmpty(s.pc[t]) ==> s.stack == []
  {
    assert s.head == Top(s.stack);
    hide Inv, AtomicStep, Top;
    if u: Thread :| AtomicStep(s, s', u) {
      OneThreadMoves(s, s', u);
      if u == t {
        AccessSeesEmpty(s, s', t);
      }
    }
  }

  /** Thread `t` is inside one call after state `b`, up to state `i`. */
  ghost predicate Within(run: seq<State>, b: nat, i: nat, t: Thread)
    requires i < |run|
  {
    forall j | b < j <= i :: t < |run[j].pc| && run[j].pc[t] != Idle
  }

  lemma {:induction false} EmptyWasSeen(run: seq<State>, b: nat, i: nat, t: Thread) returns (m: nat)
    requires IsRun(run) && b < i < |run| && BeginGet(run[b], run[b + 1], t) && Within(run, b, i, t)
    requires SawEmpty(run[i].pc[t])
    ensures b < m < i && run[m].stack == []
  {
    hide Init, Step, Inv, ChainOk;
    if SawEmpty(run[i - 1].pc[t]) && b < i - 1 {
      m := EmptyWasSeen(run, b, i - 1, t);
    } else {
      m := i - 1;
      assert b < m by {
        assert run[b + 1].pc[t] == GetLoadHead;
      }
      RunKeepsInvariant(run, m);
      assert Step(run[m], run[m + 1]);
      StepSeesEmpty(run[m], run[m + 1], t);
    }
  }

  /** A thread in try_get, or putting back a node for it. */
  predicate InGet(pc: Pc) {
    match pc
    case Idle => false
    case AddFlag(_) => false
    case PutLoadHead(_, k) => k.Resume?
    case PutStoreNext(_, _, k) => k.Resume?
    case PutStoreRefs(_, _, k) => k.Resume?
    case PutCasHead(_, _, k) => k.Resume?
    case PutGiveUp(_, _, k) => k.Resume?
    case _ => true
  }

  /** try_get returns at two places: with the node it took, and on a null head. */
  lemma GetReturns(s: State, s': State, t: Thread)
    requires t < |s.pc| && InGet(s.pc[t]) && AtomicStep(s, s', t)
    ensures |s'.pc| == |s.pc|
    ensures if s'.pc[t] == Idle then s.pc[t].GetSubTwo? || s.pc[t] == GetTest(Null) else InGet(s'.pc[t])
  {
  }

  lemma GetReturnsInStep(s: State, s': State, t: Thread)
    requires t < |s.pc| && InGet(s.pc[t]) && Step(s, s')
    ensures |s'.pc| == |s.pc|
    ensures if s'.pc[t] == Idle then s.pc[t].GetSubTwo? || s.pc[t] == GetTest(Null) else InGet(s'.pc[t])
  {
    hide AtomicStep;
    if u: Thread :| AtomicStep(s, s', u) {
      OneThreadMoves(s, s', u);
      if u == t {
        GetReturns(s, s', t);
      }
    }
  }

  lemma {:induction false} StaysInGet(run: seq<State>, b: nat, i: nat, t: Thread)
    requires IsRun(run) && b < i < |run| && BeginGet(run[b], run[b + 1], t) && Within(run, b, i, t)
    ensures InGet(run[i].pc[t])
  {
    hide Init, Step;
    if b + 1 < i {
      StaysInGet(run, b, i - 1, t);
      GetReturnsInStep(run[i - 1], run[i], t);
    }
  }

  /** Main result: a try_get that returns without a node, after whatever retries, found the list empty at some
      moment between its beginning and its return. */
  lemma NullMeansEmpty(run: seq<State>, b: nat, r: nat, t: Thread) returns (m: nat)
    requires IsRun(run) && b < r < |run| - 1 && BeginGet(run[b], run[b + 1], t) && Within(run, b, r, t)
    requires t < |run[r + 1].pc| && run[r + 1].pc[t] == Idle && !run[r].pc[t].GetSubTwo?
    ensures b < m < r && run[m].stack == []
  {
    hide Init, Step;
    StaysInGet(run, b, r, t);
    GetReturnsInStep(run[r], run[r + 1], t);
    m := EmptyWasSeen(run, b, r, t);
  }

  /** A try_get by thread `t` during which no other thread takes a step. */
  ghost predicate LoneGet(seg: seq<State>, t: Thread) {
    && |seg| > 1 && BeginGet(seg[0], seg[1], t)
    && forall i | 1 <= i < |seg| - 1 :: AtomicStep(seg[i], seg[i + 1], t)
  }

  ghost predicate CanGoOn(s: State, t: Thread) {
    exists s' :: AtomicStep(s, s', t)
  }

  predicate Quiet(s: State) {
    forall t | 0 <= t < |s.pc| :: s.pc[t] == Idle
  }

  lemma QuietWord(s: State, n: Node)
    requires Inv(s) && Quiet(s) && n in s.stack
    ensures n < |s.refs| == |s.next| == |s.phase| && s.refs[n] == 1
  {
    var i :| 0 <= i < |s.stack| && s.stack[i] == n;
    assert Linked(s, i) && NodeOk(s, n);
    assert forall t | 0 <= t < |s.pc| :: !Holds(s.pc[t], n);
    assert Holders(s.pc, n) == {};
  }

  /** The states of a try_get that nothing disturbs, from a list with a first node. */
  function LoneState(s: State, t: Thread, k: nat): State
    requires t < |s.pc| && s.stack != [] && s.stack[0] < |s.refs| == |s.next| == |s.phase|
  {
    var n := s.stack[0];
    var popped := s.(head := s.next[n], stack := s.stack[1..]);
    if k == 0 then s
    else if k == 1 then s.(pc := s.pc[t := GetLoadHead])
    else if k == 2 then s.(pc := s.pc[t := GetTest(s.head)])
    else if k == 3 then s.(pc := s.pc[t := GetCasRefs(n, 1)])
    else if k == 4 then s.(refs := s.refs[n := 2], pc := s.pc[t := GetLoadNext(n)])
    else if k == 5 then s.(refs := s.refs[n := 2], pc := s.pc[t := GetCasHead(n, s.next[n])])
    else if k == 6 then popped.(refs := s.refs[n := 2], pc := s.pc[t := GetSubTwo(n)], phase := s.phase[n := Taken(t)])
    else popped.(refs := s.refs[n := 0], pc := s.pc[t := Idle], phase := s.phase[n := Outside])
  }

  lemma LoneStep(s: State, s': State, t: Thread, k: nat)
    requires t < |s.pc| && s.pc[t] == Idle
    requires s.stack != [] && s.stack[0] < |s.refs| == |s.next| == |s.phase| && 1 <= k < 8
    requires s.refs[s.stack[0]] == 1 && s.head == At(s.stack[0])
    ensures AtomicStep(LoneState(s, t, k), s', t) <==> k < 7 && s' == LoneState(s, t, k + 1)
  {
    NextAccess(LoneState(s, t, k), s', t);
    hide AtomicStep;
  }

  /** Main result: a try_get that runs alone on a list with nodes takes the first one, within seven steps, ... */
  lemma LoneGetTakesTheFirst(seg: seq<State>, t: Thread)
    requires LoneGet(seg, t) && Inv(seg[0]) && Quiet(seg[0]) && seg[0].stack != []
    ensures |seg| <= 8
    ensures |seg| < 8 ==> CanGoOn(seg[|seg| - 1], t)
    ensures |seg| == 8 ==>
      && t < |seg[6].pc| && seg[6].pc[t] == GetSubTwo(seg[0].stack[0])
      && seg[7] == seg[0].(
           head := seg[7].head,
           stack := seg[0].stack[1..],
           refs := seg[0].refs[seg[0].stack[0] := 0],
           phase := seg[0].phase[seg[0].stack[0] := Outside])
  {
    var s := seg[0];
    QuietWord(s, s.stack[0]);
    hide Inv, Quiet, AtomicStep;
    LoneStates(seg, t, if |seg| < 8 then |seg| - 1 else 7);
    if |seg| < 8 {
      LoneStep(s, LoneState(s, t, |seg|), t, |seg| - 1);
      assert AtomicStep(seg[|seg| - 1], LoneState(s, t, |seg|), t);
    } else {
      LoneStates(seg, t, 6);
      if |seg| > 8 {
        assert AtomicStep(seg[7], seg[8], t);
        LoneStep(s, seg[8], t, 7);
      }
    }
  }

  lemma {:induction false} LoneStates(seg: seq<State>, t: Thread, k: nat)
    requires LoneGet(seg, t) && 1 <= k < |seg| && k < 8
    requires var s := seg[0];
      s.stack != [] && s.stack[0] < |s.refs| == |s.next| == |s.phase| && s.refs[s.stack[0]] == 1
      && s.head == At(s.stack[0])
    ensures seg[k] == LoneState(seg[0], t, k)
  {
    hide AtomicStep;
    if k > 1 {
      LoneStates(seg, t, k - 1);
      assert AtomicStep(seg[k - 1], seg[k], t);
      LoneStep(seg[0], seg[k], t, k - 1);
    }
  }

  /** ... and on an empty list it returns null and leaves everything as it was. */
  lemma LoneGetFindsNothing(seg: seq<State>, t: Thread)
    requires LoneGet(seg, t) && Inv(seg[0]) && Quiet(seg[0]) && seg[0].stack == []
    ensures |seg| <= 4
    ensures |seg| < 4 ==> CanGoOn(seg[|seg| - 1], t)
    ensures |seg| == 4 ==> seg[2].pc[t] == GetTest(Null) && seg[3] == seg[0]
  {
    var s := seg[0];
    var s1, s2 := s.(pc := s.pc[t := GetLoadHead]), s.(pc := s.pc[t := GetTest(Null)]);
    assert AtomicStep(s1, s2, t) && AtomicStep(s2, s, t);
    assert CanGoOn(s1, t) && CanGoOn(s2, t);
    hide AtomicStep, Inv;
    if |seg| > 2 {
      NextAccess(s1, seg[2], t);
      assert seg[2] == s2;
    }
    if |seg| > 3 {
      NextAccess(s2, seg[3], t);
      assert seg[3] == s;
    }
    if |seg| > 4 {
      NextAccess(s, seg[4], t);
    }
  }
}
