/**
 * Resolving a JSON Pointer in a tree, and creating what is missing on the way
 * (libs/rapidjson/rapidjson/pointer.h:404-450, 482-510).
 *
 * A node is named by the positions of its ancestors among their siblings, so that "the very node" is
 * a statement about paths. Main results: Create reports an existing node exactly when Get finds it and no
 * "-" token meets an array, and then changes nothing (ExistsMeansFound); Get after Create finds the node
 * that Create returned, exactly when no "-" token missed it (GetAfterCreate). For parsed pointers the first
 * condition holds by itself (FoundWithoutDash), and a "-" misses wherever it meets an array (NothingAfterDash).
 * What Create leaves of the tree, CreateKeepsTheRest and CreateExtendsThePath say.
 */
module PointerTree {
  import opened JsonText
  import opened JsonDocument

  const INVALID_INDEX: nat := 0xFFFF_FFFF

  datatype Token = Token(name: Bytes, index: nat)

  const DASH: Bytes := [0x2D]

  // ---------------------------------------------------------------- children

  predicate HasChild(v: Value, c: nat) {
    match v
    case ArrayValue(elements) => c < |elements|
    case ObjectValue(members) => c < |members|
    case _ => false
  }

  function Child(v: Value, c: nat): (x: Value)
    requires HasChild(v, c)
    ensures x < v
  {
    match v
    case ArrayValue(elements) => elements[c]
    case ObjectValue(members) => members[c].value
  }

  function WithChild(v: Value, c: nat, x: Value): (v': Value)
    requires HasChild(v, c)
    ensures HasChild(v', c) && Child(v', c) == x
    ensures v'.ArrayValue? == v.ArrayValue? && v'.ObjectValue? == v.ObjectValue?
  {
    match v
    case ArrayValue(elements) => ArrayValue(elements[c := x])
    case ObjectValue(members) => ObjectValue(members[c := members[c].(value := x)])
  }

  type Path = seq<nat>

  predicate HasNode(v: Value, p: Path) {
    p == [] || (HasChild(v, p[0]) && HasNode(Child(v, p[0]), p[1..]))
  }

  function Node(v: Value, p: Path): Value
    requires HasNode(v, p)
  {
    if p == [] then v else Node(Child(v, p[0]), p[1..])
  }

  function WithNode(v: Value, p: Path, x: Value): Value
    requires HasNode(v, p)
  {
    if p == [] then x else WithChild(v, p[0], WithNode(Child(v, p[0]), p[1..], x))
  }

  /** The first member of that name, or the number of members. */
  function FindMember(members: seq<Member>, name: Bytes, from: nat): (m: nat)
    requires from <= |members|
    ensures from <= m <= |members|
    ensures m < |members| ==> members[m].name == name
    ensures forall k :: from <= k < m ==> members[k].name != name
    decreases |members| - from
  {
    if from == |members| || members[from].name == name then from else FindMember(members, name, from + 1)
  }

  // ---------------------------------------------------------------- Get

  datatype Found = Found(path: Path) | NotFound

  /** Where one token leads from `v`: a position, or -1. */
  function GetStep(v: Value, t: Token): (c: int)
    ensures c == -1 || (c >= 0 && HasChild(v, c))
  {
    match v
    case ObjectValue(members) =>
      var m := FindMember(members, t.name, 0);
      if m == |members| then -1 else m
    case ArrayValue(elements) =>
      if t.index == INVALID_INDEX || t.index >= |elements| then -1 else t.index
    case _ => -1
  }

  function GetFrom(v: Value, ts: seq<Token>): (f: Found)
    ensures f.Found? ==> HasNode(v, f.path)
    decreases |ts|
  {
    if ts == [] then
      Found([])
    else
      var c := GetStep(v, ts[0]);
      if c == -1 then
        NotFound
      else
        var below := GetFrom(Child(v, c), ts[1..]);
        if below.Found? then Found([c] + below.path) else NotFound
  }

  // ---------------------------------------------------------------- Create

  /** `n` null values. */
  function Nulls(n: nat): (vs: seq<Value>)
    ensures |vs| == n
  {
    seq(n, _ => NullValue)
  }

  /** The value that a token needs, where a scalar or a container of the wrong kind is replaced. */
  function Container(v: Value, t: Token): (w: Value)
    ensures w.ArrayValue? || w.ObjectValue?
    ensures w.ArrayValue? ==> t.index != INVALID_INDEX
  {
    if t.index == INVALID_INDEX then
      if v.ObjectValue? then v else ObjectValue([])
    else
      if v.ArrayValue? || v.ObjectValue? then v else ArrayValue([])
  }

  /** After one token: the changed value, the position of the child it names, and whether that existed. */
  datatype Created = Created(value: Value, child: nat, existed: bool)

  predicate DashMeetsArray(v: Value, t: Token) {
    v.ArrayValue? && t.name == DASH
  }

  function CreateStep(v: Value, t: Token): (r: Created)
    ensures HasChild(r.value, r.child)
    ensures !r.existed ==> Child(r.value, r.child) == NullValue
  {
    if DashMeetsArray(v, t) then
      Created(ArrayValue(v.elements + [NullValue]), |v.elements|, false)
    else
      match Container(v, t)
      case ArrayValue(elements) =>
        if t.index < |elements| then
          Created(ArrayValue(elements), t.index, true)
        else
          Created(ArrayValue(elements + Nulls(t.index + 1 - |elements|)), t.index, false)
      case ObjectValue(members) =>
        var m := FindMember(members, t.name, 0);
        if m < |members| then
          Created(ObjectValue(members), m, true)
        else
          Created(ObjectValue(members + [Member(t.name, NullValue)]), |members|, false)
  }

  /** After all tokens: the changed tree, the node they lead to, and whether it existed. */
  datatype Result = Result(root: Value, path: Path, existed: bool)

  function CreateFrom(v: Value, ts: seq<Token>): (r: Result)
    ensures HasNode(r.root, r.path) && |r.path| == |ts|
    ensures !r.existed ==> Node(r.root, r.path) == NullValue
    decreases |ts|
  {
    if ts == [] then
      Result(v, [], true)
    else
      var s := CreateStep(v, ts[0]);
      var below := CreateFrom(Child(s.value, s.child), ts[1..]);
      NullStaysNull(s, ts[1..]);
      var r := Result(WithChild(s.value, s.child, below.root), [s.child] + below.path, s.existed && below.existed);
      assert r.path[1..] == below.path;
      r
  }

  /** In a value that was just created, nothing exists yet but the value itself. */
  lemma NullStaysNull(s: Created, ts: seq<Token>)
    requires HasChild(s.value, s.child) && (!s.existed ==> Child(s.value, s.child) == NullValue)
    ensures ts == [] && !s.existed ==> Node(Child(s.value, s.child), []) == NullValue
    ensures ts != [] && !s.existed ==> !CreateStep(NullValue, ts[0]).existed
  {
  }

  /** Somewhere on the way of Create a "-" token meets an array. */
  predicate SomeDashMeetsArray(v: Value, ts: seq<Token>)
    decreases |ts|
  {
    ts != [] &&
    var s := CreateStep(v, ts[0]);
    DashMeetsArray(v, ts[0]) || SomeDashMeetsArray(Child(s.value, s.child), ts[1..])
  }

  /** A "-" token meets an array and does not carry the index of the element that Create appends. */
  predicate DashMisses(v: Value, t: Token) {
    DashMeetsArray(v, t) && (t.index == INVALID_INDEX || t.index != |v.elements|)
  }

  predicate SomeDashMisses(v: Value, ts: seq<Token>)
    decreases |ts|
  {
    ts != [] &&
    var s := CreateStep(v, ts[0]);
    DashMisses(v, ts[0]) || SomeDashMisses(Child(s.value, s.child), ts[1..])
  }

  // ---------------------------------------------------------------- Create and Get agree

  lemma FindMemberSame(a: seq<Member>, b: seq<Member>, name: Bytes, from: nat)
    requires from <= |a| == |b| && forall k :: 0 <= k < |a| ==> a[k].name == b[k].name
    ensures FindMember(a, name, from) == FindMember(b, name, from)
    decreases |a| - from
  {
    if from < |a| {
      FindMemberSame(a, b, name, from + 1);
    }
  }

  lemma FindMemberAdded(members: seq<Member>, name: Bytes, from: nat)
    requires from <= |members| && FindMember(members, name, from) == |members|
    ensures FindMember(members + [Member(name, NullValue)], name, from) == |members|
    decreases |members| - from
  {
    if from < |members| {
      FindMemberAdded(members, name, from + 1);
    }
  }

  /** One token: Create finds an existing child where Get does, unless a dash meets an array; then it changes
      nothing. */
  lemma StepExistsMeansFound(v: Value, t: Token)
    ensures CreateStep(v, t).existed <==> GetStep(v, t) != -1 && !DashMeetsArray(v, t)
    ensures CreateStep(v, t).existed ==> CreateStep(v, t).value == v && GetStep(v, t) == CreateStep(v, t).child
  {
  }

  /** One token: unless it is a dash that misses, it leads to the created child, whatever is put there. */
  lemma StepFindsCreated(v: Value, t: Token, x: Value)
    ensures var s := CreateStep(v, t);
            GetStep(WithChild(s.value, s.child, x), t) == s.child <==> !DashMisses(v, t)
  {
    var s := CreateStep(v, t);
    if !DashMeetsArray(v, t) && Container(v, t).ObjectValue? {
      var members := Container(v, t).members;
      if FindMember(members, t.name, 0) == |members| {
        FindMemberAdded(members, t.name, 0);
      }
      FindMemberSame(s.value.members, WithChild(s.value, s.child, x).members, t.name, 0);
    }
  }

  lemma StepAfterDash(v: Value, t: Token, x: Value)
    requires DashMeetsArray(v, t) && t.index == INVALID_INDEX
    ensures DashMisses(v, t)
    ensures var s := CreateStep(v, t); GetStep(WithChild(s.value, s.child, x), t) == -1
  {
  }

  /** Parsing gives no index to the token "-". */
  predicate DashHasNoIndex(ts: seq<Token>) {
    forall k :: 0 <= k < |ts| && ts[k].name == DASH ==> ts[k].index == INVALID_INDEX
  }

  lemma WithSameChild(v: Value, c: nat)
    requires HasChild(v, c)
    ensures WithChild(v, c, Child(v, c)) == v
  {
    match v
    case ArrayValue(elements) => assert elements[c := elements[c]] == elements;
    case ObjectValue(members) => assert members[c := members[c]] == members;
  }

  /**
   * Main result, for any tree and any tokens: Create says "already exists" exactly when Get finds the node
   * and no "-" token met an array; then it is the same node, and the tree is unchanged.
   */
  lemma {:induction false} ExistsMeansFound(v: Value, ts: seq<Token>)
    ensures CreateFrom(v, ts).existed <==> GetFrom(v, ts).Found? && !SomeDashMeetsArray(v, ts)
    ensures CreateFrom(v, ts).existed ==> CreateFrom(v, ts).root == v && GetFrom(v, ts) == Found(CreateFrom(v, ts).path)
    decreases |ts|
  {
    if ts != [] {
      hide CreateStep, GetStep, DashMeetsArray;
      var s := CreateStep(v, ts[0]);
      StepExistsMeansFound(v, ts[0]);
      if s.existed {
        ExistsMeansFound(Child(v, s.child), ts[1..]);
        WithSameChild(v, s.child);
      } else if !DashMeetsArray(v, ts[0]) {
        assert GetStep(v, ts[0]) == -1;
      }
    }
  }

  /** The second condition is not idle: with tokens made by hand Get can find what Create does not take as existing. */
  lemma DashWithIndexIsAppended(v: Value, ts: seq<Token>)
    requires v == ArrayValue([NullValue]) && ts == [Token(DASH, 0)]
    ensures GetFrom(v, ts) == Found([0]) && CreateFrom(v, ts) == Result(ArrayValue([NullValue, NullValue]), [1], false)
  {
    assert ts[1..] == [];
    assert v.elements + [NullValue] == [NullValue, NullValue];
    assert [NullValue, NullValue][1 := NullValue] == [NullValue, NullValue];
  }

  /** For tokens that parsing makes the condition holds by itself. */
  lemma {:induction false} FoundWithoutDash(v: Value, ts: seq<Token>)
    requires DashHasNoIndex(ts) && GetFrom(v, ts).Found?
    ensures !SomeDashMeetsArray(v, ts)
    decreases |ts|
  {
    if ts != [] {
      StepExistsMeansFound(v, ts[0]);
      var c := GetStep(v, ts[0]);
      FoundWithoutDash(Child(v, c), ts[1..]);
    }
  }

  /**
   * Main result, for any tree and any tokens: after Create, Get finds the very node that Create returned
   * exactly when no "-" token on the way missed.
   */
  lemma {:induction false} GetAfterCreate(v: Value, ts: seq<Token>)
    ensures GetFrom(CreateFrom(v, ts).root, ts) == Found(CreateFrom(v, ts).path) <==> !SomeDashMisses(v, ts)
    decreases |ts|
  {
    if ts != [] {
      hide CreateStep, GetStep, DashMisses;
      var s := CreateStep(v, ts[0]);
      var below := CreateFrom(Child(s.value, s.child), ts[1..]);
      GetAfterCreate(Child(s.value, s.child), ts[1..]);
      StepFindsCreated(v, ts[0], below.root);
      SamePaths(s.child, below.path, GetFrom(CreateFrom(v, ts).root, ts));
    }
  }

  lemma SamePaths(c: nat, p: Path, f: Found)
    ensures f == Found([c] + p) <==> f.Found? && f.path != [] && f.path[0] == c && f.path[1..] == p
  {
    if f.Found? && f.path != [] {
      assert f.path == [f.path[0]] + f.path[1..];
    }
  }

  /** For tokens that parsing makes, every "-" that meets an array misses, and then Get finds nothing. */
  lemma {:induction false} NothingAfterDash(v: Value, ts: seq<Token>)
    requires DashHasNoIndex(ts)
    ensures SomeDashMisses(v, ts) <==> SomeDashMeetsArray(v, ts)
    ensures SomeDashMeetsArray(v, ts) ==> GetFrom(CreateFrom(v, ts).root, ts) == NotFound
    decreases |ts|
  {
    if ts != [] {
      hide CreateStep, GetStep, DashMeetsArray, DashMisses;
      var s := CreateStep(v, ts[0]);
      var below := CreateFrom(Child(s.value, s.child), ts[1..]);
      NothingAfterDash(Child(s.value, s.child), ts[1..]);
      DashMeaning(v, ts[0]);
      if DashMeetsArray(v, ts[0]) {
        StepAfterDash(v, ts[0], below.root);
      } else {
        StepFindsCreated(v, ts[0], below.root);
      }
    }
  }

  lemma DashMeaning(v: Value, t: Token)
    ensures DashMeetsArray(v, t) ==> t.name == DASH
    ensures DashMisses(v, t) ==> DashMeetsArray(v, t)
  {
  }

  // ---------------------------------------------------------------- what Create leaves alone

  /** The token needs an object where there is an array, whose elements are lost. */
  predicate IsLost(v: Value, t: Token) {
    v.ArrayValue? && t.name != DASH && t.index == INVALID_INDEX
  }

  /** On the way along `path` some token needs an object where there is an array. */
  predicate SomeArrayIsLost(v: Value, ts: seq<Token>, path: Path)
    requires |path| == |ts|
    decreases |ts|
  {
    ts != [] &&
    (IsLost(v, ts[0]) || (HasChild(v, path[0]) && SomeArrayIsLost(Child(v, path[0]), ts[1..], path[1..])))
  }

  /** One token keeps the children of the value it meets, unless an array is lost. */
  lemma StepKeepsChildren(v: Value, t: Token, d: nat)
    requires HasChild(v, d) && !IsLost(v, t)
    ensures HasChild(CreateStep(v, t).value, d) && Child(CreateStep(v, t).value, d) == Child(v, d)
  {
  }

  lemma OtherChildStays(v: Value, c: nat, x: Value, d: nat)
    requires HasChild(v, c) && HasChild(v, d) && c != d
    ensures HasChild(WithChild(v, c, x), d) && Child(WithChild(v, c, x), d) == Child(v, d)
  {
  }

  /**
   * Main result: unless an array had to become an object, every node of the tree is still there, with the same
   * contents unless it is an ancestor of the node that Create returns, or that node.
   */
  lemma {:induction false} CreateKeepsTheRest(v: Value, ts: seq<Token>, p: Path)
    requires !SomeArrayIsLost(v, ts, CreateFrom(v, ts).path) && HasNode(v, p)
    ensures var r := CreateFrom(v, ts);
            HasNode(r.root, p) && (p <= r.path || Node(r.root, p) == Node(v, p))
    decreases |ts|
  {
    if ts != [] && p != [] {
      hide CreateStep, IsLost;
      var s, d := CreateStep(v, ts[0]), p[0];
      var below := CreateFrom(Child(s.value, s.child), ts[1..]);
      assert CreateFrom(v, ts).path == [s.child] + below.path;
      StepKeepsChildren(v, ts[0], d);
      if d == s.child {
        assert CreateFrom(v, ts).path[1..] == below.path;
        CreateKeepsTheRest(Child(v, d), ts[1..], p[1..]);
        assert p[1..] <= below.path ==> p <= CreateFrom(v, ts).path;
      } else {
        OtherChildStays(s.value, s.child, below.root, d);
      }
    }
  }

  /** The value that token `k` meets: the node of the old tree at that place, or null where there was none, or where
      it was lost with an array above it. */
  function Met(v: Value, ts: seq<Token>, path: Path, k: nat): Value
    requires k < |ts| == |path|
    decreases k
  {
    if k == 0 then v
    else if HasChild(v, path[0]) && !IsLost(v, ts[0]) then Met(Child(v, path[0]), ts[1..], path[1..], k - 1)
    else if k == 1 then NullValue
    else Met(NullValue, ts[1..], path[1..], k - 1)
  }

  /** An object that has just the member that the token names. */
  predicate OnlyMember(x: Value, t: Token, c: nat) {
    x.ObjectValue? && c == 0 && |x.members| == 1 && x.members[0].name == t.name
  }

  /** From `x` the token leads to child `c` of the later value `x'`, which differs from `x` in that child at most, and
      in what had to be appended to have it. */
  predicate Extended(x: Value, x': Value, t: Token, c: nat) {
    match x
    case ObjectValue(members) =>
      && x'.ObjectValue? && c <= |members| && |x'.members| == (if c < |members| then |members| else |members| + 1)
      && x'.members[c].name == t.name
      && (forall k :: 0 <= k < c ==> members[k].name != t.name)
      && (forall k :: 0 <= k < |members| ==>
            x'.members[k].name == members[k].name && (k != c ==> x'.members[k] == members[k]))
    case ArrayValue(elements) =>
      if IsLost(x, t) then OnlyMember(x', t, c)
      else
        && x'.ArrayValue? && c == (if t.name == DASH then |elements| else t.index)
        && |x'.elements| == (if c < |elements| then |elements| else c + 1)
        && (forall k :: 0 <= k < |x'.elements| && k != c ==>
              x'.elements[k] == if k < |elements| then elements[k] else NullValue)
    case _ =>
      if t.index == INVALID_INDEX then OnlyMember(x', t, c)
      else
        && x'.ArrayValue? && c == t.index && |x'.elements| == c + 1
        && (forall k :: 0 <= k < c ==> x'.elements[k] == NullValue)
  }

  lemma StepExtends(v: Value, t: Token, x: Value)
    ensures var s := CreateStep(v, t); Extended(v, WithChild(s.value, s.child, x), t, s.child)
  {
  }

  /** What the rest of the tokens meet in the child that the first one leads to. */
  lemma StepLeadsToMet(v: Value, t: Token)
    ensures var s := CreateStep(v, t);
            Child(s.value, s.child) == if HasChild(v, s.child) && !IsLost(v, t) then Child(v, s.child) else NullValue
  {
  }

  lemma CreateUnfolds(v: Value, ts: seq<Token>)
    requires ts != []
    ensures var s := CreateStep(v, ts[0]);
            var below := CreateFrom(Child(s.value, s.child), ts[1..]);
            CreateFrom(v, ts) ==
            Result(WithChild(s.value, s.child, below.root), [s.child] + below.path, s.existed && below.existed)
  {
    hide CreateStep, WithChild;
  }

  /**
   * Main result: along the path to the node that Create returns, every value is the one that was there, extended by
   * what the token needs: the named member after the others, or nulls up to the index. A scalar, or an array that
   * had to become an object, is replaced by a container that holds nothing else.
   */
  lemma {:induction false} CreateExtendsThePath(v: Value, ts: seq<Token>, k: nat)
    requires k < |ts|
    ensures var r := CreateFrom(v, ts);
            HasNode(r.root, r.path[..k]) && Extended(Met(v, ts, r.path, k), Node(r.root, r.path[..k]), ts[k], r.path[k])
    decreases k
  {
    hide CreateStep, Extended, IsLost, CreateFrom, WithChild;
    var s := CreateStep(v, ts[0]);
    var below := CreateFrom(Child(s.value, s.child), ts[1..]);
    var r := CreateFrom(v, ts);
    CreateUnfolds(v, ts);
    assert r.path == [s.child] + below.path && r.path[1..] == below.path;
    if k == 0 {
      assert r.path[..0] == [];
      StepExtends(v, ts[0], below.root);
    } else {
      CreateExtendsThePath(Child(s.value, s.child), ts[1..], k - 1);
      StepLeadsToMet(v, ts[0]);
      assert r.path[..k][0] == s.child && r.path[..k][1..] == below.path[..k - 1];
      assert Met(v, ts, r.path, k) == Met(Child(s.value, s.child), ts[1..], below.path, k - 1);
    }
  }

  // ---------------------------------------------------------------- the loops

  lemma NodeBelow(v: Value, p: Path, c: nat)
    requires HasNode(v, p) && HasChild(Node(v, p), c)
    ensures HasNode(v, p + [c]) && Node(v, p + [c]) == Child(Node(v, p), c)
    decreases |p|
  {
    if p != [] {
      NodeBelow(Child(v, p[0]), p[1..], c);
      assert (p + [c])[1..] == p[1..] + [c];
    }
  }

  lemma NodeReplaced(v: Value, p: Path, x: Value)
    requires HasNode(v, p)
    ensures HasNode(WithNode(v, p, x), p) && Node(WithNode(v, p, x), p) == x
    decreases |p|
  {
    if p != [] {
      NodeReplaced(Child(v, p[0]), p[1..], x);
    }
  }

  lemma ReplacedTwice(v: Value, p: Path, x: Value, y: Value)
    requires HasNode(v, p)
    ensures HasNode(WithNode(v, p, x), p) && WithNode(WithNode(v, p, x), p, y) == WithNode(v, p, y)
    decreases |p|
  {
    if p != [] {
      ReplacedTwice(Child(v, p[0]), p[1..], x, y);
      ChildReplacedTwice(v, p[0], WithNode(Child(v, p[0]), p[1..], x), WithNode(Child(v, p[0]), p[1..], y));
    }
  }

  lemma ChildReplacedTwice(v: Value, c: nat, x: Value, y: Value)
    requires HasChild(v, c)
    ensures WithChild(WithChild(v, c, x), c, y) == WithChild(v, c, y)
  {
  }

  lemma ReplacedBelow(v: Value, p: Path, c: nat, y: Value)
    requires HasNode(v, p) && HasChild(Node(v, p), c)
    ensures HasNode(v, p + [c]) && WithNode(v, p + [c], y) == WithNode(v, p, WithChild(Node(v, p), c, y))
    decreases |p|
  {
    if p == [] {
      assert [c][1..] == [];
    } else {
      ReplacedBelow(Child(v, p[0]), p[1..], c, y);
      assert (p + [c])[1..] == p[1..] + [c];
    }
  }

  /** The result of a Create that has reached `path` and has `ts` left to follow. */
  function Onwards(root: Value, path: Path, ts: seq<Token>, exist: bool): Result
    requires HasNode(root, path)
  {
    var rest := CreateFrom(Node(root, path), ts);
    Result(WithNode(root, path, rest.root), path + rest.path, exist && rest.existed)
  }

  /** One round of the loop of Create does not change what it is heading for. */
  lemma CreateRound(root: Value, path: Path, ts: seq<Token>, exist: bool)
    requires HasNode(root, path) && ts != []
    ensures var s := CreateStep(Node(root, path), ts[0]);
            var root' := WithNode(root, path, s.value);
            HasNode(root', path + [s.child]) &&
            Onwards(root, path, ts, exist) == Onwards(root', path + [s.child], ts[1..], exist && s.existed)
  {
    hide CreateStep, CreateFrom, HasChild, Child, WithChild, WithNode, Node, HasNode;
    var s := CreateStep(Node(root, path), ts[0]);
    var below := CreateFrom(Child(s.value, s.child), ts[1..]);
    CreateUnfolds(Node(root, path), ts);
    var root' := WithNode(root, path, s.value);
    ReplacedInTwoSteps(root, path, s.value, s.child, below.root);
    var here, there := path + ([s.child] + below.path), path + [s.child] + below.path;
    assert here == there;
    assert Onwards(root, path, ts, exist).root == WithNode(root', path + [s.child], below.root);
  }

  /** Replacing a node, and then a child of it, is replacing the node by the changed one. */
  lemma ReplacedInTwoSteps(root: Value, path: Path, w: Value, c: nat, x: Value)
    requires HasNode(root, path) && HasChild(w, c)
    ensures var root' := WithNode(root, path, w);
            && HasNode(root', path + [c]) && Node(root', path + [c]) == Child(w, c)
            && WithNode(root', path + [c], x) == WithNode(root, path, WithChild(w, c, x))
  {
    hide HasChild, Child, WithChild, WithNode, Node, HasNode;
    var root' := WithNode(root, path, w);
    NodeReplaced(root, path, w);
    ReplacedTwice(root, path, w, WithChild(w, c, x));
    ReplacedBelow(root', path, c, x);
    NodeBelow(root', path, c);
  }

  lemma CreateEnds(root: Value, path: Path, exist: bool)
    requires HasNode(root, path)
    ensures Onwards(root, path, [], exist) == Result(root, path, exist)
  {
    SameNode(root, path);
    assert path + [] == path;
  }

  lemma CreateBegins(root: Value, ts: seq<Token>)
    ensures Onwards(root, [], ts, true) == CreateFrom(root, ts)
  {
    assert [] + CreateFrom(root, ts).path == CreateFrom(root, ts).path;
  }

  /** What a Get finds that has reached `path` and has `ts` left to follow. */
  function FoundOnwards(root: Value, path: Path, ts: seq<Token>): Found
    requires HasNode(root, path)
  {
    var rest := GetFrom(Node(root, path), ts);
    if rest.Found? then Found(path + rest.path) else NotFound
  }

  lemma GetRound(root: Value, path: Path, ts: seq<Token>)
    requires HasNode(root, path) && ts != []
    ensures var c := GetStep(Node(root, path), ts[0]);
            if c == -1 then
              FoundOnwards(root, path, ts) == NotFound
            else
              HasNode(root, path + [c]) && FoundOnwards(root, path, ts) == FoundOnwards(root, path + [c], ts[1..])
  {
    hide GetStep, HasChild, Child, HasNode, Node;
    var c := GetStep(Node(root, path), ts[0]);
    if c != -1 {
      NodeBelow(root, path, c);
      var below := GetFrom(Child(Node(root, path), c), ts[1..]);
      if below.Found? {
        assert path + ([c] + below.path) == path + [c] + below.path;
      }
    }
  }

  lemma GetBegins(root: Value, ts: seq<Token>)
    ensures FoundOnwards(root, [], ts) == GetFrom(root, ts)
  {
    var f := GetFrom(root, ts);
    if f.Found? {
      assert [] + f.path == f.path;
    }
  }

  lemma GetEnds(root: Value, path: Path)
    requires HasNode(root, path)
    ensures FoundOnwards(root, path, []) == Found(path)
  {
    assert path + [] == path;
  }

  /** A tree that Create and Get walk down, node by node. */
  class Tree {
    var root: Value

    constructor (root: Value)
      ensures this.root == root
    {
      this.root := root;
    }

    method Create(tokens: seq<Token>) returns (path: Path, alreadyExist: bool)
      modifies this
      ensures CreateFrom(old(root), tokens) == Result(root, path, alreadyExist)
    {
      hide CreateStep, CreateFrom, Onwards, HasNode, WithNode, Node;
      path, alreadyExist := [], true;
      NodeOfRoot(root);
      CreateBegins(root, tokens);
      var k := 0;
      assert tokens[0..] == tokens;
      while k < |tokens|
        invariant k <= |tokens| && HasNode(root, path)
        invariant Onwards(root, path, tokens[k..], alreadyExist) == CreateFrom(old(root), tokens)
      {
        CreateRound(root, path, tokens[k..], alreadyExist);
        assert tokens[k..][1..] == tokens[k + 1..];
        var s := CreateStep(Node(root, path), tokens[k]);
        root := WithNode(root, path, s.value);
        path := path + [s.child];
        alreadyExist := alreadyExist && s.existed;
        k := k + 1;
      }
      assert tokens[k..] == [];
      CreateEnds(root, path, alreadyExist);
    }

    /** `unresolved` is the index of the first token that leads nowhere. */
    method Get(tokens: seq<Token>) returns (f: Found, unresolved: nat)
      ensures f == GetFrom(root, tokens)
      ensures f.NotFound? ==> unresolved < |tokens|
      ensures f.NotFound? ==> GetFrom(root, tokens[..unresolved]).Found?
      ensures f.NotFound? ==> GetFrom(root, tokens[..unresolved + 1]).NotFound?
    {
      hide GetStep, GetFrom, FoundOnwards, HasNode, Node;
      var path: Path := [];
      NodeOfRoot(root);
      GetBegins(root, tokens);
      GetEnds(root, []);
      GetBegins(root, []);
      var k := 0;
      assert tokens[0..] == tokens && tokens[..0] == [];
      while k < |tokens|
        invariant k <= |tokens| && HasNode(root, path)
        invariant GetFrom(root, tokens[..k]) == Found(path)
        invariant FoundOnwards(root, path, tokens[k..]) == GetFrom(root, tokens)
      {
        GetRound(root, path, tokens[k..]);
        GetOneMore(root, tokens[..k], tokens[k], path);
        assert tokens[k..][1..] == tokens[k + 1..];
        assert tokens[..k] + [tokens[k]] == tokens[..k + 1];
        var c := GetStep(Node(root, path), tokens[k]);
        if c == -1 {
          return NotFound, k;
        }
        path := path + [c];
        k := k + 1;
      }
      assert tokens[k..] == [];
      GetEnds(root, path);
      f, unresolved := Found(path), k;
    }
  }

  lemma NodeOfRoot(v: Value)
    ensures HasNode(v, [])
  {
  }

  lemma SameNode(v: Value, p: Path)
    requires HasNode(v, p)
    ensures WithNode(v, p, Node(v, p)) == v
    decreases |p|
  {
    if p != [] {
      SameNode(Child(v, p[0]), p[1..]);
      WithSameChild(v, p[0]);
    }
  }

  lemma EmptyPath(v: Value)
    ensures HasNode(v, []) && Node(v, []) == v
  {
  }

  lemma GetFirst(v: Value, t: Token, ts: seq<Token>)
    ensures var c := GetStep(v, t);
            GetFrom(v, [t] + ts) ==
            if c == -1 then NotFound
            else
              var below := GetFrom(Child(v, c), ts);
              if below.Found? then Found([c] + below.path) else NotFound
  {
    hide GetStep, Child, HasChild;
    assert ([t] + ts)[1..] == ts;
  }

  lemma NodeUnder(v: Value, c: nat, p: Path)
    requires HasNode(v, [c] + p)
    ensures HasChild(v, c) && HasNode(Child(v, c), p) && Node(v, [c] + p) == Node(Child(v, c), p)
  {
    hide HasChild, Child;
    assert ([c] + p)[1..] == p;
  }

  lemma GetOneMore(v: Value, ts: seq<Token>, t: Token, p: Path)
    requires GetFrom(v, ts) == Found(p)
    ensures var c := GetStep(Node(v, p), t); GetFrom(v, ts + [t]) == if c == -1 then NotFound else Found(p + [c])
    decreases |ts|
  {
    hide GetStep, Child, HasChild, HasNode, Node;
    if ts == [] {
      GetFirst(v, t, []);
      assert [t] + [] == [t] && [] + [t] == [t];
      assert p == [] && Node(v, p) == v by { EmptyPath(v); }
    } else {
      var first, rest := ts[0], ts[1..];
      var c := GetStep(v, first);
      assert ts == [first] + rest && ts + [t] == [first] + (rest + [t]);
      GetFirst(v, first, rest);
      GetFirst(v, first, rest + [t]);
      hide GetFrom;
      var below := GetFrom(Child(v, c), rest).path;
      NodeUnder(v, c, below);
      GetOneMore(Child(v, c), rest, t, below);
      assert forall d: nat :: [c] + (below + [d]) == p + [d];
    }
  }
}
