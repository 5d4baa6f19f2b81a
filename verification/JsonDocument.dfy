/**
 * Trees of JSON values, the events that report them, and the handler that rebuilds a tree from events
 * on a stack (libs/rapidjson/rapidjson/document.h:1862-1899, 2253-2263, 2431-2471).
 *
 * Main results: the events of an accepted text are those of exactly one tree (ParsedTextIsOneTree),
 * and the handler rebuilds the tree that the events report (TreeIsRebuilt).
 */
module JsonDocument {
  import opened JsonText
  import opened JsonEvents
  import opened RecursiveParser
  import JsonString
  import JsonNumber

  datatype Value =
    | NullValue
    | BoolValue(b: bool)
    | IntegerValue(n: int)
    | DoubleValue(lexeme: Bytes)
    | StringValue(s: Bytes)
    | ArrayValue(elements: seq<Value>)
    | ObjectValue(members: seq<Member>)

  datatype Member = Member(name: Bytes, value: Value)

  function Width(v: Value): nat {
    match v
    case ArrayValue(elements) => |elements|
    case ObjectValue(members) => |members|
    case _ => 0
  }

  // ---------------------------------------------------------------- reporting a tree

  /** The events of a tree, with each integer reported the way `number` says. */
  function Report(v: Value, number: int -> Event): (es: seq<Event>)
    ensures |es| > 0
    decreases v, Width(v) + 1
  {
    match v
    case NullValue => [Null]
    case BoolValue(b) => [Bool(b)]
    case IntegerValue(n) => [number(n)]
    case DoubleValue(lexeme) => [Double(lexeme)]
    case StringValue(s) => [String(s)]
    case ArrayValue(elements) => [StartArray] + ReportElements(v, |elements|, number) + [EndArray(|elements|)]
    case ObjectValue(members) => [StartObject] + ReportMembers(v, |members|, number) + [EndObject(|members|)]
  }

  /** The events of the first `k` elements. */
  function ReportElements(v: Value, k: nat, number: int -> Event): seq<Event>
    requires v.ArrayValue? && k <= |v.elements|
    decreases v, k
  {
    if k == 0 then [] else ReportElements(v, k - 1, number) + Report(v.elements[k - 1], number)
  }

  /** The events of the first `k` members. */
  function ReportMembers(v: Value, k: nat, number: int -> Event): seq<Event>
    requires v.ObjectValue? && k <= |v.members|
    decreases v, k
  {
    if k == 0 then []
    else ReportMembers(v, k - 1, number) + [Key(v.members[k - 1].name)] + Report(v.members[k - 1].value, number)
  }

  // ---------------------------------------------------------------- rebuilding a tree

  predicate IsInteger(e: Event) { e.Int? || e.Uint? || e.Int64? || e.Uint64? }

  predicate IsScalar(e: Event) { e.Null? || e.Bool? || IsInteger(e) || e.Double? || e.String? || e.Key? }

  function ScalarValue(e: Event): Value
    requires IsScalar(e)
  {
    match e
    case Null => NullValue
    case Bool(b) => BoolValue(b)
    case Double(lexeme) => DoubleValue(lexeme)
    case String(s) => StringValue(s)
    case Key(s) => StringValue(s)
    case Int(n) => IntegerValue(n)
    case Uint(n) => IntegerValue(n)
    case Int64(n) => IntegerValue(n)
    case Uint64(n) => IntegerValue(n)
  }

  /** The handler's stack after an event; Broken when an assertion of the source would fail. */
  datatype Stack = Values(values: seq<Value>) | Broken

  /** Values pushed alternately as names and values, taken as members. */
  predicate ArePairs(values: seq<Value>) {
    |values| % 2 == 0 && forall k :: 0 <= k < |values| / 2 ==> values[2 * k].StringValue?
  }

  function AsMembers(values: seq<Value>): (ms: seq<Member>)
    requires ArePairs(values)
  {
    seq(|values| / 2, k requires 0 <= k < |values| / 2 => Member(values[2 * k].s, values[2 * k + 1]))
  }

  function Handle(stack: seq<Value>, e: Event): Stack {
    match e
    case StartObject =>
      Values(stack + [ObjectValue([])])
    case StartArray =>
      Values(stack + [ArrayValue([])])
    case EndObject(count) =>
      if |stack| < 2 * count + 1 || !ArePairs(stack[|stack| - 2 * count..]) then
        Broken
      else
        Values(stack[..|stack| - 2 * count - 1] + [ObjectValue(AsMembers(stack[|stack| - 2 * count..]))])
    case EndArray(count) =>
      if |stack| < count + 1 then
        Broken
      else
        Values(stack[..|stack| - count - 1] + [ArrayValue(stack[|stack| - count..])])
    case _ =>
      Values(stack + [ScalarValue(e)])
  }

  function Rebuild(stack: seq<Value>, es: seq<Event>): Stack {
    if es == [] then
      Values(stack)
    else
      var before := Rebuild(stack, es[..|es| - 1]);
      if before.Broken? then Broken else Handle(before.values, es[|es| - 1])
  }

  lemma {:induction false} RebuildAppend(stack: seq<Value>, a: seq<Event>, b: seq<Event>)
    requires Rebuild(stack, a).Values?
    ensures Rebuild(stack, a + b) == Rebuild(Rebuild(stack, a).values, b)
    decreases |b|
  {
    if b == [] {
      assert a + b == a;
    } else {
      var front := b[..|b| - 1];
      assert (a + b)[..|a + b| - 1] == a + front;
      RebuildAppend(stack, a, front);
    }
  }

  lemma RebuildOne(stack: seq<Value>, a: seq<Event>, e: Event)
    requires Rebuild(stack, a).Values?
    ensures Rebuild(stack, a + [e]) == Handle(Rebuild(stack, a).values, e)
  {
    assert (a + [e])[..|a|] == a;
  }

  /** `number` reports every integer as an event that carries it. */
  predicate Faithful(e: Event, n: int) {
    IsInteger(e) && e.n == n
  }

  ghost predicate IsFaithful(number: int -> Event) {
    forall n: int :: Faithful(number(n), n)
  }

  lemma ArrayIsClosed(stack: seq<Value>, elements: seq<Value>, es: seq<Event>)
    requires Rebuild(stack + [ArrayValue([])], es) == Values(stack + [ArrayValue([])] + elements)
    ensures Rebuild(stack, [StartArray] + es + [EndArray(|elements|)]) == Values(stack + [ArrayValue(elements)])
  {
    var n := |elements|;
    StartsWith(stack, StartArray, es);
    RebuildOne(stack, [StartArray] + es, EndArray(n));
    var full := stack + [ArrayValue([])] + elements;
    assert full[..|full| - n - 1] == stack && full[|full| - n..] == elements;
  }

  lemma ObjectIsClosed(stack: seq<Value>, members: seq<Member>, es: seq<Event>)
    requires Rebuild(stack + [ObjectValue([])], es) == Values(stack + [ObjectValue([])] + Paired(members))
    ensures Rebuild(stack, [StartObject] + es + [EndObject(|members|)]) == Values(stack + [ObjectValue(members)])
  {
    var n := |members|;
    StartsWith(stack, StartObject, es);
    RebuildOne(stack, [StartObject] + es, EndObject(n));
    PairsAreMembers(members);
    var full := stack + [ObjectValue([])] + Paired(members);
    assert full[..|full| - 2 * n - 1] == stack && full[|full| - 2 * n..] == Paired(members);
  }

  lemma StartsWith(stack: seq<Value>, e: Event, es: seq<Event>)
    requires Handle(stack, e).Values?
    ensures Rebuild(stack, [e]) == Handle(stack, e)
    ensures Rebuild(stack, [e] + es) == Rebuild(Handle(stack, e).values, es)
  {
    RebuildOne(stack, [], e);
    assert [] + [e] == [e];
    RebuildAppend(stack, [e], es);
  }

  /** Main result: from the events of a tree the handler pushes that tree, on any stack. */
  lemma {:induction false} TreeIsRebuilt(v: Value, number: int -> Event, stack: seq<Value>)
    requires IsFaithful(number)
    ensures Rebuild(stack, Report(v, number)) == Values(stack + [v])
    decreases v, Width(v) + 1
  {
    match v
    case ArrayValue(elements) =>
      var inner := stack + [ArrayValue([])];
      ElementsAreRebuilt(v, |elements|, number, inner);
      assert elements[..|elements|] == elements;
      ArrayIsClosed(stack, elements, ReportElements(v, |elements|, number));
    case ObjectValue(members) =>
      var inner := stack + [ObjectValue([])];
      MembersAreRebuilt(v, |members|, number, inner);
      assert members[..|members|] == members;
      ObjectIsClosed(stack, members, ReportMembers(v, |members|, number));
    case IntegerValue(n) =>
      assert Faithful(number(n), n);
      StartsWith(stack, number(n), []);
    case _ =>
      StartsWith(stack, Report(v, number)[0], []);
  }

  lemma RebuildThrough(stack: seq<Value>, a: seq<Event>, b: seq<Event>, mid: seq<Value>, end: seq<Value>)
    requires Rebuild(stack, a) == Values(mid) && Rebuild(mid, b) == Values(end)
    ensures Rebuild(stack, a + b) == Values(end)
  {
    RebuildAppend(stack, a, b);
  }

  lemma {:induction false} ElementsAreRebuilt(v: Value, k: nat, number: int -> Event, stack: seq<Value>)
    requires IsFaithful(number)
    requires v.ArrayValue? && k <= |v.elements|
    ensures Rebuild(stack, ReportElements(v, k, number)) == Values(stack + v.elements[..k])
    decreases v, k
  {
    if k == 0 {
      assert stack + v.elements[..0] == stack;
    } else {
      hide Rebuild, Report;
      var below, x := stack + v.elements[..k - 1], v.elements[k - 1];
      assert below + [x] == stack + v.elements[..k];
      ElementsAreRebuilt(v, k - 1, number, stack);
      TreeIsRebuilt(x, number, below);
      RebuildThrough(stack, ReportElements(v, k - 1, number), Report(x, number), below, below + [x]);
    }
  }

  /** Members as the names and values that stand for them on the stack. */
  function Paired(members: seq<Member>): (values: seq<Value>)
    ensures |values| == 2 * |members|
  {
    if members == [] then []
    else
      var last := members[|members| - 1];
      Paired(members[..|members| - 1]) + [StringValue(last.name), last.value]
  }

  lemma {:induction false} PairedAt(members: seq<Member>, k: nat)
    requires k < |members|
    ensures Paired(members)[2 * k] == StringValue(members[k].name) && Paired(members)[2 * k + 1] == members[k].value
  {
    if k < |members| - 1 {
      PairedAt(members[..|members| - 1], k);
    }
  }

  lemma PairsAreMembers(members: seq<Member>)
    ensures ArePairs(Paired(members)) && AsMembers(Paired(members)) == members
  {
    forall k | 0 <= k < |members|
      ensures Paired(members)[2 * k] == StringValue(members[k].name) && Paired(members)[2 * k + 1] == members[k].value
    {
      PairedAt(members, k);
    }
  }

  lemma {:induction false} MembersAreRebuilt(v: Value, k: nat, number: int -> Event, stack: seq<Value>)
    requires IsFaithful(number)
    requires v.ObjectValue? && k <= |v.members|
    ensures Rebuild(stack, ReportMembers(v, k, number)) == Values(stack + Paired(v.members[..k]))
    decreases v, k
  {
    if k == 0 {
      assert stack + Paired(v.members[..0]) == stack;
    } else {
      hide Rebuild, Report;
      var m := v.members[k - 1];
      var below := stack + Paired(v.members[..k - 1]);
      var named := below + [StringValue(m.name)];
      PairedNext(stack, v.members, k);
      MembersAreRebuilt(v, k - 1, number, stack);
      RebuildOne(stack, ReportMembers(v, k - 1, number), Key(m.name));
      TreeIsRebuilt(m.value, number, named);
      RebuildThrough(stack, ReportMembers(v, k - 1, number) + [Key(m.name)], Report(m.value, number), named,
          named + [m.value]);
    }
  }

  lemma PairedNext(stack: seq<Value>, members: seq<Member>, k: nat)
    requires 0 < k <= |members|
    ensures stack + Paired(members[..k - 1]) + [StringValue(members[k - 1].name)] + [members[k - 1].value]
         == stack + Paired(members[..k])
  {
    assert members[..k][..k - 1] == members[..k - 1];
  }

  // ---------------------------------------------------------------- every accepted text is one tree

  /** An event with the width of an integer report forgotten. */
  function Plain(e: Event): Event {
    if IsInteger(e) then Int64(e.n) else e
  }

  function PlainAll(es: seq<Event>): (ps: seq<Event>)
    ensures |ps| == |es|
  {
    seq(|es|, k requires 0 <= k < |es| => Plain(es[k]))
  }

  function AsInt64(n: int): Event { Int64(n) }

  lemma PlainAppend(a: seq<Event>, b: seq<Event>)
    ensures PlainAll(a + b) == PlainAll(a) + PlainAll(b)
  {
  }

  lemma {:induction false} WidthsDoNotMatter(stack: seq<Value>, es: seq<Event>)
    ensures Rebuild(stack, es) == Rebuild(stack, PlainAll(es))
    decreases |es|
  {
    if es != [] {
      var front := es[..|es| - 1];
      WidthsDoNotMatter(stack, front);
      assert PlainAll(es)[..|es| - 1] == PlainAll(front);
    }
  }

  /** `es` are the events of the tree `v`, up to the width of integer reports. */
  predicate IsReportOf(es: seq<Event>, v: Value) {
    PlainAll(es) == Report(v, AsInt64)
  }

  predicate AreReportsOfElements(es: seq<Event>, vs: seq<Value>) {
    PlainAll(es) == ReportElements(ArrayValue(vs), |vs|, AsInt64)
  }

  predicate AreReportsOfMembers(es: seq<Event>, ms: seq<Member>) {
    PlainAll(es) == ReportMembers(ObjectValue(ms), |ms|, AsInt64)
  }

  lemma {:induction false} ReportElementsPrefix(vs: seq<Value>, k: nat, v: Value)
    requires k <= |vs|
    ensures ReportElements(ArrayValue(vs + [v]), k, AsInt64) == ReportElements(ArrayValue(vs), k, AsInt64)
  {
    if k > 0 {
      ReportElementsPrefix(vs, k - 1, v);
    }
  }

  lemma {:induction false} ReportMembersPrefix(ms: seq<Member>, k: nat, m: Member)
    requires k <= |ms|
    ensures ReportMembers(ObjectValue(ms + [m]), k, AsInt64) == ReportMembers(ObjectValue(ms), k, AsInt64)
  {
    if k > 0 {
      ReportMembersPrefix(ms, k - 1, m);
    }
  }

  lemma OneMoreElement(es: seq<Event>, vs: seq<Value>, more: seq<Event>, v: Value)
    requires AreReportsOfElements(es, vs) && IsReportOf(more, v)
    ensures AreReportsOfElements(es + more, vs + [v])
  {
    ReportElementsPrefix(vs, |vs|, v);
    PlainAppend(es, more);
  }

  lemma OneMoreMember(es: seq<Event>, ms: seq<Member>, name: Bytes, more: seq<Event>, v: Value)
    requires AreReportsOfMembers(es, ms) && IsReportOf(more, v)
    ensures AreReportsOfMembers(es + [Key(name)] + more, ms + [Member(name, v)])
  {
    ReportMembersPrefix(ms, |ms|, Member(name, v));
    PlainAppend(es, [Key(name)]);
    PlainAppend(es + [Key(name)], more);
  }

  lemma ElementsAreArray(es: seq<Event>, vs: seq<Value>)
    requires AreReportsOfElements(es, vs)
    ensures IsReportOf([StartArray] + es + [EndArray(|vs|)], ArrayValue(vs))
  {
    PlainAppend([StartArray], es);
    PlainAppend([StartArray] + es, [EndArray(|vs|)]);
  }

  lemma MembersAreObject(es: seq<Event>, ms: seq<Member>)
    requires AreReportsOfMembers(es, ms)
    ensures IsReportOf([StartObject] + es + [EndObject(|ms|)], ObjectValue(ms))
  {
    PlainAppend([StartObject], es);
    PlainAppend([StartObject] + es, [EndObject(|ms|)]);
  }

  lemma NumberIsOneEvent(c: Client, t: Bytes, i: nat, log: seq<Event>)
    requires i <= |t| && JsonNumber.ParseNumber(c, t, i, log).Ok?
    ensures var r := JsonNumber.ParseNumber(c, t, i, log).log;
            |r| == |log| + 1 && r == log + [r[|log|]] && (IsInteger(r[|log|]) || r[|log|].Double?)
  {
  }

  lemma ScalarIsOneTree(c: Client, t: Bytes, i: nat, log: seq<Event>) returns (v: Value, es: seq<Event>)
    requires i <= |t| && ParseScalar(c, t, i, log).Ok?
    ensures ParseScalar(c, t, i, log).log == log + es && IsReportOf(es, v)
  {
    hide JsonNumber.ParseNumber, JsonString.DecodeString;
    if JsonNumber.ParseNumber(c, t, i, log).Ok? {
      NumberIsOneEvent(c, t, i, log);
    }
    var e := ParseScalar(c, t, i, log).log[|log|];
    es, v := [e], ScalarValue(e);
  }

  /** The events that a successful ParseValue adds to the log are those of one tree. */
  lemma {:induction false} ValueIsOneTree(c: Client, t: Bytes, i: nat, log: seq<Event>)
    returns (v: Value, es: seq<Event>)
    requires i <= |t| && ParseValue(c, t, i, log).Ok?
    ensures ParseValue(c, t, i, log).log == log + es && IsReportOf(es, v)
    decreases |t| - i, 2
  {
    hide ParseArray, ParseObject, ParseScalar, IsReportOf;
    if Peek(t, i) == LEFT_BRACKET {
      v, es := ArrayIsOneTree(c, t, i, log);
    } else if Peek(t, i) == LEFT_BRACE {
      v, es := ObjectIsOneTree(c, t, i, log);
    } else {
      v, es := ScalarIsOneTree(c, t, i, log);
    }
  }

  lemma {:induction false} ArrayIsOneTree(c: Client, t: Bytes, i: nat, log: seq<Event>)
    returns (v: Value, es: seq<Event>)
    requires i < |t| && ParseArray(c, t, i, log).Ok?
    ensures ParseArray(c, t, i, log).log == log + es && IsReportOf(es, v)
    decreases |t| - i, 1
  {
    hide ParseElements, IsReportOf;
    assert AreReportsOfElements([], []);
    var j := SkipSpace(t, i + 1);
    var vs, inner := [], [];
    assert log + [StartArray] + [] == log + [StartArray];
    if Peek(t, j) != RIGHT_BRACKET {
      vs, inner := ElementsAreTrees(c, t, j, log + [StartArray], [], []);
    }
    v, es := ArrayValue(vs), [StartArray] + inner + [EndArray(|vs|)];
    ElementsAreArray(inner, vs);
  }

  lemma {:induction false} ElementsAreTrees(c: Client, t: Bytes, i: nat, base: seq<Event>, es: seq<Event>,
                                            vs: seq<Value>)
    returns (all: seq<Value>, inner: seq<Event>)
    requires i <= |t| && ParseElements(c, t, i, |vs|, base + es).Ok?
    requires AreReportsOfElements(es, vs)
    ensures ParseElements(c, t, i, |vs|, base + es).log == base + inner + [EndArray(|all|)]
    ensures AreReportsOfElements(inner, all)
    decreases |t| - i, 3
  {
    hide ParseValue, AreReportsOfElements, IsReportOf;
    var v, more := ValueIsOneTree(c, t, i, base + es);
    OneMoreElement(es, vs, more, v);
    assert base + es + more == base + (es + more);
    var r := ParseValue(c, t, i, base + es);
    var j := SkipSpace(t, r.at);
    if Peek(t, j) == COMMA {
      all, inner := ElementsAreTrees(c, t, SkipSpace(t, j + 1), base, es + more, vs + [v]);
    } else {
      all, inner := vs + [v], es + more;
    }
  }

  lemma {:induction false} ObjectIsOneTree(c: Client, t: Bytes, i: nat, log: seq<Event>)
    returns (v: Value, es: seq<Event>)
    requires i < |t| && ParseObject(c, t, i, log).Ok?
    ensures ParseObject(c, t, i, log).log == log + es && IsReportOf(es, v)
    decreases |t| - i, 1
  {
    hide ParseMembers, IsReportOf;
    assert AreReportsOfMembers([], []);
    var j := SkipSpace(t, i + 1);
    var ms, inner := [], [];
    assert log + [StartObject] + [] == log + [StartObject];
    if Peek(t, j) != RIGHT_BRACE {
      ms, inner := MembersAreTrees(c, t, j, log + [StartObject], [], []);
    }
    v, es := ObjectValue(ms), [StartObject] + inner + [EndObject(|ms|)];
    MembersAreObject(inner, ms);
  }

  lemma NameIsKey(c: Client, t: Bytes, i: nat, log: seq<Event>) returns (name: Bytes)
    requires i <= |t| && ParseName(c, t, i, log).Ok?
    ensures ParseName(c, t, i, log).log == log + [Key(name)]
  {
    name := JsonString.DecodeString(t, i + 1).bytes;
  }

  lemma {:induction false} MembersAreTrees(c: Client, t: Bytes, i: nat, base: seq<Event>, es: seq<Event>,
                                           ms: seq<Member>)
    returns (all: seq<Member>, inner: seq<Event>)
    requires i <= |t| && ParseMembers(c, t, i, |ms|, base + es).Ok?
    requires AreReportsOfMembers(es, ms)
    ensures ParseMembers(c, t, i, |ms|, base + es).log == base + inner + [EndObject(|all|)]
    ensures AreReportsOfMembers(inner, all)
    decreases |t| - i, 3
  {
    hide ParseName, ParseValue, AreReportsOfMembers, IsReportOf;
    var named := ParseName(c, t, i, base + es);
    var name := NameIsKey(c, t, i, base + es);
    MemberValueByRound(c, t, named.at, |ms|, named.log);
    var v, more := ValueIsOneTree(c, t, named.at, named.log);
    OneMoreMember(es, ms, name, more, v);
    var next := es + [Key(name)] + more;
    assert base + es + [Key(name)] + more == base + next;
    var r := ParseValue(c, t, named.at, named.log);
    var j := SkipSpace(t, r.at);
    if Peek(t, j) == COMMA {
      all, inner := MembersAreTrees(c, t, SkipSpace(t, j + 1), base, next, ms + [Member(name, v)]);
    } else {
      all, inner := ms + [Member(name, v)], next;
    }
  }

  /**
   * Main result: whatever text is accepted, its events are those of one tree, every EndArray and
   * EndObject carrying the number of elements or members, and the handler ends with exactly that
   * tree on its stack; with the counts and lengths in 32 bits too, if the text is shorter than 2^32.
   */
  lemma ParsedTextIsOneTree(c: Client, t: Bytes) returns (v: Value)
    requires Parse(c, t).Ok?
    ensures IsReportOf(Parse(c, t).log, v)
    ensures Rebuild([], Parse(c, t).log) == Values([v])
    ensures |t| < JsonNumber.TWO_32 ==> Rebuild([], AllNarrowed(Parse(c, t).log)) == Values([v])
  {
    hide ParseValue;
    if |t| < JsonNumber.TWO_32 {
      ShortTextIsNotNarrowed(c, t);
    }
    hide AllNarrowed;
    var es;
    v, es := ValueIsOneTree(c, t, SkipSpace(t, 0), []);
    assert [] + es == es;
    assert IsFaithful(AsInt64) by {
      forall n: int ensures Faithful(AsInt64(n), n) { }
    }
    TreeIsRebuilt(v, AsInt64, []);
    WidthsDoNotMatter([], es);
  }

  // ---------------------------------------------------------------- the handler as an object

  lemma RebuildNext(es: seq<Event>, k: nat)
    requires k < |es|
    ensures Rebuild([], es[..k]).Broken? ==> Rebuild([], es[..k + 1]).Broken?
    ensures Rebuild([], es[..k]).Values? ==> Rebuild([], es[..k + 1]) == Handle(Rebuild([], es[..k]).values, es[k])
  {
    assert es[..k + 1][..k] == es[..k];
  }

  lemma {:induction false} BrokenStays(es: seq<Event>, k: nat)
    requires k <= |es| && Rebuild([], es[..k]).Broken?
    ensures Rebuild([], es).Broken?
    decreases |es| - k
  {
    if k == |es| {
      assert es[..k] == es;
    } else {
      RebuildNext(es, k);
      BrokenStays(es, k + 1);
    }
  }

  /** A document: the stack its handler methods work on, and the root they leave. */
  class Document {
    var stack: seq<Value>
    var root: Value

    constructor ()
      ensures stack == [] && root == NullValue
    {
      stack, root := [], NullValue;
    }

    method Push(v: Value)
      modifies this`stack
      ensures stack == old(stack) + [v]
    {
      stack := stack + [v];
    }

    /** Pop the members and store them in the object below them. */
    method EndObject(memberCount: nat)
      requires Handle(stack, JsonEvents.EndObject(memberCount)).Values?
      modifies this`stack
      ensures Values(stack) == Handle(old(stack), JsonEvents.EndObject(memberCount))
    {
      var members := stack[|stack| - 2 * memberCount..];
      stack := stack[..|stack| - 2 * memberCount];
      stack := stack[|stack| - 1 := ObjectValue(AsMembers(members))];
    }

    /** Pop the elements and store them in the array below them. */
    method EndArray(elementCount: nat)
      requires Handle(stack, JsonEvents.EndArray(elementCount)).Values?
      modifies this`stack
      ensures Values(stack) == Handle(old(stack), JsonEvents.EndArray(elementCount))
    {
      var elements := stack[|stack| - elementCount..];
      stack := stack[..|stack| - elementCount];
      stack := stack[|stack| - 1 := ArrayValue(elements)];
    }

    method Receive(e: Event)
      requires Handle(stack, e).Values?
      modifies this`stack
      ensures Values(stack) == Handle(old(stack), e)
    {
      match e {
        case StartObject => Push(ObjectValue([]));
        case EndObject(count) => EndObject(count);
        case StartArray => Push(ArrayValue([]));
        case EndArray(count) => EndArray(count);
        case _ => Push(ScalarValue(e));
      }
    }

    /**
     * Main result: given the events of any accepted text, no handler method pops more than there is,
     * and exactly one value is left, which becomes the root.
     */
    method ParseStream(es: seq<Event>, ghost c: Client, ghost t: Bytes)
      requires stack == [] && RecursiveParser.Parse(c, t).Ok? && RecursiveParser.Parse(c, t).log == es
      modifies this
      ensures IsReportOf(es, root) && Rebuild([], es) == Values([root]) && stack == []
    {
      hide RecursiveParser.Parse, IsReportOf;
      ghost var v := ParsedTextIsOneTree(c, t);
      var k := 0;
      while k < |es|
        invariant k <= |es| && Rebuild([], es[..k]) == Values(stack)
      {
        RebuildNext(es, k);
        if Handle(stack, es[k]).Broken? {
          BrokenStays(es, k + 1);
        }
        Receive(es[k]);
        k := k + 1;
      }
      assert es[..k] == es;
      assert |stack| == 1;
      root := stack[0];
      stack := stack[..0];
    }
  }
}
