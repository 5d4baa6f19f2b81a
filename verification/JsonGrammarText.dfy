/**
 * The grammar of JSON texts of RFC 8259 (sections 2 to 5), stated without reference to the readers: a text is
 * the spelling of a syntax tree, which has all the white space, and the spellings of strings and numbers that
 * were chosen. Main results: the readers accept exactly the spellings of syntax trees, with their events
 * (TextIsAccepted, AcceptedIsText); and the compact UTF-8 text of a tree is the shortest one (CompactIsShortest).
 */
module TextGrammar {
  import opened JsonText
  import opened JsonEvents
  import opened JsonDocument
  import opened RecursiveParser
  import S = StringGrammar
  import N = NumberGrammar
  import R = JsonRoundTrip
  import W = JsonWriter
  import JsonNumber
  import JsonString

  datatype Syntax =
    | NullText
    | TrueText
    | FalseText
    | NumberText(n: N.Number)
    | StringText(parts: seq<S.Part>)
    | ArrayText(space: Bytes, items: seq<Item>)
    | ObjectText(space: Bytes, fields: seq<Field>)

  /** An element between white space. */
  datatype Item = Item(before: Bytes, value: Syntax, after: Bytes)

  /** A member, with the white space around its name and its value. */
  datatype Field =
    Field(before: Bytes, name: seq<S.Part>, afterName: Bytes, beforeValue: Bytes, value: Syntax, after: Bytes)

  predicate IsWhite(c: byte) {
    c as int == ' ' as int || c as int == '\t' as int || c as int == '\n' as int || c as int == '\r' as int
  }

  predicate AllWhite(w: Bytes) {
    forall k :: 0 <= k < |w| ==> IsWhite(w[k])
  }

  /** `space` is what stands between the brackets of an empty array or object. */
  predicate SyntaxOk(s: Syntax) {
    match s
    case NumberText(n) => N.NumberOk(n)
    case StringText(parts) => S.AllOk(parts)
    case ArrayText(space, items) => AllWhite(space) && ItemsOk(items)
    case ObjectText(space, fields) => AllWhite(space) && FieldsOk(fields)
    case _ => true
  }

  predicate ItemsOk(items: seq<Item>) {
    items == [] ||
    (AllWhite(items[0].before) && SyntaxOk(items[0].value) && AllWhite(items[0].after) && ItemsOk(items[1..]))
  }

  predicate FieldsOk(fields: seq<Field>) {
    fields == [] || (FrameOk(fields[0]) && SyntaxOk(fields[0].value) && FieldsOk(fields[1..]))
  }

  predicate FrameOk(f: Field) {
    AllWhite(f.before) && S.AllOk(f.name) && AllWhite(f.afterName) && AllWhite(f.beforeValue) && AllWhite(f.after)
  }

  function Ascii(s: string): (w: Bytes)
    requires forall k :: 0 <= k < |s| ==> s[k] as int < 128
    ensures |w| == |s|
  {
    seq(|s|, k requires 0 <= k < |s| => s[k] as int)
  }

  function StringSpelling(parts: seq<S.Part>): Bytes {
    [QUOTE] + S.SpellingOf(parts) + [QUOTE]
  }

  function Spelling(s: Syntax): Bytes {
    match s
    case NullText => Ascii("null")
    case TrueText => Ascii("true")
    case FalseText => Ascii("false")
    case NumberText(n) => N.Spelling(n)
    case StringText(parts) => StringSpelling(parts)
    case ArrayText(space, items) =>
      [LEFT_BRACKET] + (if items == [] then space else ItemsSpelling(items)) + [RIGHT_BRACKET]
    case ObjectText(space, fields) =>
      [LEFT_BRACE] + (if fields == [] then space else FieldsSpelling(fields)) + [RIGHT_BRACE]
  }

  function ItemsSpelling(items: seq<Item>): Bytes
    requires items != []
  {
    items[0].before + Spelling(items[0].value) + items[0].after
    + if |items| == 1 then [] else [COMMA] + ItemsSpelling(items[1..])
  }

  function FieldsSpelling(fields: seq<Field>): Bytes
    requires fields != []
  {
    NameSpelling(fields[0]) + Spelling(fields[0].value) + fields[0].after
    + if |fields| == 1 then [] else [COMMA] + FieldsSpelling(fields[1..])
  }

  /** A member up to its value. */
  function NameSpelling(f: Field): Bytes {
    f.before + StringSpelling(f.name) + f.afterName + [COLON] + f.beforeValue
  }

  /** The tree that a syntax tree stands for. */
  function Meaning(s: Syntax): Value
    requires SyntaxOk(s)
  {
    match s
    case NullText => NullValue
    case TrueText => BoolValue(true)
    case FalseText => BoolValue(false)
    case NumberText(n) => if N.IsInteger(n) then IntegerValue(N.IntegerValue(n)) else DoubleValue(N.Spelling(n))
    case StringText(parts) => StringValue(S.MeaningOf(parts))
    case ArrayText(_, items) => ArrayValue(ItemsMeaning(items))
    case ObjectText(_, fields) => ObjectValue(FieldsMeaning(fields))
  }

  function ItemsMeaning(items: seq<Item>): (vs: seq<Value>)
    requires ItemsOk(items)
    ensures |vs| == |items|
  {
    if items == [] then [] else [Meaning(items[0].value)] + ItemsMeaning(items[1..])
  }

  function FieldsMeaning(fields: seq<Field>): (ms: seq<Member>)
    requires FieldsOk(fields)
    ensures |ms| == |fields|
  {
    if fields == [] then []
    else [Member(S.MeaningOf(fields[0].name), Meaning(fields[0].value))] + FieldsMeaning(fields[1..])
  }

  /** The events that report it. */
  function Events(s: Syntax): seq<Event>
    requires SyntaxOk(s)
  {
    match s
    case NullText => [Null]
    case TrueText => [Bool(true)]
    case FalseText => [Bool(false)]
    case NumberText(n) => [N.EventOf(n)]
    case StringText(parts) => [String(S.MeaningOf(parts))]
    case ArrayText(_, items) => [StartArray] + ItemsEvents(items) + [EndArray(|items|)]
    case ObjectText(_, fields) => [StartObject] + FieldsEvents(fields) + [EndObject(|fields|)]
  }

  function ItemsEvents(items: seq<Item>): seq<Event>
    requires ItemsOk(items)
  {
    if items == [] then [] else Events(items[0].value) + ItemsEvents(items[1..])
  }

  function FieldsEvents(fields: seq<Field>): seq<Event>
    requires FieldsOk(fields)
  {
    if fields == [] then []
    else [Key(S.MeaningOf(fields[0].name))] + Events(fields[0].value) + FieldsEvents(fields[1..])
  }

  /** No number is too big for a double. */
  predicate NoneTooBig(c: Client, s: Syntax)
    requires SyntaxOk(s)
  {
    match s
    case NumberText(n) => N.EventOf(n).Double? ==> !c.tooBig(N.Spelling(n))
    case ArrayText(_, items) => NoItemTooBig(c, items)
    case ObjectText(_, fields) => NoFieldTooBig(c, fields)
    case _ => true
  }

  predicate NoItemTooBig(c: Client, items: seq<Item>)
    requires ItemsOk(items)
  {
    items == [] || (NoneTooBig(c, items[0].value) && NoItemTooBig(c, items[1..]))
  }

  predicate NoFieldTooBig(c: Client, fields: seq<Field>)
    requires FieldsOk(fields)
  {
    fields == [] || (NoneTooBig(c, fields[0].value) && NoFieldTooBig(c, fields[1..]))
  }

  /** A character that does not continue the text of a value. */
  predicate MayFollow(s: Syntax, c: byte) {
    s.NumberText? ==> N.MayFollow(s.n, c)
  }

  // ---------------------------------------------------------------- white space

  lemma SameSpace(c: byte)
    ensures IsWhite(c) <==> IsSpace(c)
  {
  }

  lemma WhiteIsSkipped(w: Bytes, t: Bytes, i: nat)
    requires AllWhite(w) && Occurs(w, t, i) && !IsWhite(Peek(t, i + |w|))
    ensures SkipSpace(t, i) == i + |w|
  {
    forall k | 0 <= k < |w| ensures IsSpace(w[k]) {
      SameSpace(w[k]);
    }
    SameSpace(Peek(t, i + |w|));
    R.SkipGap(t, i, w);
  }

  lemma {:induction false} SkippedIsWhite(t: Bytes, i: nat) returns (w: Bytes)
    requires i <= |t|
    ensures AllWhite(w) && Occurs(w, t, i) && SkipSpace(t, i) == i + |w| && !IsWhite(Peek(t, i + |w|))
    decreases |t| - i
  {
    SameSpace(Peek(t, i));
    if IsSpace(Peek(t, i)) {
      var rest := SkippedIsWhite(t, i + 1);
      w := [t[i]] + rest;
      OccursJoined([t[i]], rest, t, i);
    } else {
      w := [];
    }
  }

  /** Neither white space nor a comma or bracket continues a number. */
  predicate EndsValue(c: byte) {
    IsWhite(c) || c == COMMA || c == RIGHT_BRACKET || c == RIGHT_BRACE || c == 0
  }

  lemma EndMayFollow(s: Syntax, c: byte)
    requires EndsValue(c)
    ensures MayFollow(s, c)
  {
  }

  /** A value starts with neither white space nor a closing bracket. */
  lemma {:induction false} SpellingStarts(s: Syntax)
    requires SyntaxOk(s)
    ensures |Spelling(s)| > 0
    ensures var c := Spelling(s)[0]; !IsWhite(c) && c != RIGHT_BRACKET && c != RIGHT_BRACE && c != 0
  {
    hide ItemsSpelling, FieldsSpelling, S.SpellingOf;
    if s.NumberText? {
      N.StartsWithDigitOrSign(s.n);
    }
  }

  // ---------------------------------------------------------------- every text of the grammar is read

  lemma StringIsRead(c: Client, parts: seq<S.Part>, t: Bytes, i: nat, isKey: bool, log: seq<Event>)
    requires R.Accepting(c) && S.AllOk(parts) && Occurs(StringSpelling(parts), t, i)
    ensures i < |t| && Peek(t, i) == QUOTE
    ensures ParseString(c, t, i, isKey, log)
         == Ok(i + |StringSpelling(parts)|,
               log + [if isKey then Key(S.MeaningOf(parts)) else String(S.MeaningOf(parts))])
  {
    hide JsonString.DecodeString, S.SpellingOf, S.MeaningOf, S.AllOk;
    var w := S.SpellingOf(parts);
    assert StringSpelling(parts) == [QUOTE] + (w + [QUOTE]);
    OccursSplit([QUOTE], w + [QUOTE], t, i);
    OccursAt([QUOTE], t, i, 0);
    S.StringIsDecoded(parts, t, i + 1);
  }

  lemma WordIsRead(c: Client, s: Syntax, t: Bytes, i: nat, log: seq<Event>)
    requires R.Accepting(c) && (s.NullText? || s.TrueText? || s.FalseText?) && Occurs(Spelling(s), t, i)
    ensures ParseValue(c, t, i, log) == Ok(i + |Spelling(s)|, log + Events(s))
  {
    var w := Spelling(s);
    assert w == if s.NullText? then NULL_WORD else if s.TrueText? then TRUE_WORD else FALSE_WORD;
    OccursAt(w, t, i, 0);
    R.WordIsRead(c, t, i, w, Events(s)[0], log);
  }

  lemma StringTextIsRead(c: Client, parts: seq<S.Part>, t: Bytes, i: nat, log: seq<Event>)
    requires R.Accepting(c) && S.AllOk(parts) && Occurs(StringSpelling(parts), t, i)
    ensures ParseValue(c, t, i, log) == Ok(i + |StringSpelling(parts)|, log + [String(S.MeaningOf(parts))])
  {
    hide StringSpelling, S.MeaningOf, S.AllOk, ParseString, Occurs;
    StringIsRead(c, parts, t, i, false, log);
  }

  lemma NumberTextIsRead(c: Client, n: N.Number, t: Bytes, i: nat, log: seq<Event>)
    requires R.Accepting(c) && N.NumberOk(n) && NoneTooBig(c, NumberText(n))
    requires Occurs(N.Spelling(n), t, i) && N.MayFollow(n, Peek(t, i + |N.Spelling(n)|))
    ensures ParseValue(c, t, i, log) == Ok(i + |N.Spelling(n)|, log + [N.EventOf(n)])
  {
    hide N.Spelling, N.EventOf, N.NumberOk, JsonNumber.ParseNumber, N.MayFollow;
    N.StartsWithDigitOrSign(n);
    OccursAt(N.Spelling(n), t, i, 0);
    N.NumberIsRead(c, n, t, i, log);
  }

  /** Main result: a text of the grammar, wherever it stands, is read as its events. */
  lemma {:induction false} SyntaxIsRead(c: Client, s: Syntax, t: Bytes, i: nat, log: seq<Event>)
    requires R.Accepting(c) && SyntaxOk(s) && NoneTooBig(c, s)
    requires Occurs(Spelling(s), t, i) && MayFollow(s, Peek(t, i + |Spelling(s)|))
    ensures ParseValue(c, t, i, log) == Ok(i + |Spelling(s)|, log + Events(s))
    decreases s, 1
  {
    hide ParseValue, NoItemTooBig, NoFieldTooBig, ItemsSpelling, FieldsSpelling, StringSpelling, Occurs, Peek;
    hide ItemsEvents, FieldsEvents;
    match s
    case NumberText(n) =>
      NumberTextIsRead(c, n, t, i, log);
    case StringText(parts) =>
      StringTextIsRead(c, parts, t, i, log);
    case ArrayText(_, _) =>
      ArrayIsRead(c, s, t, i, log);
    case ObjectText(_, _) =>
      ObjectIsRead(c, s, t, i, log);
    case _ =>
      WordIsRead(c, s, t, i, log);
  }

  /** What can stand behind an element or a member. */
  predicate IsSeparator(c: byte) {
    c == COMMA || c == RIGHT_BRACKET || c == RIGHT_BRACE
  }

  /** A value between white space, with a comma or a closing bracket behind. */
  lemma {:induction false} ValueIsRead(c: Client, before: Bytes, s: Syntax, after: Bytes, next: byte,
                                       t: Bytes, i: nat, log: seq<Event>)
    requires R.Accepting(c) && SyntaxOk(s) && NoneTooBig(c, s)
    requires AllWhite(before) && AllWhite(after) && IsSeparator(next)
    requires Occurs(before, t, i) && Occurs(Spelling(s), t, i + |before|)
    requires Occurs(after, t, i + |before| + |Spelling(s)|)
    requires Peek(t, i + |before| + |Spelling(s)| + |after|) == next
    ensures SkipSpace(t, i) == i + |before| <= |t|
    ensures Peek(t, i + |before|) != RIGHT_BRACKET && Peek(t, i + |before|) != RIGHT_BRACE
    ensures var at := i + |before| + |Spelling(s)|;
            ParseValue(c, t, i + |before|, log) == Ok(at, log + Events(s)) && SkipSpace(t, at) == at + |after|
    decreases s, 2
  {
    hide ParseValue, Spelling, Events, NoneTooBig, SyntaxOk, MayFollow, SkipSpace;
    var j := i + |before|;
    var at := j + |Spelling(s)|;
    SpellingStarts(s);
    OccursAt(Spelling(s), t, j, 0);
    WhiteIsSkipped(before, t, i);
    if after != [] {
      OccursAt(after, t, at, 0);
    }
    EndMayFollow(s, Peek(t, at));
    SyntaxIsRead(c, s, t, j, log);
    WhiteIsSkipped(after, t, at);
  }

  lemma {:induction false} ArrayIsRead(c: Client, s: Syntax, t: Bytes, i: nat, log: seq<Event>)
    requires R.Accepting(c) && SyntaxOk(s) && NoneTooBig(c, s) && s.ArrayText? && Occurs(Spelling(s), t, i)
    ensures ParseValue(c, t, i, log) == Ok(i + |Spelling(s)|, log + Events(s))
    decreases s, 0
  {
    hide ParseElements, SkipSpace, ItemsSpelling, ItemsEvents, NoItemTooBig, Occurs, Peek, Events, Emit;
    var inner := if s.items == [] then s.space else ItemsSpelling(s.items);
    var begun := log + [StartArray];
    Associate([LEFT_BRACKET], inner, [RIGHT_BRACKET]);
    assert Spelling(s) == [LEFT_BRACKET] + (inner + [RIGHT_BRACKET]);
    OccursSplit([LEFT_BRACKET], inner + [RIGHT_BRACKET], t, i);
    hide Spelling;
    OccursAt([LEFT_BRACKET], t, i, 0);
    InBounds([LEFT_BRACKET], t, i);
    Accepted(c, log, StartArray, i + 1);
    ArrayEvents(s, log);
    if s.items == [] {
      OccursSplit(inner, [RIGHT_BRACKET], t, i + 1);
      OccursAt([RIGHT_BRACKET], t, i + 1 + |inner|, 0);
      WhiteIsSkipped(s.space, t, i + 1);
      Accepted(c, begun, EndArray(0), i + 1 + |inner| + 1);
    } else {
      ItemsAreRead(c, s.items, t, i + 1, 0, begun);
    }
  }

  lemma {:induction false} ArrayEvents(s: Syntax, log: seq<Event>)
    requires SyntaxOk(s) && s.ArrayText?
    ensures log + Events(s) == log + [StartArray] + ItemsEvents(s.items) + [EndArray(|s.items|)]
    ensures s.items == [] ==> log + Events(s) == log + [StartArray] + [EndArray(0)]
  {
    if s.items != [] {
      hide ItemsEvents;
    }
  }

  lemma {:induction false} ObjectEvents(s: Syntax, log: seq<Event>)
    requires SyntaxOk(s) && s.ObjectText?
    ensures log + Events(s) == log + [StartObject] + FieldsEvents(s.fields) + [EndObject(|s.fields|)]
    ensures s.fields == [] ==> log + Events(s) == log + [StartObject] + [EndObject(0)]
  {
    if s.fields != [] {
      hide FieldsEvents;
    }
  }

  /** The text of the elements, split after the first one. */
  function Rest(items: seq<Item>): Bytes
    requires items != []
  {
    if |items| == 1 then [RIGHT_BRACKET] else [COMMA] + (ItemsSpelling(items[1..]) + [RIGHT_BRACKET])
  }

  lemma FourStand(a: Bytes, b: Bytes, c: Bytes, d: Bytes, t: Bytes, i: nat)
    returns (second: nat, third: nat, fourth: nat)
    requires Occurs(a + b + c + d, t, i)
    ensures second == i + |a| && third == second + |b| && fourth == third + |c|
    ensures Occurs(a, t, i) && Occurs(b, t, second) && Occurs(c, t, third) && Occurs(d, t, fourth)
  {
    hide Occurs;
    second, third, fourth := i + |a|, i + |a + b|, i + |a + b + c|;
    OccursSplit(a + b + c, d, t, i);
    OccursSplit(a + b, c, t, i);
    OccursSplit(a, b, t, i);
  }

  lemma {:induction false} ItemsStand(items: seq<Item>, t: Bytes, i: nat) returns (value: nat, at: nat, k: nat)
    requires items != [] && Occurs(ItemsSpelling(items) + [RIGHT_BRACKET], t, i)
    ensures value == i + |items[0].before| && at == value + |Spelling(items[0].value)| && k == at + |items[0].after|
    ensures Occurs(items[0].before, t, i) && Occurs(Spelling(items[0].value), t, value)
    ensures Occurs(items[0].after, t, at) && Occurs(Rest(items), t, k)
    ensures k + |Rest(items)| == i + |ItemsSpelling(items)| + 1 <= |t|
  {
    ItemsSplit(items);
    hide Occurs, Spelling, ItemsSpelling, Rest;
    InBounds(ItemsSpelling(items) + [RIGHT_BRACKET], t, i);
    value, at, k := FourStand(items[0].before, Spelling(items[0].value), items[0].after, Rest(items), t, i);
  }

  lemma {:induction false} ItemsSplit(items: seq<Item>)
    requires items != []
    ensures var f := items[0];
            ItemsSpelling(items) + [RIGHT_BRACKET] == f.before + Spelling(f.value) + f.after + Rest(items)
  {
    hide Spelling;
    var f := items[0];
    var front := f.before + Spelling(f.value) + f.after;
    var tail := if |items| == 1 then [] else [COMMA] + ItemsSpelling(items[1..]);
    assert ItemsSpelling(items) == front + tail;
    assert tail + [RIGHT_BRACKET] == Rest(items);
    hide ItemsSpelling, Rest;
    Associate(front, tail, [RIGHT_BRACKET]);
  }

  lemma InBounds(w: Bytes, t: Bytes, i: nat)
    requires Occurs(w, t, i)
    ensures i + |w| <= |t|
  {
  }

  lemma Associate(a: Bytes, b: Bytes, c: Bytes)
    ensures a + b + c == a + (b + c)
  {
  }

  lemma {:induction false} ItemsAreRead(c: Client, items: seq<Item>, t: Bytes, i: nat, count: nat, log: seq<Event>)
    requires R.Accepting(c) && ItemsOk(items) && items != [] && NoItemTooBig(c, items)
    requires Occurs(ItemsSpelling(items) + [RIGHT_BRACKET], t, i)
    ensures SkipSpace(t, i) <= |t| && Peek(t, SkipSpace(t, i)) != RIGHT_BRACKET
    ensures ParseElements(c, t, SkipSpace(t, i), count, log)
         == Ok(i + |ItemsSpelling(items)| + 1, log + ItemsEvents(items) + [EndArray(count + |items|)])
    decreases items
  {
    hide ParseElements, ParseValue, SkipSpace, ItemsSpelling, Spelling, Events, SyntaxOk, NoneTooBig;
    hide Occurs, Peek, Emit, ItemsEvents;
    var f := items[0];
    var next := log + Events(f.value);
    var value, at, k := ItemsStand(items, t, i);
    OccursAt(Rest(items), t, k, 0);
    ValueIsRead(c, f.before, f.value, f.after, Rest(items)[0], t, i, log);
    ElementsByRound(c, t, value, count, log);
    ItemsEventsSplit(items, log);
    if |items| > 1 {
      OccursSplit([COMMA], ItemsSpelling(items[1..]) + [RIGHT_BRACKET], t, k);
      ItemsAreRead(c, items[1..], t, k + 1, count + 1, next);
    } else {
      Accepted(c, next, EndArray(count + 1), k + 1);
    }
  }

  lemma {:induction false} ItemsEventsSplit(items: seq<Item>, log: seq<Event>)
    requires ItemsOk(items) && items != []
    ensures |items| == 1 ==> log + ItemsEvents(items) == log + Events(items[0].value)
    ensures |items| > 1 ==> log + ItemsEvents(items) == log + Events(items[0].value) + ItemsEvents(items[1..])
  {
    hide Events;
    if |items| == 1 {
      assert items[1..] == [];
    }
  }

  lemma {:induction false} FieldsEventsSplit(fields: seq<Field>, log: seq<Event>, next: seq<Event>)
    requires FieldsOk(fields) && fields != []
    requires next == log + [Key(S.MeaningOf(fields[0].name))] + Events(fields[0].value)
    ensures |fields| == 1 ==> log + FieldsEvents(fields) == next
    ensures |fields| > 1 ==> log + FieldsEvents(fields) == next + FieldsEvents(fields[1..])
  {
    hide Events, S.MeaningOf;
    var key, value, rest := [Key(S.MeaningOf(fields[0].name))], Events(fields[0].value), FieldsEvents(fields[1..]);
    assert FieldsEvents(fields) == key + value + rest;
    if |fields| == 1 {
      assert fields[1..] == [];
      assert rest == [];
    }
    hide FieldsEvents;
    LogAssociates(log, key, value, rest);
  }

  lemma LogAssociates(log: seq<Event>, a: seq<Event>, b: seq<Event>, c: seq<Event>)
    ensures log + (a + b + c) == log + a + b + c
    ensures c == [] ==> log + (a + b + c) == log + a + b
  {
  }

  lemma Accepted(c: Client, log: seq<Event>, e: Event, at: nat)
    requires R.Accepting(c)
    ensures Emit(c, log, e, at) == Ok(at, log + [e])
  {
  }

  lemma {:induction false} ObjectIsRead(c: Client, s: Syntax, t: Bytes, i: nat, log: seq<Event>)
    requires R.Accepting(c) && SyntaxOk(s) && NoneTooBig(c, s) && s.ObjectText? && Occurs(Spelling(s), t, i)
    ensures ParseValue(c, t, i, log) == Ok(i + |Spelling(s)|, log + Events(s))
    decreases s, 0
  {
    hide ParseMembers, SkipSpace, FieldsSpelling, FieldsEvents, NoFieldTooBig, Occurs, Peek, Events, Emit;
    var inner := if s.fields == [] then s.space else FieldsSpelling(s.fields);
    var begun := log + [StartObject];
    Associate([LEFT_BRACE], inner, [RIGHT_BRACE]);
    assert Spelling(s) == [LEFT_BRACE] + (inner + [RIGHT_BRACE]);
    OccursSplit([LEFT_BRACE], inner + [RIGHT_BRACE], t, i);
    hide Spelling;
    OccursAt([LEFT_BRACE], t, i, 0);
    InBounds([LEFT_BRACE], t, i);
    Accepted(c, log, StartObject, i + 1);
    ObjectEvents(s, log);
    if s.fields == [] {
      OccursSplit(inner, [RIGHT_BRACE], t, i + 1);
      OccursAt([RIGHT_BRACE], t, i + 1 + |inner|, 0);
      WhiteIsSkipped(s.space, t, i + 1);
      Accepted(c, begun, EndObject(0), i + 1 + |inner| + 1);
    } else {
      FieldsAreRead(c, s.fields, t, i + 1, 0, begun);
    }
  }

  function FieldsRest(fields: seq<Field>): Bytes
    requires fields != []
  {
    if |fields| == 1 then [RIGHT_BRACE] else [COMMA] + (FieldsSpelling(fields[1..]) + [RIGHT_BRACE])
  }

  lemma {:induction false} FieldsStand(fields: seq<Field>, t: Bytes, i: nat) returns (value: nat, at: nat, k: nat)
    requires fields != [] && Occurs(FieldsSpelling(fields) + [RIGHT_BRACE], t, i)
    ensures value == i + |NameSpelling(fields[0])| && at == value + |Spelling(fields[0].value)|
    ensures k == at + |fields[0].after|
    ensures Occurs(NameSpelling(fields[0]), t, i) && Occurs(Spelling(fields[0].value), t, value)
    ensures Occurs(fields[0].after, t, at) && Occurs(FieldsRest(fields), t, k)
    ensures k + |FieldsRest(fields)| == i + |FieldsSpelling(fields)| + 1 <= |t|
  {
    FieldsSplit(fields);
    hide Occurs, Spelling, NameSpelling, FieldsSpelling, FieldsRest;
    InBounds(FieldsSpelling(fields) + [RIGHT_BRACE], t, i);
    var f := fields[0];
    value, at, k := FourStand(NameSpelling(f), Spelling(f.value), f.after, FieldsRest(fields), t, i);
  }

  lemma {:induction false} FieldsSplit(fields: seq<Field>)
    requires fields != []
    ensures var f := fields[0];
            FieldsSpelling(fields) + [RIGHT_BRACE] == NameSpelling(f) + Spelling(f.value) + f.after + FieldsRest(fields)
  {
    hide Spelling, NameSpelling;
    var f := fields[0];
    var front := NameSpelling(f) + Spelling(f.value) + f.after;
    var tail := if |fields| == 1 then [] else [COMMA] + FieldsSpelling(fields[1..]);
    assert FieldsSpelling(fields) == front + tail;
    assert tail + [RIGHT_BRACE] == FieldsRest(fields);
    hide FieldsSpelling, FieldsRest;
    Associate(front, tail, [RIGHT_BRACE]);
  }

  lemma NameStands(f: Field, t: Bytes, i: nat) returns (name: nat, named: nat, colon: nat)
    requires Occurs(NameSpelling(f), t, i)
    ensures name == i + |f.before| && named == name + |StringSpelling(f.name)| && colon == named + |f.afterName|
    ensures i + |NameSpelling(f)| == colon + 1 + |f.beforeValue| <= |t|
    ensures Occurs(f.before, t, i) && Occurs(StringSpelling(f.name), t, name) && Occurs(f.afterName, t, named)
    ensures Occurs([COLON], t, colon) && Occurs(f.beforeValue, t, colon + 1)
  {
    var a, b, e, g := f.before, StringSpelling(f.name), f.afterName, f.beforeValue;
    InBounds(NameSpelling(f), t, i);
    hide Occurs, StringSpelling;
    name, named, colon := i + |a|, i + |a + b|, i + |a + b + e|;
    OccursSplit(a + b + e + [COLON], g, t, i);
    OccursSplit(a + b + e, [COLON], t, i);
    OccursSplit(a + b, e, t, i);
    OccursSplit(a, b, t, i);
  }

  /** A member name, and the colon behind it. */
  lemma NameIsRead(c: Client, f: Field, t: Bytes, i: nat, log: seq<Event>)
    requires R.Accepting(c) && FrameOk(f) && SyntaxOk(f.value)
    requires Occurs(NameSpelling(f), t, i) && Occurs(Spelling(f.value), t, i + |NameSpelling(f)|)
    ensures SkipSpace(t, i) == i + |f.before| < |t| && Peek(t, i + |f.before|) == QUOTE
    ensures ParseName(c, t, i + |f.before|, log) == Ok(i + |NameSpelling(f)|, log + [Key(S.MeaningOf(f.name))])
  {
    hide ParseString, SkipSpace, Spelling, StringSpelling, NameSpelling, SyntaxOk, S.AllOk, S.MeaningOf, Occurs, Peek;
    var name, named, colon := NameStands(f, t, i);
    StringIsRead(c, f.name, t, name, true, log);
    WhiteIsSkipped(f.before, t, i);
    OccursAt([COLON], t, colon, 0);
    WhiteIsSkipped(f.afterName, t, named);
    SpellingStarts(f.value);
    OccursAt(Spelling(f.value), t, colon + 1 + |f.beforeValue|, 0);
    WhiteIsSkipped(f.beforeValue, t, colon + 1);
  }

  lemma FrameIsWhite(f: Field)
    requires FrameOk(f)
    ensures S.AllOk(f.name) && AllWhite(f.beforeValue) && AllWhite(f.after)
  {
  }

  lemma {:induction false} FieldsAreRead(c: Client, fields: seq<Field>, t: Bytes, i: nat, count: nat, log: seq<Event>)
    requires R.Accepting(c) && FieldsOk(fields) && fields != [] && NoFieldTooBig(c, fields)
    requires Occurs(FieldsSpelling(fields) + [RIGHT_BRACE], t, i)
    ensures SkipSpace(t, i) <= |t| && Peek(t, SkipSpace(t, i)) != RIGHT_BRACE
    ensures ParseMembers(c, t, SkipSpace(t, i), count, log)
         == Ok(i + |FieldsSpelling(fields)| + 1, log + FieldsEvents(fields) + [EndObject(count + |fields|)])
    decreases fields
  {
    hide ParseMembers, ParseMemberValue, ParseName, ParseValue, SkipSpace, FieldsSpelling, Spelling, NameSpelling;
    hide Events, SyntaxOk, NoneTooBig, S.MeaningOf, FrameOk, Occurs, Peek, Emit, FieldsEvents;
    var f := fields[0];
    FrameIsWhite(f);
    var named := log + [Key(S.MeaningOf(f.name))];
    var next := named + Events(f.value);
    var value, at, k := FieldsStand(fields, t, i);
    OccursAt(FieldsRest(fields), t, k, 0);
    NameIsRead(c, f, t, i, log);
    MembersByName(c, t, i + |f.before|, count, log);
    ValueIsRead(c, [], f.value, f.after, FieldsRest(fields)[0], t, value, named) by { NothingOccurs(t, value); }
    MemberValueByRound(c, t, value, count, named);
    FieldsEventsSplit(fields, log, next);
    if |fields| > 1 {
      OccursSplit([COMMA], FieldsSpelling(fields[1..]) + [RIGHT_BRACE], t, k);
      FieldsAreRead(c, fields[1..], t, k + 1, count + 1, next);
    } else {
      Accepted(c, next, EndObject(count + 1), k + 1);
    }
  }

  lemma NothingOccurs(t: Bytes, i: nat)
    requires i <= |t|
    ensures Occurs([], t, i)
  {
  }

  // ---------------------------------------------------------------- and nothing else is

  lemma Sent(c: Client, log: seq<Event>, e: Event, at: nat)
    requires Emit(c, log, e, at).Ok?
    ensures Emit(c, log, e, at) == Ok(at, log + [e])
  {
  }

  lemma OneStands(c: byte, t: Bytes, i: nat)
    requires i < |t| && Peek(t, i) == c
    ensures Occurs([c], t, i)
  {
  }

  /** The string at a quote. */
  lemma StringOfRead(c: Client, t: Bytes, i: nat, isKey: bool, log: seq<Event>) returns (parts: seq<S.Part>)
    requires i < |t| && Peek(t, i) == QUOTE && ParseString(c, t, i, isKey, log).Ok?
    ensures S.AllOk(parts) && Occurs(StringSpelling(parts), t, i)
    ensures ParseString(c, t, i, isKey, log)
         == Ok(i + |StringSpelling(parts)|,
               log + [if isKey then Key(S.MeaningOf(parts)) else String(S.MeaningOf(parts))])
  {
    hide JsonString.DecodeString, S.SpellingOf, S.MeaningOf, S.AllOk;
    parts := S.DecodedIsString(t, i + 1);
    var w := S.SpellingOf(parts);
    OneStands(QUOTE, t, i);
    OccursJoined([QUOTE], w + [QUOTE], t, i);
    hide Occurs;
    Associate([QUOTE], w, [QUOTE]);
    Sent(c, log, if isKey then Key(S.MeaningOf(parts)) else String(S.MeaningOf(parts)), i + |w| + 2);
  }

  /** A syntax tree that a value was read from. */
  predicate IsReadFrom(c: Client, s: Syntax, t: Bytes, i: nat, log: seq<Event>)
    requires i <= |t|
  {
    && SyntaxOk(s) && NoneTooBig(c, s)
    && Occurs(Spelling(s), t, i) && MayFollow(s, Peek(t, i + |Spelling(s)|))
    && ParseValue(c, t, i, log) == Ok(i + |Spelling(s)|, log + Events(s))
  }

  lemma WordOfRead(c: Client, s: Syntax, word: Bytes, e: Event, t: Bytes, i: nat, log: seq<Event>)
    requires i <= |t| && (s.NullText? || s.TrueText? || s.FalseText?) && Spelling(s) == word && Events(s) == [e]
    requires |word| > 0 && ParseWord(c, t, i, word, e, log).Ok?
    requires ParseValue(c, t, i, log) == ParseWord(c, t, i, word, e, log)
    ensures IsReadFrom(c, s, t, i, log)
  {
    hide ParseValue, Spelling, Events;
    Sent(c, log, e, i + |word|);
  }

  lemma ScalarOfRead(c: Client, t: Bytes, i: nat, log: seq<Event>) returns (s: Syntax)
    requires i <= |t| && ParseValue(c, t, i, log).Ok?
    requires Peek(t, i) != LEFT_BRACKET && Peek(t, i) != LEFT_BRACE
    ensures IsReadFrom(c, s, t, i, log)
  {
    hide ParseWord, ParseString, JsonNumber.ParseNumber, Occurs;
    var ch := Peek(t, i);
    if ch == NULL_WORD[0] {
      s := NullText;
      WordOfRead(c, s, NULL_WORD, Null, t, i, log);
    } else if ch == TRUE_WORD[0] {
      s := TrueText;
      WordOfRead(c, s, TRUE_WORD, Bool(true), t, i, log);
    } else if ch == FALSE_WORD[0] {
      s := FalseText;
      WordOfRead(c, s, FALSE_WORD, Bool(false), t, i, log);
    } else if ch == QUOTE {
      hide StringSpelling;
      var parts := StringOfRead(c, t, i, false, log);
      s := StringText(parts);
    } else {
      s := NumberOfRead(c, t, i, log);
    }
  }

  lemma NumberOfRead(c: Client, t: Bytes, i: nat, log: seq<Event>) returns (s: Syntax)
    requires i <= |t| && JsonNumber.ParseNumber(c, t, i, log).Ok?
    requires ParseValue(c, t, i, log) == JsonNumber.ParseNumber(c, t, i, log)
    ensures IsReadFrom(c, s, t, i, log)
  {
    hide JsonNumber.ParseNumber, ParseValue, Occurs, N.Spelling, N.EventOf, N.AllDigits, N.MayFollow;
    var n := N.ReadIsNumber(c, t, i, log);
    s := NumberText(n);
    Sent(c, log, N.EventOf(n), i + |N.Spelling(n)|);
  }

  /** Main result: whatever is read as a value is a text of the grammar, and its events are reported. */
  lemma {:induction false} SyntaxOfRead(c: Client, t: Bytes, i: nat, log: seq<Event>) returns (s: Syntax)
    requires i <= |t| && ParseValue(c, t, i, log).Ok?
    ensures IsReadFrom(c, s, t, i, log)
    decreases |t| - i, 2
  {
    hide ParseValue, IsReadFrom;
    if Peek(t, i) == LEFT_BRACKET {
      s := ArrayOfRead(c, t, i, log);
    } else if Peek(t, i) == LEFT_BRACE {
      s := ObjectOfRead(c, t, i, log);
    } else {
      s := ScalarOfRead(c, t, i, log);
    }
  }

  lemma {:induction false} ArrayOfRead(c: Client, t: Bytes, i: nat, log: seq<Event>) returns (s: Syntax)
    requires i <= |t| && ParseValue(c, t, i, log).Ok? && Peek(t, i) == LEFT_BRACKET
    ensures IsReadFrom(c, s, t, i, log)
    decreases |t| - i, 1
  {
    hide ParseElements, SkipSpace, ItemsSpelling, ItemsEvents, ItemsOk, NoItemTooBig, Occurs, Events, Emit;
    hide Spelling, IsReadFrom;
    var begun := log + [StartArray];
    Sent(c, log, StartArray, i + 1);
    OneStands(LEFT_BRACKET, t, i);
    var j := SkipSpace(t, i + 1);
    if Peek(t, j) == RIGHT_BRACKET {
      var space := SkippedIsWhite(t, i + 1);
      s := ArrayText(space, []);
      NoItems(c);
      Sent(c, begun, EndArray(0), j + 1);
      ThreeJoined(LEFT_BRACKET, space, RIGHT_BRACKET, t, i);
      ArrayEvents(s, log);
      BracketsAreReadFrom(c, s, LEFT_BRACKET, space, RIGHT_BRACKET, t, i, log);
    } else {
      var items := ItemsOfRead(c, t, i + 1, 0, begun);
      var inner := ItemsSpelling(items);
      s := ArrayText([], items);
      OccursJoined([LEFT_BRACKET], inner + [RIGHT_BRACKET], t, i);
      Associate([LEFT_BRACKET], inner, [RIGHT_BRACKET]);
      ArrayEvents(s, log);
      BracketsAreReadFrom(c, s, LEFT_BRACKET, inner, RIGHT_BRACKET, t, i, log);
    }
  }

  /** An array or an object whose text was read. */
  lemma BracketsAreReadFrom(c: Client, s: Syntax, open: byte, inner: Bytes, close: byte, t: Bytes, i: nat,
                            log: seq<Event>)
    requires i <= |t| && SyntaxOk(s) && NoneTooBig(c, s)
    requires s.ArrayText? || s.ObjectText?
    requires s.ArrayText? ==>
               open == LEFT_BRACKET && close == RIGHT_BRACKET
               && inner == if s.items == [] then s.space else ItemsSpelling(s.items)
    requires s.ObjectText? ==>
               open == LEFT_BRACE && close == RIGHT_BRACE
               && inner == if s.fields == [] then s.space else FieldsSpelling(s.fields)
    requires Occurs([open] + inner + [close], t, i)
    requires ParseValue(c, t, i, log) == Ok(i + 1 + |inner| + 1, log + Events(s))
    ensures IsReadFrom(c, s, t, i, log)
  {
    hide ParseValue, Events, ItemsSpelling, FieldsSpelling, Occurs, SyntaxOk, NoneTooBig;
  }

  lemma NoItems(c: Client)
    ensures ItemsOk([]) && NoItemTooBig(c, []) && FieldsOk([]) && NoFieldTooBig(c, [])
  {
  }

  lemma ThreeJoined(open: byte, w: Bytes, close: byte, t: Bytes, i: nat)
    requires Occurs([open], t, i) && Occurs(w, t, i + 1) && i + 1 + |w| < |t| && Peek(t, i + 1 + |w|) == close
    ensures Occurs([open] + w + [close], t, i)
  {
    OneStands(close, t, i + 1 + |w|);
    hide Occurs;
    OccursJoined([open], w, t, i);
    OccursJoined([open] + w, [close], t, i);
  }

  lemma FourJoined(a: Bytes, b: Bytes, c: Bytes, d: Bytes, t: Bytes, i: nat)
    requires Occurs(a, t, i) && Occurs(b, t, i + |a|) && Occurs(c, t, i + |a| + |b|)
    requires Occurs(d, t, i + |a| + |b| + |c|)
    ensures Occurs(a + b + c + d, t, i)
  {
    hide Occurs;
    OccursJoined(a, b, t, i);
    OccursJoined(a + b, c, t, i);
    OccursJoined(a + b + c, d, t, i);
  }

  /** The elements from position `i` on, the white space before the first one included. */
  lemma {:induction false} ItemsOfRead(c: Client, t: Bytes, i: nat, count: nat, log: seq<Event>)
    returns (items: seq<Item>)
    requires i <= |t| && ParseElements(c, t, SkipSpace(t, i), count, log).Ok?
    ensures ItemsOk(items) && items != [] && NoItemTooBig(c, items)
    ensures Occurs(ItemsSpelling(items) + [RIGHT_BRACKET], t, i)
    ensures ParseElements(c, t, SkipSpace(t, i), count, log)
         == Ok(i + |ItemsSpelling(items)| + 1, log + ItemsEvents(items) + [EndArray(count + |items|)])
    decreases |t| - i, 3
  {
    hide ParseElements, ParseValue, SkipSpace, ItemsSpelling, Spelling, Events, SyntaxOk, NoneTooBig, MayFollow;
    hide Occurs, Emit, ItemsEvents;
    var j := SkipSpace(t, i);
    ElementsByRound(c, t, j, count, log);
    var before := SkippedIsWhite(t, i);
    var s := SyntaxOfRead(c, t, j, log);
    var v := ParseValue(c, t, j, log);
    var after := SkippedIsWhite(t, v.at);
    var k := SkipSpace(t, v.at);
    hide Peek;
    var first := Item(before, s, after);
    if Peek(t, k) == COMMA {
      InsideText(COMMA, t, k);
      var rest := ItemsOfRead(c, t, k + 1, count + 1, v.log);
      items := [first] + rest;
      assert items[1..] == rest;
      OneStands(COMMA, t, k);
      OccursJoined([COMMA], ItemsSpelling(rest) + [RIGHT_BRACKET], t, k);
    } else {
      InsideText(RIGHT_BRACKET, t, k);
      items := [first];
      NoItems(c);
      OneStands(RIGHT_BRACKET, t, k);
      Sent(c, v.log, EndArray(count + 1), k + 1);
    }
    FourJoined(before, Spelling(s), after, Rest(items), t, i);
    ItemsSplit(items);
    ItemsEventsSplit(items, log);
  }

  lemma InsideText(c: byte, t: Bytes, i: nat)
    requires Peek(t, i) == c && c != 0
    ensures i < |t|
  {
  }

  lemma {:induction false} ObjectOfRead(c: Client, t: Bytes, i: nat, log: seq<Event>) returns (s: Syntax)
    requires i <= |t| && ParseValue(c, t, i, log).Ok? && Peek(t, i) == LEFT_BRACE
    ensures IsReadFrom(c, s, t, i, log)
    decreases |t| - i, 1
  {
    hide ParseMembers, SkipSpace, FieldsSpelling, FieldsEvents, FieldsOk, NoFieldTooBig, Occurs, Events, Emit;
    hide Spelling, IsReadFrom;
    var begun := log + [StartObject];
    Sent(c, log, StartObject, i + 1);
    OneStands(LEFT_BRACE, t, i);
    var j := SkipSpace(t, i + 1);
    if Peek(t, j) == RIGHT_BRACE {
      var space := SkippedIsWhite(t, i + 1);
      s := ObjectText(space, []);
      NoItems(c);
      Sent(c, begun, EndObject(0), j + 1);
      ThreeJoined(LEFT_BRACE, space, RIGHT_BRACE, t, i);
      ObjectEvents(s, log);
      BracketsAreReadFrom(c, s, LEFT_BRACE, space, RIGHT_BRACE, t, i, log);
    } else {
      var fields := FieldsOfRead(c, t, i + 1, 0, begun);
      var inner := FieldsSpelling(fields);
      s := ObjectText([], fields);
      OccursJoined([LEFT_BRACE], inner + [RIGHT_BRACE], t, i);
      Associate([LEFT_BRACE], inner, [RIGHT_BRACE]);
      ObjectEvents(s, log);
      BracketsAreReadFrom(c, s, LEFT_BRACE, inner, RIGHT_BRACE, t, i, log);
    }
  }

  /** A member name with the white space before it, and the colon and white space behind it. */
  lemma NameOfRead(c: Client, t: Bytes, i: nat, log: seq<Event>)
    returns (before: Bytes, name: seq<S.Part>, afterName: Bytes, beforeValue: Bytes, spelling: Bytes)
    requires i <= |t| && ParseName(c, t, SkipSpace(t, i), log).Ok?
    ensures AllWhite(before) && S.AllOk(name) && AllWhite(afterName) && AllWhite(beforeValue)
    ensures spelling == before + StringSpelling(name) + afterName + [COLON] + beforeValue && Occurs(spelling, t, i)
    ensures ParseName(c, t, SkipSpace(t, i), log) == Ok(i + |spelling|, log + [Key(S.MeaningOf(name))])
  {
    hide ParseString, SkipSpace, StringSpelling, S.MeaningOf, S.AllOk, Occurs;
    var j := SkipSpace(t, i);
    before := SkippedIsWhite(t, i);
    InsideText(QUOTE, t, j);
    name := StringOfRead(c, t, j, true, log);
    var at := j + |StringSpelling(name)|;
    afterName := SkippedIsWhite(t, at);
    var colon := SkipSpace(t, at);
    InsideText(COLON, t, colon);
    OneStands(COLON, t, colon);
    beforeValue := SkippedIsWhite(t, colon + 1);
    spelling := before + StringSpelling(name) + afterName + [COLON] + beforeValue;
    FourJoined(before, StringSpelling(name), afterName, [COLON], t, i);
    OccursJoined(before + StringSpelling(name) + afterName + [COLON], beforeValue, t, i);
  }

  /** One member from position `i` on, and what is made of the character behind it. */
  lemma {:induction false} FieldOfRead(c: Client, t: Bytes, i: nat, count: nat, log: seq<Event>)
    returns (f: Field, w: Bytes, k: nat, next: seq<Event>)
    requires i <= |t| && ParseMembers(c, t, SkipSpace(t, i), count, log).Ok?
    ensures FrameOk(f) && SyntaxOk(f.value) && NoneTooBig(c, f.value)
    ensures w == NameSpelling(f) + Spelling(f.value) + f.after && Occurs(w, t, i) && i < k == i + |w| <= |t|
    ensures next == log + [Key(S.MeaningOf(f.name))] + Events(f.value)
    ensures ParseMembers(c, t, SkipSpace(t, i), count, log)
         == if Peek(t, k) == COMMA && k < |t| then ParseMembers(c, t, SkipSpace(t, k + 1), count + 1, next)
            else if Peek(t, k) == RIGHT_BRACE then Emit(c, next, EndObject(count + 1), k + 1)
            else Failed(next)
    decreases |t| - i, 3, 0
  {
    hide ParseMembers, ParseMemberValue, ParseName, ParseValue, SkipSpace, Spelling, StringSpelling, NameSpelling;
    hide Events, SyntaxOk, NoneTooBig, MayFollow, S.MeaningOf, S.AllOk, AllWhite, Occurs, Emit;
    var j := SkipSpace(t, i);
    MembersByName(c, t, j, count, log);
    var before, name, afterName, beforeValue, spelling := NameOfRead(c, t, i, log);
    var named := ParseName(c, t, j, log);
    MemberValueByRound(c, t, named.at, count, named.log);
    var s := SyntaxOfRead(c, t, named.at, named.log);
    var v := ParseValue(c, t, named.at, named.log);
    var after := SkippedIsWhite(t, v.at);
    k, next := SkipSpace(t, v.at), v.log;
    if Peek(t, k) == COMMA {
      InsideText(COMMA, t, k);
    }
    hide Peek;
    f := Field(before, name, afterName, beforeValue, s, after);
    NameIsSpelled(f, spelling);
    w := spelling + Spelling(s) + after;
    ThreeParts(spelling, Spelling(s), after, t, i);
  }

  /** The members from position `i` on, the white space before the first one included. */
  lemma {:induction false} FieldsOfRead(c: Client, t: Bytes, i: nat, count: nat, log: seq<Event>)
    returns (fields: seq<Field>)
    requires i <= |t| && ParseMembers(c, t, SkipSpace(t, i), count, log).Ok?
    ensures FieldsOk(fields) && fields != [] && NoFieldTooBig(c, fields)
    ensures Occurs(FieldsSpelling(fields) + [RIGHT_BRACE], t, i)
    ensures ParseMembers(c, t, SkipSpace(t, i), count, log)
         == Ok(i + |FieldsSpelling(fields)| + 1, log + FieldsEvents(fields) + [EndObject(count + |fields|)])
    decreases |t| - i, 3, 1
  {
    hide ParseMembers, SkipSpace, FieldsSpelling, Spelling, NameSpelling, Events, SyntaxOk, NoneTooBig;
    hide S.MeaningOf, FrameOk, Occurs, Emit, FieldsEvents, FieldsOk, NoFieldTooBig, FieldsRest, Peek;
    var first, w, k, next := FieldOfRead(c, t, i, count, log);
    if Peek(t, k) == COMMA {
      InsideText(COMMA, t, k);
      var rest := FieldsOfRead(c, t, k + 1, count + 1, next);
      fields := [first] + rest;
      assert fields[1..] == rest;
      FieldsBegun(c, first, rest);
      OneStands(COMMA, t, k);
      OccursJoined([COMMA], FieldsSpelling(rest) + [RIGHT_BRACE], t, k);
    } else {
      InsideText(RIGHT_BRACE, t, k);
      fields := [first];
      assert [first] + [] == [first];
      NoItems(c);
      FieldsBegun(c, first, []);
      OneStands(RIGHT_BRACE, t, k);
      Sent(c, next, EndObject(count + 1), k + 1);
    }
    OccursJoined(w, FieldsRest(fields), t, i);
    FieldsSplit(fields);
    FieldsEventsSplit(fields, log, next);
  }

  lemma FieldsBegun(c: Client, f: Field, rest: seq<Field>)
    requires FrameOk(f) && SyntaxOk(f.value) && NoneTooBig(c, f.value) && FieldsOk(rest) && NoFieldTooBig(c, rest)
    ensures FieldsOk([f] + rest) && NoFieldTooBig(c, [f] + rest)
    ensures rest == [] ==> FieldsRest([f] + rest) == [RIGHT_BRACE]
    ensures rest != [] ==> FieldsRest([f] + rest) == [COMMA] + (FieldsSpelling(rest) + [RIGHT_BRACE])
  {
    hide FrameOk, SyntaxOk, NoneTooBig, FieldsSpelling;
    assert ([f] + rest)[1..] == rest;
  }

  lemma ThreeParts(a: Bytes, b: Bytes, c: Bytes, t: Bytes, i: nat)
    requires Occurs(a, t, i) && Occurs(b, t, i + |a|) && Occurs(c, t, i + |a| + |b|)
    ensures Occurs(a + b + c, t, i)
  {
    hide Occurs;
    OccursJoined(a, b, t, i);
    OccursJoined(a + b, c, t, i);
  }

  lemma NameIsSpelled(f: Field, spelling: Bytes)
    requires spelling == f.before + StringSpelling(f.name) + f.afterName + [COLON] + f.beforeValue
    ensures NameSpelling(f) == spelling
  {
  }

  // ---------------------------------------------------------------- whole texts

  /** `t`, up to its end or the first NUL, is one value between white space. */
  predicate IsText(t: Bytes, before: Bytes, s: Syntax, after: Bytes) {
    && AllWhite(before) && SyntaxOk(s) && AllWhite(after)
    && Occurs(before + Spelling(s) + after, t, 0) && Peek(t, |before + Spelling(s) + after|) == 0
  }

  /** Main result: every text of the grammar is accepted, and its events are reported. */
  lemma TextIsAccepted(c: Client, t: Bytes, before: Bytes, s: Syntax, after: Bytes)
    requires R.Accepting(c) && IsText(t, before, s, after) && NoneTooBig(c, s)
    ensures Parse(c, t) == Ok(|before + Spelling(s) + after|, Events(s))
  {
    hide ParseValue, Spelling, Events, NoneTooBig, SyntaxOk, MayFollow, SkipSpace, Occurs;
    var j := |before|;
    var at := |before + Spelling(s)|;
    OccursSplit(before + Spelling(s), after, t, 0);
    OccursSplit(before, Spelling(s), t, 0);
    SpellingStarts(s);
    OccursAt(Spelling(s), t, j, 0);
    WhiteIsSkipped(before, t, 0);
    if after != [] {
      OccursAt(after, t, at, 0);
    }
    EndMayFollow(s, Peek(t, at));
    InBounds(Spelling(s), t, j);
    SyntaxIsRead(c, s, t, j, []);
    WhiteIsSkipped(after, t, at);
    assert [] + Events(s) == Events(s);
  }

  /** Main result: nothing else is accepted. */
  lemma AcceptedIsText(c: Client, t: Bytes) returns (before: Bytes, s: Syntax, after: Bytes)
    requires Parse(c, t).Ok?
    ensures IsText(t, before, s, after) && NoneTooBig(c, s)
    ensures Parse(c, t) == Ok(|before + Spelling(s) + after|, Events(s))
  {
    hide ParseValue, Spelling, Events, NoneTooBig, SyntaxOk, MayFollow, SkipSpace, Occurs;
    var i := SkipSpace(t, 0);
    before := SkippedIsWhite(t, 0);
    s := SyntaxOfRead(c, t, i, []);
    var at := i + |Spelling(s)|;
    InBounds(Spelling(s), t, i);
    after := SkippedIsWhite(t, at);
    ThreeParts(before, Spelling(s), after, t, 0);
    assert [] + Events(s) == Events(s);
  }
}

/**
 * What the texts of the grammar mean: the handler builds the tree that a syntax tree stands for, and of all texts
 * that stand for a tree the compact UTF-8 one is the shortest.
 */
module TextMeaning {
  import opened JsonText
  import opened JsonEvents
  import opened JsonDocument
  import opened TextGrammar
  import opened JsonWriter
  import S = StringGrammar
  import N = NumberGrammar
  import R = JsonRoundTrip
  import RecursiveParser
  import IterativeParser
  import JsonNumber
  import JsonString

  lemma {:induction false} NumberIsRebuilt(n: N.Number, stack: seq<Value>)
    requires N.NumberOk(n)
    ensures Rebuild(stack, Events(NumberText(n))) == Values(stack + [Meaning(NumberText(n))])
  {
    hide Rebuild, N.Spelling, N.AllDigits, N.IntegerValue;
    StartsWith(stack, N.EventOf(n), []);
    NothingRebuilt(stack + [Meaning(NumberText(n))]);
    assert [N.EventOf(n)] + [] == [N.EventOf(n)];
  }

  lemma NothingRebuilt(stack: seq<Value>)
    ensures Rebuild(stack, []) == Values(stack)
  {
  }

  /** Main result: from the events of a syntax tree the handler pushes the tree that it stands for, on any stack. */
  lemma {:induction false} MeaningIsRebuilt(s: Syntax, stack: seq<Value>)
    requires SyntaxOk(s)
    ensures Rebuild(stack, Events(s)) == Values(stack + [Meaning(s)])
    decreases s, 1
  {
    hide Rebuild, ItemsEvents, FieldsEvents, ItemsMeaning, FieldsMeaning, ItemsOk, FieldsOk, S.MeaningOf, S.AllOk;
    match s
    case NumberText(n) =>
      NumberIsRebuilt(n, stack);
    case ArrayText(_, items) =>
      ItemsAreRebuilt(items, stack + [ArrayValue([])]);
      ArrayIsClosed(stack, ItemsMeaning(items), ItemsEvents(items));
    case ObjectText(_, fields) =>
      FieldsAreRebuilt(fields, stack + [ObjectValue([])]);
      ObjectIsClosed(stack, FieldsMeaning(fields), FieldsEvents(fields));
    case _ =>
      StartsWith(stack, Events(s)[0], []);
  }

  lemma {:induction false} ItemsAreRebuilt(items: seq<Item>, stack: seq<Value>)
    requires ItemsOk(items)
    ensures Rebuild(stack, ItemsEvents(items)) == Values(stack + ItemsMeaning(items))
    decreases items
  {
    hide Rebuild, Events, Meaning, SyntaxOk, AllWhite;
    if items == [] {
      NothingRebuilt(stack);
      assert stack + [] == stack;
    } else {
      var x, rest := items[0].value, items[1..];
      MeaningIsRebuilt(x, stack);
      var next := stack + [Meaning(x)];
      ItemsAreRebuilt(rest, next);
      RebuildThrough(stack, Events(x), ItemsEvents(rest), next, next + ItemsMeaning(rest));
      assert next + ItemsMeaning(rest) == stack + ([Meaning(x)] + ItemsMeaning(rest));
    }
  }

  lemma {:induction false} PairedFirst(m: Member, ms: seq<Member>)
    ensures Paired([m] + ms) == [StringValue(m.name), m.value] + Paired(ms)
    decreases |ms|
  {
    if ms == [] {
      assert [m] + ms == [m];
      assert [m][..0] == [];
    } else {
      var front := ms[..|ms| - 1];
      assert ([m] + ms)[..|ms|] == [m] + front;
      PairedFirst(m, front);
    }
  }

  lemma {:induction false} FieldsAreRebuilt(fields: seq<Field>, stack: seq<Value>)
    requires FieldsOk(fields)
    ensures Rebuild(stack, FieldsEvents(fields)) == Values(stack + Paired(FieldsMeaning(fields)))
    decreases fields
  {
    hide Rebuild, Events, Meaning, SyntaxOk, AllWhite, Paired, S.MeaningOf, S.AllOk;
    if fields == [] {
      NothingRebuilt(stack);
      assert Paired([]) == [];
      assert stack + [] == stack;
    } else {
      var f, rest := fields[0], fields[1..];
      var name := S.MeaningOf(f.name);
      var named, full := stack + [StringValue(name)], stack + [StringValue(name)] + [Meaning(f.value)];
      var pairs := Paired(FieldsMeaning(rest));
      PairedFirst(Member(name, Meaning(f.value)), FieldsMeaning(rest));
      KeyIsPushed(stack, name);
      MeaningIsRebuilt(f.value, named);
      RebuildThrough(stack, [Key(name)], Events(f.value), named, full);
      FieldsAreRebuilt(rest, full);
      RebuildThrough(stack, [Key(name)] + Events(f.value), FieldsEvents(rest), full, full + pairs);
      PairPushed(stack, StringValue(name), Meaning(f.value), pairs);
    }
  }

  lemma KeyIsPushed(stack: seq<Value>, name: Bytes)
    ensures Rebuild(stack, [Key(name)]) == Values(stack + [StringValue(name)])
  {
    StartsWith(stack, Key(name), []);
  }

  lemma PairPushed(stack: seq<Value>, a: Value, b: Value, rest: seq<Value>)
    ensures stack + [a] + [b] + rest == stack + ([a, b] + rest)
  {
  }

  /**
   * Main result: either parser accepts every text of the grammar, and the handler that listened to it ends with the
   * tree that the text stands for alone on its stack.
   */
  lemma TextIsUnderstood(c: Client, t: Bytes, before: Bytes, s: Syntax, after: Bytes)
    requires R.Accepting(c) && IsText(t, before, s, after) && NoneTooBig(c, s)
    ensures IterativeParser.IterativeParse(c, t) == RecursiveParser.Parse(c, t)
    ensures RecursiveParser.Parse(c, t).Ok? && Rebuild([], RecursiveParser.Parse(c, t).log) == Values([Meaning(s)])
  {
    hide RecursiveParser.Parse, IterativeParser.IterativeParse, Rebuild, Meaning, Events, IsText, NoneTooBig;
    assert SyntaxOk(s) by { TextHasSyntax(t, before, s, after); }
    hide SyntaxOk;
    TextIsAccepted(c, t, before, s, after);
    IterativeParser.ParsersAgree(c, t);
    MeaningIsRebuilt(s, []);
    assert [] + [Meaning(s)] == [Meaning(s)];
  }

  lemma TextHasSyntax(t: Bytes, before: Bytes, s: Syntax, after: Bytes)
    requires IsText(t, before, s, after)
    ensures SyntaxOk(s)
  {
  }

  // ---------------------------------------------------------------- the compact text is the shortest

  const COMPACT: Style := Style(Compact, JsonString.ToUtf8)

  /** Digits without a leading zero are the numeral of their value. */
  lemma {:induction false} NumeralOfDecimal(w: Bytes)
    requires w != [] && N.AllDigits(w) && (w[0] == N.ZERO ==> |w| == 1)
    ensures JsonNumber.Numeral(N.Decimal(w)) == w
    decreases |w|
  {
    var front := w[..|w| - 1];
    if |w| == 1 {
      assert N.Decimal(front) == 0;
      assert w == [w[0]];
    } else {
      assert front[0] == w[0];
      NumeralOfDecimal(front);
      NextDigit(N.Decimal(front), w[|w| - 1]);
      assert w == front + [w[|w| - 1]];
    }
  }

  lemma NextDigit(v: nat, c: byte)
    requires N.IsDigit(c) && v > 0
    ensures JsonNumber.Numeral(10 * v + (c as int - '0' as int)) == JsonNumber.Numeral(v) + [c]
  {
    assert (10 * v + (c as int - '0' as int)) / 10 == v;
  }

  lemma IntegerIsShortest(n: N.Number)
    requires N.NumberOk(n) && N.IsInteger(n)
    ensures |JsonNumber.Signed(N.IntegerValue(n))| <= |N.Spelling(n)|
  {
    NumeralOfDecimal(n.whole);
    hide N.Decimal, N.Spelling;
    N.LengthOf(n);
  }

  lemma StringIsShortest(parts: seq<S.Part>)
    requires S.AllOk(parts)
    ensures |QuotedText(S.MeaningOf(parts), JsonString.ToUtf8)| <= |StringSpelling(parts)|
  {
    hide S.MeaningOf, S.SpellingOf, S.AllOk, S.Printed, JsonString.EscapeFrom;
    var w := S.MeaningOf(parts);
    S.PrintedIsShortest(parts);
    S.PrintedIsEscaped(w, 0);
    assert w[0..] == w;
  }

  /** No text that stands for a tree is shorter than the compact one. */
  lemma {:induction false} ValueIsShortest(s: Syntax, depth: nat)
    requires SyntaxOk(s)
    ensures |Text(Meaning(s), COMPACT, depth)| <= |Spelling(s)|
    decreases s, 1
  {
    hide ItemsSpelling, FieldsSpelling, ItemsOk, FieldsOk, ElementsText, MembersText, S.AllOk, S.MeaningOf;
    hide QuotedText, StringSpelling, N.NumberOk, N.Spelling, JsonNumber.Signed;
    match s
    case NumberText(n) =>
      assert N.NumberOk(n);
      NumberIsShortest(n, depth);
    case StringText(parts) =>
      StringIsShortest(parts);
    case ArrayText(_, items) =>
      var v := Meaning(s);
      if items == [] {
        ArrayEnds(v, COMPACT, depth);
      } else {
        assert v.elements[0..] == ItemsMeaning(items);
        ItemsAreShortest(items, v, 0, depth);
      }
    case ObjectText(_, fields) =>
      var v := Meaning(s);
      if fields == [] {
        ObjectEnds(v, COMPACT, depth);
      } else {
        assert v.members[0..] == FieldsMeaning(fields);
        FieldsAreShortest(fields, v, 0, depth);
      }
    case _ =>
  }

  lemma NumberIsShortest(n: N.Number, depth: nat)
    requires N.NumberOk(n)
    ensures |Text(Meaning(NumberText(n)), COMPACT, depth)| <= |N.Spelling(n)|
  {
    hide N.Spelling, JsonNumber.Signed, N.IntegerValue;
    if N.IsInteger(n) {
      IntegerIsShortest(n);
    }
  }

  lemma {:induction false} ItemsAreShortest(items: seq<Item>, v: Value, k: nat, depth: nat)
    requires ItemsOk(items) && items != [] && v.ArrayValue? && k < |v.elements|
    requires v.elements[k..] == ItemsMeaning(items)
    ensures |ElementsText(v, k, COMPACT, depth)| <= (if k == 0 then 0 else 1) + |ItemsSpelling(items)| + 1
    decreases items
  {
    hide Text, Meaning, Spelling, SyntaxOk, AllWhite, ElementsText, ItemsSpelling;
    var x, rest := items[0].value, items[1..];
    ItemsLength(items);
    assert v.elements[k] == v.elements[k..][0] == Meaning(x);
    ValueIsShortest(x, depth + 1);
    R.ElementsTextUnfolds(v, k, COMPACT, depth);
    if rest == [] {
      assert |v.elements[k..]| == 1;
      LastElement(v, depth);
    } else {
      assert v.elements[k + 1..] == v.elements[k..][1..] == ItemsMeaning(rest);
      ItemsAreShortest(rest, v, k + 1, depth);
    }
  }

  lemma {:induction false} ItemsLength(items: seq<Item>)
    requires items != []
    ensures |ItemsSpelling(items)| >= |Spelling(items[0].value)|
    ensures |items| > 1 ==> |ItemsSpelling(items)| >= |Spelling(items[0].value)| + 1 + |ItemsSpelling(items[1..])|
  {
    hide Spelling;
  }

  lemma LastElement(v: Value, depth: nat)
    requires v.ArrayValue?
    ensures |ElementsText(v, |v.elements|, COMPACT, depth)| == 1
  {
  }

  lemma {:induction false} FieldsAreShortest(fields: seq<Field>, v: Value, k: nat, depth: nat)
    requires FieldsOk(fields) && fields != [] && v.ObjectValue? && k < |v.members|
    requires v.members[k..] == FieldsMeaning(fields)
    ensures |MembersText(v, k, COMPACT, depth)| <= (if k == 0 then 0 else 1) + |FieldsSpelling(fields)| + 1
    decreases fields
  {
    hide Text, Meaning, Spelling, SyntaxOk, AllWhite, MembersText, FieldsSpelling, S.MeaningOf, S.AllOk, NameText;
    var f, rest := fields[0], fields[1..];
    FieldsLength(fields);
    assert v.members[k] == v.members[k..][0] == Member(S.MeaningOf(f.name), Meaning(f.value));
    NameIsShortest(f);
    ValueIsShortest(f.value, depth + 1);
    R.MembersTextUnfolds(v, k, COMPACT, depth);
    if rest == [] {
      assert |v.members[k..]| == 1;
      LastMember(v, depth);
    } else {
      assert v.members[k + 1..] == v.members[k..][1..] == FieldsMeaning(rest);
      FieldsAreShortest(rest, v, k + 1, depth);
    }
  }

  lemma NameIsShortest(f: Field)
    requires S.AllOk(f.name)
    ensures |NameText(S.MeaningOf(f.name), COMPACT)| <= |NameSpelling(f)|
  {
    hide S.MeaningOf, S.AllOk, QuotedText, StringSpelling;
    StringIsShortest(f.name);
  }

  lemma {:induction false} FieldsLength(fields: seq<Field>)
    requires fields != []
    ensures |FieldsSpelling(fields)| >= |NameSpelling(fields[0])| + |Spelling(fields[0].value)|
    ensures |fields| > 1 ==>
              |FieldsSpelling(fields)|
                >= |NameSpelling(fields[0])| + |Spelling(fields[0].value)| + 1 + |FieldsSpelling(fields[1..])|
  {
    hide Spelling, NameSpelling;
  }

  lemma LastMember(v: Value, depth: nat)
    requires v.ObjectValue?
    ensures |MembersText(v, |v.members|, COMPACT, depth)| == 1
  {
  }

  /** Main result: no accepted text is shorter than the compact UTF-8 text of its tree. */
  lemma CompactIsShortest(c: Client, t: Bytes, v: Value)
    requires RecursiveParser.Parse(c, t).Ok? && Rebuild([], RecursiveParser.Parse(c, t).log) == Values([v])
    ensures |Text(v, COMPACT, 0)| <= |t|
  {
    hide RecursiveParser.Parse, Rebuild, Meaning, Events, NoneTooBig, Text, Spelling, Occurs, SyntaxOk;
    var before, s, after := AcceptedIsText(c, t);
    MeaningIsRebuilt(s, []);
    assert ([] + [Meaning(s)])[0] == Meaning(s);
    ValueIsShortest(s, 0);
    InBounds(before + Spelling(s) + after, t, 0);
  }
}
