/**
 * Printing and then parsing gives the tree back: RFC 8259 sections 2 and 7, for the printer of
 * JsonWriter and the parsers of RecursiveParser and IterativeParser.
 */
module JsonRoundTrip {
  import opened JsonText
  import opened JsonEvents
  import opened JsonDocument
  import opened RecursiveParser
  import opened JsonNumber
  import opened JsonString
  import opened JsonWriter
  import IterativeParser
  import JsonReader

  // ---------------------------------------------------------------- white space between tokens

  predicate AllSpace(w: Bytes) {
    forall k :: 0 <= k < |w| ==> IsSpace(w[k])
  }

  lemma {:induction false} SkipGap(t: Bytes, i: nat, gap: Bytes)
    requires AllSpace(gap) && Occurs(gap, t, i) && !IsSpace(Peek(t, i + |gap|))
    ensures SkipSpace(t, i) == i + |gap|
    decreases |gap|
  {
    if gap != [] {
      OccursAt(gap, t, i, 0);
      OccursSplit(gap[..1], gap[1..], t, i) by { assert gap == gap[..1] + gap[1..]; }
      SkipGap(t, i + 1, gap[1..]);
    }
  }

  lemma GapsAreSpace(layout: Layout, depth: nat, flag: bool)
    requires IndentIsSpace(layout)
    ensures AllSpace(ElementGap(layout, depth, flag)) && AllSpace(ArrayEndGap(layout, depth, flag))
    ensures AllSpace(MemberGap(layout, depth)) && AllSpace(ColonGap(layout))
      && AllSpace(ObjectEndGap(layout, depth, flag))
  {
  }

  // ---------------------------------------------------------------- first characters

  /** A character a value can start with. */
  predicate StartsValue(c: byte) {
    || c == QUOTE || c == LEFT_BRACKET || c == LEFT_BRACE
    || c == NULL_WORD[0] || c == TRUE_WORD[0] || c == FALSE_WORD[0]
    || c == MINUS || IsDigit(c)
  }

  predicate IsWritable(v: Value, target: Target) {
    Exact(v) && Encodable(v, target)
  }

  lemma TextStartsValue(v: Value, style: Style, depth: nat)
    requires IsWritable(v, style.target)
    ensures |Text(v, style, depth)| > 0 && StartsValue(Text(v, style, depth)[0])
  {
    hide EscapeFrom, ElementsText, MembersText, Numeral;
  }

  lemma NextElementStart(v: Value, k: nat, style: Style, depth: nat)
    requires v.ArrayValue? && 0 < k <= |v.elements|
    requires IndentIsSpace(style.layout)
    ensures var w := ElementsText(v, k, style, depth);
            |w| > 0 && EndsNumber(w[0]) && (k < |v.elements| ==> w[0] == COMMA)
  {
    hide Text;
    if k == |v.elements| {
      GapsAreSpace(style.layout, depth, false);
    }
  }

  lemma NextMemberStart(v: Value, k: nat, style: Style, depth: nat)
    requires v.ObjectValue? && 0 < k <= |v.members|
    requires IndentIsSpace(style.layout)
    ensures var w := MembersText(v, k, style, depth);
            |w| > 0 && EndsNumber(w[0]) && (k < |v.members| ==> w[0] == COMMA)
  {
    hide Text, NameText;
    if k == |v.members| {
      GapsAreSpace(style.layout, depth, false);
    }
  }

  lemma ElementIsWritable(v: Value, k: nat, target: Target)
    requires v.ArrayValue? && k < |v.elements| && IsWritable(v, target)
    ensures IsWritable(v.elements[k], target)
  {
    if !Encodable(v.elements[k], target) {
      ElementMissing(v, k, target);
    }
  }

  lemma MemberIsWritable(v: Value, k: nat, target: Target)
    requires v.ObjectValue? && k < |v.members| && IsWritable(v, target)
    ensures Quoted(v.members[k].name, target).Written? && IsWritable(v.members[k].value, target)
  {
    if !(Quoted(v.members[k].name, target).Written? && Encodable(v.members[k].value, target)) {
      MemberMissing(v, k, target);
    }
  }

  // ---------------------------------------------------------------- reading the text of a tree

  ghost predicate Accepting(c: Client) {
    forall log: seq<Event> :: c.accepts(log)
  }

  lemma WordIsRead(c: Client, t: Bytes, i: nat, word: Bytes, e: Event, log: seq<Event>)
    requires Accepting(c) && |word| > 0 && Occurs(word, t, i)
    ensures ParseWord(c, t, i, word, e, log) == Ok(i + |word|, log + [e])
  {
  }

  lemma QuotedIsRead(c: Client, t: Bytes, i: nat, s: Bytes, isKey: bool, target: Target, log: seq<Event>)
    requires Accepting(c) && Quoted(s, target).Written? && Occurs(QuotedText(s, target), t, i)
    ensures i < |t| && Peek(t, i) == QUOTE
    ensures ParseString(c, t, i, isKey, log)
         == Ok(i + |QuotedText(s, target)|, log + [if isKey then Key(s) else String(s)])
  {
    hide DecodeString, EscapeFrom;
    var tail := EscapeFrom(s, 0, target).bytes;
    OccursSplit([QUOTE], tail, t, i);
    OccursAt([QUOTE], t, i, 0);
    WrittenStringIsRead(s, 0, target, t, i + 1);
  }

  /** A scalar reads back, wherever it stands. */
  lemma ScalarIsRead(c: Client, v: Value, style: Style, depth: nat, t: Bytes, i: nat, log: seq<Event>)
    requires Accepting(c) && IsWritable(v, style.target) && !v.ArrayValue? && !v.ObjectValue?
    requires Occurs(Text(v, style, depth), t, i) && EndsNumber(Peek(t, i + |Text(v, style, depth)|))
    ensures ParseValue(c, t, i, log) == Ok(i + |Text(v, style, depth)|, log + Report(v, Reported))
  {
    hide DecodeString, EscapeFrom, Numeral, Quoted, ParseNumber;
    var w := Text(v, style, depth);
    match v
    case NullValue =>
      OccursAt(w, t, i, 0);
      WordIsRead(c, t, i, w, Null, log);
    case BoolValue(b) =>
      OccursAt(w, t, i, 0);
      WordIsRead(c, t, i, w, Bool(b), log);
    case IntegerValue(n) =>
      PrintedIntegerIsRead(c, n, t, i, log);
    case StringValue(s) =>
      QuotedIsRead(c, t, i, s, false, style.target, log);
  }

  /** Main result: the text of a tree reads back as the events of the tree, wherever it stands. */
  lemma {:induction false} TextIsRead(c: Client, v: Value, style: Style, depth: nat, t: Bytes, i: nat, log: seq<Event>)
    requires Accepting(c) && IndentIsSpace(style.layout) && IsWritable(v, style.target)
    requires Occurs(Text(v, style, depth), t, i) && EndsNumber(Peek(t, i + |Text(v, style, depth)|))
    ensures ParseValue(c, t, i, log) == Ok(i + |Text(v, style, depth)|, log + Report(v, Reported))
    decreases v, Width(v) + 1
  {
    hide ParseValue, Text, Report;
    match v
    case ArrayValue(_) =>
      ArrayIsRead(c, v, style, depth, t, i, log);
    case ObjectValue(_) =>
      ObjectIsRead(c, v, style, depth, t, i, log);
    case _ =>
      ScalarIsRead(c, v, style, depth, t, i, log);
  }

  lemma {:induction false} ArrayIsRead(c: Client, v: Value, style: Style, depth: nat, t: Bytes, i: nat, log: seq<Event>)
    requires Accepting(c) && IndentIsSpace(style.layout) && IsWritable(v, style.target) && v.ArrayValue?
    requires Occurs(Text(v, style, depth), t, i)
    ensures ParseValue(c, t, i, log) == Ok(i + |Text(v, style, depth)|, log + Report(v, Reported))
    decreases v, Width(v), 2
  {
    hide ParseElements, ElementsText, ReportElements, IsWritable, Reported, IndentIsSpace, Occurs;
    var n, rest := |v.elements|, ElementsText(v, 0, style, depth);
    OccursSplit([LEFT_BRACKET], rest, t, i);
    OccursAt([LEFT_BRACKET], t, i, 0);
    var begun := log + [StartArray];
    if n == 0 {
      ArrayEnds(v, style, depth);
      assert rest == [RIGHT_BRACKET];
      OccursAt(rest, t, i + 1, 0);
      EmptyReport(v);
    } else {
      var j := ElementGapIsRead(v, 0, style, depth, t, i + 1);
      ElementsAreRead(c, v, 0, style, depth, t, j, begun);
      EmptyReport(v);
      assert begun + [] == begun;
      Enclosed(log, StartArray, ReportElements(v, n, Reported), EndArray(n));
    }
  }

  lemma Enclosed(log: seq<Event>, start: Event, es: seq<Event>, end: Event)
    ensures log + ([start] + es + [end]) == log + [start] + es + [end]
  {
  }

  lemma EmptyReport(v: Value)
    ensures v.ArrayValue? ==> ReportElements(v, 0, Reported) == []
    ensures v.ObjectValue? ==> ReportMembers(v, 0, Reported) == []
  {
  }

  /** A comma, or none, and white space before `rest`. */
  lemma SeparatorIsRead(first: bool, gap: Bytes, rest: Bytes, t: Bytes, i: nat) returns (j: nat)
    requires Occurs(CommaUnlessFirst(first) + (gap + rest), t, i)
    requires AllSpace(gap) && |rest| > 0 && !IsSpace(rest[0])
    ensures !first ==> Peek(t, i) == COMMA && i + 1 <= |t|
    ensures i <= |t| && j == SkipSpace(t, if first then i else i + 1)
    ensures Occurs(rest, t, j) && Peek(t, j) == rest[0]
    ensures j + |rest| == i + |CommaUnlessFirst(first) + (gap + rest)|
  {
    var comma := CommaUnlessFirst(first);
    OccursSplit(comma, gap + rest, t, i);
    OccursSplit(gap, rest, t, i + |comma|);
    if !first {
      OccursAt(comma, t, i, 0);
    }
    j := i + |comma| + |gap|;
    OccursAt(rest, t, j, 0);
    SkipGap(t, i + |comma|, gap);
  }

  /** An element and the elements after it. */
  function ElementText(v: Value, k: nat, style: Style, depth: nat): Bytes
    requires v.ArrayValue? && k < |v.elements|
  {
    Text(v.elements[k], style, depth + 1) + ElementsText(v, k + 1, style, depth)
  }

  lemma ElementTextStarts(v: Value, k: nat, style: Style, depth: nat)
    requires v.ArrayValue? && k < |v.elements| && IsWritable(v, style.target)
    ensures var rest := ElementText(v, k, style, depth);
            |rest| > 0 && StartsValue(rest[0]) &&
            ElementsText(v, k, style, depth)
              == CommaUnlessFirst(k == 0) + (ElementGap(style.layout, depth + 1, k == 0) + rest)
  {
    hide Text, ElementsText, ElementGap, IsWritable;
    ElementIsWritable(v, k, style.target);
    TextStartsValue(v.elements[k], style, depth + 1);
    ElementsTextUnfolds(v, k, style, depth);
    GroupRight(CommaUnlessFirst(k == 0), ElementGap(style.layout, depth + 1, k == 0),
               Text(v.elements[k], style, depth + 1), ElementsText(v, k + 1, style, depth));
  }

  lemma ElementsTextUnfolds(v: Value, k: nat, style: Style, depth: nat)
    requires v.ArrayValue? && k < |v.elements|
    ensures ElementsText(v, k, style, depth)
         == CommaUnlessFirst(k == 0) + ElementGap(style.layout, depth + 1, k == 0)
            + Text(v.elements[k], style, depth + 1) + ElementsText(v, k + 1, style, depth)
  {
    hide Text, ElementGap;
  }

  lemma GroupRight(a: Bytes, b: Bytes, c: Bytes, d: Bytes)
    ensures a + b + c + d == a + (b + (c + d))
  {
  }

  /** The separator before element `k`: after the comma, white space up to the element. */
  lemma ElementGapIsRead(v: Value, k: nat, style: Style, depth: nat, t: Bytes, i: nat) returns (j: nat)
    requires IndentIsSpace(style.layout) && v.ArrayValue? && k < |v.elements|
    requires IsWritable(v, style.target)
    requires Occurs(ElementsText(v, k, style, depth), t, i)
    ensures k > 0 ==> Peek(t, i) == COMMA && i + 1 <= |t|
    ensures i <= |t| && j == SkipSpace(t, if k == 0 then i else i + 1)
    ensures Occurs(ElementText(v, k, style, depth), t, j)
    ensures j + |ElementText(v, k, style, depth)| == i + |ElementsText(v, k, style, depth)|
    ensures StartsValue(Peek(t, j))
  {
    hide IsWritable, ElementGap, ElementsText;
    ElementTextStarts(v, k, style, depth);
    GapsAreSpace(style.layout, depth + 1, k == 0);
    hide ElementText;
    var gap, rest := ElementGap(style.layout, depth + 1, k == 0), ElementText(v, k, style, depth);
    j := SeparatorIsRead(k == 0, gap, rest, t, i);
  }

  /** The end of an array after its last element. */
  lemma ArrayEndIsRead(v: Value, style: Style, depth: nat, t: Bytes, i: nat) returns (j: nat)
    requires IndentIsSpace(style.layout) && v.ArrayValue?
    requires Occurs(ElementsText(v, |v.elements|, style, depth), t, i)
    ensures i <= |t| && j == SkipSpace(t, i) && Peek(t, j) == RIGHT_BRACKET
    ensures j + 1 == i + |ElementsText(v, |v.elements|, style, depth)|
  {
    var gap := ArrayEndGap(style.layout, depth, |v.elements| == 0);
    OccursSplit(gap, [RIGHT_BRACKET], t, i);
    j := i + |gap|;
    OccursAt([RIGHT_BRACKET], t, j, 0);
    GapsAreSpace(style.layout, depth, |v.elements| == 0);
    SkipGap(t, i, gap);
  }

  lemma {:induction false} ElementsAreRead(c: Client, v: Value, k: nat, style: Style, depth: nat, t: Bytes,
                                           i: nat, base: seq<Event>)
    requires Accepting(c) && IndentIsSpace(style.layout) && IsWritable(v, style.target)
    requires v.ArrayValue? && k < |v.elements|
    requires Occurs(ElementText(v, k, style, depth), t, i)
    ensures var n := |v.elements|;
            ParseElements(c, t, i, k, base + ReportElements(v, k, Reported)) ==
            Ok(i + |ElementText(v, k, style, depth)|, base + ReportElements(v, n, Reported) + [EndArray(n)])
    decreases v, |v.elements| - k, 0
  {
    hide ParseElements, ParseValue, Text, ElementsText, Report, ReportElements, IsWritable, Reported;
    var n, x, rest := |v.elements|, Text(v.elements[k], style, depth + 1), ElementsText(v, k + 1, style, depth);
    var log := base + ReportElements(v, k, Reported);
    OccursSplit(x, rest, t, i);
    NextElementStart(v, k + 1, style, depth);
    OccursAt(rest, t, i + |x|, 0);
    ElementIsWritable(v, k, style.target);
    TextIsRead(c, v.elements[k], style, depth + 1, t, i, log);
    ElementsByRound(c, t, i, k, log);
    NextReport(v, k, base);
    if k + 1 < n {
      var j := ElementGapIsRead(v, k + 1, style, depth, t, i + |x|);
      ElementsAreRead(c, v, k + 1, style, depth, t, j, base);
    } else {
      var j := ArrayEndIsRead(v, style, depth, t, i + |x|);
    }
  }

  lemma NextReport(v: Value, k: nat, base: seq<Event>)
    requires v.ArrayValue? && k < |v.elements|
    ensures base + ReportElements(v, k, Reported) + Report(v.elements[k], Reported)
         == base + ReportElements(v, k + 1, Reported)
  {
    hide Report;
  }

  // ---------------------------------------------------------------- objects

  lemma {:induction false} ObjectIsRead(c: Client, v: Value, style: Style, depth: nat, t: Bytes, i: nat,
                                        log: seq<Event>)
    requires Accepting(c) && IndentIsSpace(style.layout) && IsWritable(v, style.target) && v.ObjectValue?
    requires Occurs(Text(v, style, depth), t, i)
    ensures ParseValue(c, t, i, log) == Ok(i + |Text(v, style, depth)|, log + Report(v, Reported))
    decreases v, Width(v), 2
  {
    hide ParseMembers, MembersText, ReportMembers, IsWritable, Reported;
    var n, rest := |v.members|, MembersText(v, 0, style, depth);
    OccursSplit([LEFT_BRACE], rest, t, i);
    OccursAt([LEFT_BRACE], t, i, 0);
    var begun := log + [StartObject];
    if n == 0 {
      ObjectEnds(v, style, depth);
      assert rest == [RIGHT_BRACE];
      OccursAt(rest, t, i + 1, 0);
      EmptyReport(v);
    } else {
      var j := MemberGapIsRead(v, 0, style, depth, t, i + 1);
      MembersAreRead(c, v, 0, style, depth, t, j, begun);
      EmptyReport(v);
      assert begun + [] == begun;
      Enclosed(log, StartObject, ReportMembers(v, n, Reported), EndObject(n));
    }
  }

  /** A member from its name on, and the members after it. */
  function MemberText(v: Value, k: nat, style: Style, depth: nat): Bytes
    requires v.ObjectValue? && k < |v.members|
  {
    NameText(v.members[k].name, style) + (Text(v.members[k].value, style, depth + 1)
      + MembersText(v, k + 1, style, depth))
  }

  lemma MemberGapIsRead(v: Value, k: nat, style: Style, depth: nat, t: Bytes, i: nat) returns (j: nat)
    requires IndentIsSpace(style.layout) && v.ObjectValue? && k < |v.members|
    requires IsWritable(v, style.target)
    requires Occurs(MembersText(v, k, style, depth), t, i)
    ensures k > 0 ==> Peek(t, i) == COMMA && i + 1 <= |t|
    ensures i <= |t| && j == SkipSpace(t, if k == 0 then i else i + 1)
    ensures Occurs(MemberText(v, k, style, depth), t, j)
    ensures j + |MemberText(v, k, style, depth)| == i + |MembersText(v, k, style, depth)|
    ensures Peek(t, j) == QUOTE
  {
    hide IsWritable, MemberGap, MembersText;
    MemberTextStarts(v, k, style, depth);
    GapsAreSpace(style.layout, depth + 1, k == 0);
    hide MemberText;
    j := SeparatorIsRead(k == 0, MemberGap(style.layout, depth + 1), MemberText(v, k, style, depth), t, i);
  }

  lemma MemberTextStarts(v: Value, k: nat, style: Style, depth: nat)
    requires v.ObjectValue? && k < |v.members| && IsWritable(v, style.target)
    ensures var rest := MemberText(v, k, style, depth);
            |rest| > 0 && rest[0] == QUOTE &&
            MembersText(v, k, style, depth) == CommaUnlessFirst(k == 0) + (MemberGap(style.layout, depth + 1) + rest)
  {
    hide Text, NameText, MembersText, MemberGap, IsWritable, Quoted;
    MemberIsWritable(v, k, style.target);
    NameStartsWithQuote(v.members[k].name, style);
    MembersTextUnfolds(v, k, style, depth);
    var name, x, rest := NameText(v.members[k].name, style), Text(v.members[k].value, style, depth + 1),
        MembersText(v, k + 1, style, depth);
    assert name + x + rest == name + (x + rest);
    GroupRight(CommaUnlessFirst(k == 0), MemberGap(style.layout, depth + 1), name, x + rest);
    GroupLast(CommaUnlessFirst(k == 0) + MemberGap(style.layout, depth + 1), name, x, rest);
  }

  lemma MembersTextUnfolds(v: Value, k: nat, style: Style, depth: nat)
    requires v.ObjectValue? && k < |v.members|
    ensures MembersText(v, k, style, depth)
         == CommaUnlessFirst(k == 0) + MemberGap(style.layout, depth + 1) + NameText(v.members[k].name, style)
            + Text(v.members[k].value, style, depth + 1) + MembersText(v, k + 1, style, depth)
  {
    hide Text, MemberGap, NameText;
  }

  lemma GroupLast(a: Bytes, b: Bytes, c: Bytes, d: Bytes)
    ensures a + b + c + d == a + b + (c + d)
  {
  }

  lemma NameStartsWithQuote(name: Bytes, style: Style)
    requires Quoted(name, style.target).Written?
    ensures |NameText(name, style)| > 0 && NameText(name, style)[0] == QUOTE
  {
    hide EscapeFrom;
  }

  /** A name, its colon and the white space after it lead to the value. */
  lemma NameIsRead(c: Client, name: Bytes, style: Style, t: Bytes, i: nat, log: seq<Event>)
    requires Accepting(c) && IndentIsSpace(style.layout) && Quoted(name, style.target).Written?
    requires Occurs(NameText(name, style), t, i) && !IsSpace(Peek(t, i + |NameText(name, style)|))
    ensures i <= |t| && ParseName(c, t, i, log) == Ok(i + |NameText(name, style)|, log + [Key(name)])
  {
    hide Quoted, QuotedText, DecodeString;
    var q, gap := QuotedText(name, style.target), ColonGap(style.layout);
    OccursSplit(q, [COLON] + gap, t, i);
    OccursSplit([COLON], gap, t, i + |q|);
    OccursAt([COLON], t, i + |q|, 0);
    QuotedIsRead(c, t, i, name, true, style.target, log);
    GapsAreSpace(style.layout, 0, false);
    SkipGap(t, i + |q| + 1, gap);
  }

  lemma ObjectEndIsRead(v: Value, style: Style, depth: nat, t: Bytes, i: nat) returns (j: nat)
    requires IndentIsSpace(style.layout) && v.ObjectValue?
    requires Occurs(MembersText(v, |v.members|, style, depth), t, i)
    ensures i <= |t| && j == SkipSpace(t, i) && Peek(t, j) == RIGHT_BRACE
    ensures j + 1 == i + |MembersText(v, |v.members|, style, depth)|
  {
    var gap := ObjectEndGap(style.layout, depth, |v.members| == 0);
    OccursSplit(gap, [RIGHT_BRACE], t, i);
    j := i + |gap|;
    OccursAt([RIGHT_BRACE], t, j, 0);
    GapsAreSpace(style.layout, depth, |v.members| == 0);
    SkipGap(t, i, gap);
  }

  lemma {:induction false} MembersAreRead(c: Client, v: Value, k: nat, style: Style, depth: nat, t: Bytes,
                                          i: nat, base: seq<Event>)
    requires Accepting(c) && IndentIsSpace(style.layout) && IsWritable(v, style.target)
    requires v.ObjectValue? && k < |v.members|
    requires Occurs(MemberText(v, k, style, depth), t, i)
    ensures var n := |v.members|;
            ParseMembers(c, t, i, k, base + ReportMembers(v, k, Reported)) ==
            Ok(i + |MemberText(v, k, style, depth)|, base + ReportMembers(v, n, Reported) + [EndObject(n)])
    decreases v, |v.members| - k, 1
  {
    hide ParseValue, ParseName, ParseMemberValue, IsWritable, Quoted, Reported, Text, NameText, MembersText,
         Report, ReportMembers;
    var m := v.members[k];
    var name, rest := NameText(m.name, style), Text(m.value, style, depth + 1) + MembersText(v, k + 1, style, depth);
    var log := base + ReportMembers(v, k, Reported);
    OccursSplit(name, rest, t, i);
    MemberIsWritable(v, k, style.target);
    TextStartsValue(m.value, style, depth + 1);
    OccursAt(rest, t, i + |name|, 0);
    NameIsRead(c, m.name, style, t, i, log);
    MemberValueIsRead(c, v, k, style, depth, t, i + |name|, base);
  }

  lemma {:induction false} MemberValueIsRead(c: Client, v: Value, k: nat, style: Style, depth: nat, t: Bytes,
                                             i: nat, base: seq<Event>)
    requires Accepting(c) && IndentIsSpace(style.layout) && IsWritable(v, style.target)
    requires v.ObjectValue? && k < |v.members|
    requires Occurs(Text(v.members[k].value, style, depth + 1) + MembersText(v, k + 1, style, depth), t, i)
    ensures var n, w := |v.members|, Text(v.members[k].value, style, depth + 1) + MembersText(v, k + 1, style, depth);
            ParseMemberValue(c, t, i, k, base + ReportMembers(v, k, Reported) + [Key(v.members[k].name)]) ==
            Ok(i + |w|, base + ReportMembers(v, n, Reported) + [EndObject(n)])
    decreases v, |v.members| - k, 0
  {
    hide ParseMemberValue, ParseMembers, ParseValue, Text, MembersText, Report, ReportMembers, IsWritable,
         Quoted, Reported;
    var n, x, rest := |v.members|, Text(v.members[k].value, style, depth + 1), MembersText(v, k + 1, style, depth);
    var log := base + ReportMembers(v, k, Reported) + [Key(v.members[k].name)];
    OccursSplit(x, rest, t, i);
    NextMemberStart(v, k + 1, style, depth);
    OccursAt(rest, t, i + |x|, 0);
    MemberIsWritable(v, k, style.target);
    TextIsRead(c, v.members[k].value, style, depth + 1, t, i, log);
    MemberValueByRound(c, t, i, k, log);
    NextMemberReport(v, k, base);
    if k + 1 < n {
      var j := MemberGapIsRead(v, k + 1, style, depth, t, i + |x|);
      MembersAreRead(c, v, k + 1, style, depth, t, j, base);
    } else {
      var j := ObjectEndIsRead(v, style, depth, t, i + |x|);
    }
  }

  lemma NextMemberReport(v: Value, k: nat, base: seq<Event>)
    requires v.ObjectValue? && k < |v.members|
    ensures base + ReportMembers(v, k, Reported) + [Key(v.members[k].name)] + Report(v.members[k].value, Reported)
         == base + ReportMembers(v, k + 1, Reported)
  {
    hide Report;
  }

  // ---------------------------------------------------------------- the round trip

  /**
   * Main result: for every tree without doubles whose strings the target can encode, either parser
   * accepts the printed text, compact or pretty, and the handler that listened to it ends with
   * exactly one value on its stack, the tree.
   */
  lemma PrintThenParse(c: Client, v: Value, style: Style)
    requires Accepting(c) && IndentIsSpace(style.layout) && IsWritable(v, style.target)
    ensures var r := Parse(c, Text(v, style, 0));
            && r.Ok?
            && IterativeParser.IterativeParse(c, Text(v, style, 0)) == r
            && Rebuild([], r.log) == Values([v])
  {
    hide Parse, Text, IterativeParser.IterativeParse, IsWritable;
    PrintedTextIsAccepted(c, v, style);
    IterativeParser.ParsersAgree(c, Text(v, style, 0));
    ReportedTreeIsRebuilt(v);
  }

  lemma PrintedTextIsAccepted(c: Client, v: Value, style: Style)
    requires Accepting(c) && IndentIsSpace(style.layout) && IsWritable(v, style.target)
    ensures Parse(c, Text(v, style, 0)) == Ok(|Text(v, style, 0)|, Report(v, Reported))
  {
    hide ParseValue, IsWritable;
    TextStartsValue(v, style, 0);
    hide Text, Report;
    var t := Text(v, style, 0);
    assert t[0..|t|] == t;
    TextIsRead(c, v, style, 0, t, 0, []);
    assert [] + Report(v, Reported) == Report(v, Reported);
  }

  lemma ReportedTreeIsRebuilt(v: Value)
    ensures Rebuild([], Report(v, Reported)) == Values([v])
  {
    forall n: int ensures Faithful(Reported(n), n) { }
    TreeIsRebuilt(v, Reported, []);
  }

  /** A client that listens to everything. */
  predicate ListensOn(log: seq<Event>) { true }

  /**
   * The same through the objects: print the tree, parse the output by either parser, in place or not,
   * and let a document listen.
   */
  method PrintAndParse(v: Value, style: Style, tooBig: Bytes -> bool, iterative: bool, insitu: bool)
    returns (ok: bool, root: Value)
    requires Exact(v) && IndentIsSpace(style.layout)
    ensures ok <==> Encodable(v, style.target)
    ensures ok ==> root == v
  {
    hide Text, Encodable, Exact, RecursiveParser.Parse, Rebuild, IsReportOf;
    root := NullValue;
    var writer := new Writer(style);
    ok := writer.Accept(v);
    if ok {
      var client := Client(ListensOn, tooBig);
      assert writer.out == Text(v, style, 0);
      PrintThenParse(client, v, style);
      var text := writer.out;
      var buffer := new byte[|text|](k requires 0 <= k < |text| => text[k]);
      assert buffer[..] == text;
      var reader := new JsonReader.Reader(client, insitu, buffer);
      var accepted;
      if iterative {
        accepted := reader.IterativeParse();
      } else {
        accepted := reader.Parse();
      }
      assert accepted;
      JsonReader.HeldAreViews(buffer[..], reader.log, reader.events, reader.src);
      var heard := reader.Views();
      var document := new Document();
      document.ParseStream(heard, client, text);
      root := document.root;
    }
  }

  /** Every tree without doubles can be printed as UTF-8. */
  lemma {:induction false} Utf8PrintsEverything(v: Value)
    ensures Encodable(v, ToUtf8)
    decreases v, Width(v) + 1
  {
    match v
    case StringValue(s) =>
      Utf8OutputNeverFails(s, 0);
    case ArrayValue(elements) =>
      Utf8PrintsElements(v, |elements|);
    case ObjectValue(members) =>
      Utf8PrintsMembers(v, |members|);
    case _ =>
  }

  lemma {:induction false} Utf8PrintsElements(v: Value, k: nat)
    requires v.ArrayValue? && k <= |v.elements|
    ensures ElementsEncodable(v, k, ToUtf8)
    decreases v, k
  {
    if k > 0 {
      Utf8PrintsElements(v, k - 1);
      Utf8PrintsEverything(v.elements[k - 1]);
    }
  }

  lemma {:induction false} Utf8PrintsMembers(v: Value, k: nat)
    requires v.ObjectValue? && k <= |v.members|
    ensures MembersEncodable(v, k, ToUtf8)
    decreases v, k
  {
    if k > 0 {
      Utf8PrintsMembers(v, k - 1);
      Utf8OutputNeverFails(v.members[k - 1].name, 0);
      Utf8PrintsEverything(v.members[k - 1].value);
    }
  }
}
