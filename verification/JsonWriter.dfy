/**
 * The compact and the pretty printer (libs/rapidjson/rapidjson/writer.h:177-251, 314-490,
 * libs/rapidjson/rapidjson/prettywriter.h:94-255) as a class whose events append to an output buffer,
 * driven by the visitor of libs/rapidjson/rapidjson/document.h:1862-1899. One class models Writer and
 * PrettyWriter; the layout tells them apart.
 *
 * Main result: Accept writes exactly the text of a tree. Module JsonRoundTrip proves that a reader gets
 * from that text the events of the same tree (TextIsRead), so that the tree is rebuilt (PrintThenParse).
 */
module JsonWriter {
  import opened JsonText
  import opened JsonEvents
  import opened JsonDocument
  import opened RecursiveParser
  import opened JsonNumber
  import opened JsonString
  import Utf8

  datatype Layout =
    | Compact
    | Pretty(indent: byte, width: nat, singleLineArrays: bool)

  datatype Style = Style(layout: Layout, target: Target)

  /** SetIndent asserts that the indent character is white space. */
  predicate IndentIsSpace(layout: Layout) {
    layout.Pretty? ==> IsSpace(layout.indent)
  }

  // ---------------------------------------------------------------- the text of a tree

  const LINE_FEED: byte := 0x0A
  const SPACE: byte := 0x20

  function Copies(c: byte, n: nat): (w: Bytes)
    ensures |w| == n && forall k :: 0 <= k < n ==> w[k] == c
  {
    seq(n, _ => c)
  }

  function NewLine(layout: Layout, depth: nat): Bytes
    requires layout.Pretty?
  {
    [LINE_FEED] + Copies(layout.indent, depth * layout.width)
  }

  /** White space before an element. */
  function ElementGap(layout: Layout, depth: nat, first: bool): Bytes {
    if layout.Compact? then []
    else if !layout.singleLineArrays then NewLine(layout, depth)
    else if first then []
    else [SPACE]
  }

  /** White space before the bracket that closes an array. */
  function ArrayEndGap(layout: Layout, depth: nat, empty: bool): Bytes {
    if layout.Compact? || empty || layout.singleLineArrays then [] else NewLine(layout, depth)
  }

  /** White space before a member. */
  function MemberGap(layout: Layout, depth: nat): Bytes {
    if layout.Compact? then [] else NewLine(layout, depth)
  }

  /** White space between a colon and the value. */
  function ColonGap(layout: Layout): Bytes {
    if layout.Compact? then [] else [SPACE]
  }

  /** White space before the brace that closes an object. */
  function ObjectEndGap(layout: Layout, depth: nat, empty: bool): Bytes {
    if layout.Compact? || empty then [] else NewLine(layout, depth)
  }

  function CommaUnlessFirst(first: bool): Bytes {
    if first then [] else [COMMA]
  }

  function QuotedText(s: Bytes, target: Target): Bytes {
    var q := Quoted(s, target);
    if q.Written? then q.bytes else []
  }

  /** The text of a tree that stands `depth` levels deep. */
  function Text(v: Value, style: Style, depth: nat): Bytes
    decreases v, Width(v) + 1
  {
    match v
    case NullValue => NULL_WORD
    case BoolValue(b) => if b then TRUE_WORD else FALSE_WORD
    case IntegerValue(n) => Signed(n)
    case DoubleValue(lexeme) => lexeme
    case StringValue(s) => QuotedText(s, style.target)
    case ArrayValue(_) => [LEFT_BRACKET] + ElementsText(v, 0, style, depth)
    case ObjectValue(_) => [LEFT_BRACE] + MembersText(v, 0, style, depth)
  }

  /** The rest of an array from the separator before element `k` on. */
  function ElementsText(v: Value, k: nat, style: Style, depth: nat): Bytes
    requires v.ArrayValue? && k <= |v.elements|
    decreases v, |v.elements| - k
  {
    if k == |v.elements| then
      ArrayEndGap(style.layout, depth, k == 0) + [RIGHT_BRACKET]
    else
      CommaUnlessFirst(k == 0) + ElementGap(style.layout, depth + 1, k == 0)
      + Text(v.elements[k], style, depth + 1) + ElementsText(v, k + 1, style, depth)
  }

  /** The rest of an object from the separator before member `k` on. */
  function MembersText(v: Value, k: nat, style: Style, depth: nat): Bytes
    requires v.ObjectValue? && k <= |v.members|
    decreases v, |v.members| - k
  {
    if k == |v.members| then
      ObjectEndGap(style.layout, depth, k == 0) + [RIGHT_BRACE]
    else
      CommaUnlessFirst(k == 0) + MemberGap(style.layout, depth + 1) + NameText(v.members[k].name, style)
      + Text(v.members[k].value, style, depth + 1) + MembersText(v, k + 1, style, depth)
  }

  function NameText(name: Bytes, style: Style): Bytes {
    QuotedText(name, style.target) + ([COLON] + ColonGap(style.layout))
  }

  /** Every string of the tree can be encoded in the target. */
  predicate Encodable(v: Value, target: Target)
    decreases v, Width(v) + 1
  {
    match v
    case StringValue(s) => Quoted(s, target).Written?
    case ArrayValue(elements) => ElementsEncodable(v, |elements|, target)
    case ObjectValue(members) => MembersEncodable(v, |members|, target)
    case _ => true
  }

  predicate ElementsEncodable(v: Value, k: nat, target: Target)
    requires v.ArrayValue? && k <= |v.elements|
    decreases v, k
  {
    k == 0 || (ElementsEncodable(v, k - 1, target) && Encodable(v.elements[k - 1], target))
  }

  predicate MembersEncodable(v: Value, k: nat, target: Target)
    requires v.ObjectValue? && k <= |v.members|
    decreases v, k
  {
    k == 0 || (MembersEncodable(v, k - 1, target) && Quoted(v.members[k - 1].name, target).Written?
               && Encodable(v.members[k - 1].value, target))
  }

  /** Integers fit 64 bits, and there are no doubles. */
  predicate Exact(v: Value) {
    match v
    case IntegerValue(n) => -TWO_63 <= n < TWO_64
    case DoubleValue(_) => false
    case ArrayValue(elements) => forall k :: 0 <= k < |elements| ==> Exact(elements[k])
    case ObjectValue(members) => forall k :: 0 <= k < |members| ==> Exact(members[k].value)
    case _ => true
  }

  // ---------------------------------------------------------------- the writer

  datatype Level = Level(valueCount: nat, inArray: bool)

  /** What the prefix of a value writes, from the levels around it. */
  function Lead(layout: Layout, levels: seq<Level>): Bytes {
    if levels == [] then
      []
    else
      var top := levels[|levels| - 1];
      if top.inArray then
        CommaUnlessFirst(top.valueCount == 0) + ElementGap(layout, |levels|, top.valueCount == 0)
      else if top.valueCount % 2 == 0 then
        CommaUnlessFirst(top.valueCount == 0) + MemberGap(layout, |levels|)
      else
        [COLON] + ColonGap(layout)
  }

  /** The levels once one more value was begun. */
  function Counted(levels: seq<Level>): seq<Level> {
    if levels == [] then
      []
    else
      var top := levels[|levels| - 1];
      levels[..|levels| - 1] + [top.(valueCount := top.valueCount + 1)]
  }

  lemma CountedKeepsDepth(levels: seq<Level>, level: Level)
    ensures |Counted(levels)| == |levels|
    ensures Counted(levels + [level]) == levels + [level.(valueCount := level.valueCount + 1)]
  {
  }

  lemma ArrayStarts(v: Value, style: Style, out: Bytes, lead: Bytes, depth: nat)
    requires v.ArrayValue?
    ensures out + lead + [LEFT_BRACKET] + ElementsText(v, 0, style, depth) == out + lead + Text(v, style, depth)
  {
    hide ElementsText;
  }

  /** Writing element `k` behind its prefix leaves the text from the next element on to be written. */
  lemma ElementStep(v: Value, k: nat, style: Style, outer: seq<Level>, out: Bytes)
    requires v.ArrayValue? && k < |v.elements|
    ensures var levels, depth := outer + [Level(k, true)], |outer|;
            out + ElementsText(v, k, style, depth) ==
            out + Lead(style.layout, levels) + Text(v.elements[k], style, depth + 1)
              + ElementsText(v, k + 1, style, depth)
  {
    hide Text;
    var levels, depth := outer + [Level(k, true)], |outer|;
    var x, rest := Text(v.elements[k], style, depth + 1), ElementsText(v, k + 1, style, depth);
    assert ElementsText(v, k, style, depth) == Lead(style.layout, levels) + x + rest;
    Associate(out, Lead(style.layout, levels), x, rest);
  }

  lemma Associate(a: Bytes, b: Bytes, c: Bytes, d: Bytes)
    ensures a + b + c + d == a + (b + c + d)
  {
  }

  lemma Regroup(out: Bytes, a: Bytes, n: Bytes, b: Bytes, x: Bytes, rest: Bytes)
    ensures out + (a + (n + b) + x + rest) == out + a + n + b + x + rest
  {
    assert a + (n + b) == a + n + b;
    assert out + (a + n + b) == out + a + n + b;
    Associate(out, a + n + b, x, rest);
  }

  lemma ObjectStarts(v: Value, style: Style, out: Bytes, lead: Bytes, depth: nat)
    requires v.ObjectValue?
    ensures out + lead + [LEFT_BRACE] + MembersText(v, 0, style, depth) == out + lead + Text(v, style, depth)
  {
    hide MembersText;
  }

  lemma MemberLeads(layout: Layout, outer: seq<Level>, k: nat)
    ensures Lead(layout, outer + [Level(2 * k, false)]) == CommaUnlessFirst(k == 0) + MemberGap(layout, |outer| + 1)
    ensures Lead(layout, outer + [Level(2 * k + 1, false)]) == [COLON] + ColonGap(layout)
  {
    hide CommaUnlessFirst, MemberGap, ColonGap;
    assert 2 * k % 2 == 0 && (2 * k + 1) % 2 == 1;
  }

  /** The same for a member: its name and its value, each behind its prefix. */
  lemma MemberStep(v: Value, k: nat, style: Style, outer: seq<Level>, out: Bytes)
    requires v.ObjectValue? && k < |v.members|
    ensures var atName, atValue, depth := outer + [Level(2 * k, false)], outer + [Level(2 * k + 1, false)], |outer|;
            out + MembersText(v, k, style, depth) ==
            out + Lead(style.layout, atName) + QuotedText(v.members[k].name, style.target) +
            Lead(style.layout, atValue) + Text(v.members[k].value, style, depth + 1)
              + MembersText(v, k + 1, style, depth)
  {
    hide Text, QuotedText, Lead, CommaUnlessFirst, MemberGap, ColonGap;
    var atName, atValue, depth := outer + [Level(2 * k, false)], outer + [Level(2 * k + 1, false)], |outer|;
    var name := QuotedText(v.members[k].name, style.target);
    var x, rest := Text(v.members[k].value, style, depth + 1), MembersText(v, k + 1, style, depth);
    MemberLeads(style.layout, outer, k);
    assert MembersText(v, k, style, depth)
        == Lead(style.layout, atName) + (name + Lead(style.layout, atValue)) + x + rest;
    hide MembersText;
    Regroup(out, Lead(style.layout, atName), name, Lead(style.layout, atValue), x, rest);
  }

  /** What was written of a string and what remains to be written make up the quoted string. */
  ghost predicate OnTheWay(s: Bytes, at: nat, target: Target, out: Bytes, before: Bytes)
    requires at <= |s|
  {
    var rest, all := EscapeFrom(s, at, target), Quoted(s, target);
    && (rest.Written? <==> all.Written?)
    && (rest.Written? ==> out + rest.bytes == before + all.bytes)
  }

  lemma QuoteWritten(s: Bytes, target: Target, before: Bytes)
    ensures OnTheWay(s, 0, target, before + [QUOTE], before)
  {
    var rest := EscapeFrom(s, 0, target);
    if rest.Written? {
      assert before + [QUOTE] + rest.bytes == before + ([QUOTE] + rest.bytes);
    }
  }

  /** A round that writes what EscapeNext says stays on the way; one that is refused cannot succeed. */
  lemma RoundDone(s: Bytes, at: nat, target: Target, out: Bytes, before: Bytes)
    requires at < |s| && OnTheWay(s, at, target, out, before)
    ensures var e := EscapeNext(s, at, target);
            && (e.Escaped? ==> OnTheWay(s, e.next, target, out + e.text, before))
            && (e.Refused? ==> !Quoted(s, target).Written?)
  {
    hide EscapeNext;
    var e := EscapeNext(s, at, target);
    if e.Escaped? {
      EscapeByStep(s, at, target, e.text, e.next);
      var rest := EscapeFrom(s, e.next, target);
      if rest.Written? {
        assert out + e.text + rest.bytes == out + (e.text + rest.bytes);
      }
    }
  }

  class Writer {
    const style: Style
    var out: Bytes
    var levels: seq<Level>
    var hasRoot: bool

    constructor (style: Style)
      ensures this.style == style && out == [] && levels == [] && !hasRoot
    {
      this.style := style;
      out, levels, hasRoot := [], [], false;
    }

    /** The assertions of Prefix: one root, and names where an object expects them. */
    predicate MayBegin(isString: bool)
      reads this
    {
      if levels == [] then
        !hasRoot
      else
        var top := levels[|levels| - 1];
        top.inArray || top.valueCount % 2 == 1 || isString
    }

    /** `text` was written behind the prefix of a value. */
    twostate predicate Wrote(text: Bytes)
      reads this
    {
      && out == old(out) + Lead(style.layout, old(levels)) + text
      && levels == Counted(old(levels))
      && hasRoot == (old(hasRoot) || old(levels) == [])
    }

    method WriteIndent()
      requires style.layout.Pretty?
      modifies this`out
      ensures out == old(out) + Copies(style.layout.indent, |levels| * style.layout.width)
    {
      var count, k := |levels| * style.layout.width, 0;
      while k < count
        invariant k <= count && out == old(out) + Copies(style.layout.indent, k)
      {
        out := out + [style.layout.indent];
        k := k + 1;
      }
    }

    method Prefix(isString: bool)
      requires style.layout.Compact? && MayBegin(isString)
      modifies this
      ensures Wrote([])
    {
      if levels != [] {
        var top := levels[|levels| - 1];
        if top.valueCount > 0 {
          if top.inArray {
            out := out + [COMMA];
          } else {
            out := out + [if top.valueCount % 2 == 0 then COMMA else COLON];
          }
        }
        levels := levels[|levels| - 1 := top.(valueCount := top.valueCount + 1)];
      } else {
        hasRoot := true;
      }
    }

    /** What comes before an element of an array. */
    method ElementPrefix(valueCount: nat)
      requires style.layout.Pretty?
      modifies this`out
      ensures out == old(out) + CommaUnlessFirst(valueCount == 0) + ElementGap(style.layout, |levels|, valueCount == 0)
    {
      if valueCount > 0 {
        out := out + [COMMA];
        if style.layout.singleLineArrays {
          out := out + [SPACE];
        }
      }
      if !style.layout.singleLineArrays {
        out := out + [LINE_FEED];
        WriteIndent();
      }
    }

    /** What comes before the name or the value of a member. */
    method MemberPrefix(valueCount: nat)
      requires style.layout.Pretty?
      modifies this`out
      ensures out == old(out) +
        if valueCount % 2 == 0 then CommaUnlessFirst(valueCount == 0) + MemberGap(style.layout, |levels|)
        else [COLON] + ColonGap(style.layout)
    {
      if valueCount > 0 {
        if valueCount % 2 == 0 {
          out := out + [COMMA];
          out := out + [LINE_FEED];
        } else {
          out := out + [COLON];
          out := out + [SPACE];
        }
      } else {
        out := out + [LINE_FEED];
      }
      if valueCount % 2 == 0 {
        WriteIndent();
      }
    }

    method PrettyPrefix(isString: bool)
      requires style.layout.Pretty? && MayBegin(isString)
      modifies this
      ensures Wrote([])
    {
      hide ElementGap, MemberGap, ColonGap, CommaUnlessFirst;
      if levels != [] {
        var top := levels[|levels| - 1];
        if top.inArray {
          ElementPrefix(top.valueCount);
        } else {
          MemberPrefix(top.valueCount);
        }
        levels := levels[|levels| - 1 := top.(valueCount := top.valueCount + 1)];
      } else {
        hasRoot := true;
      }
    }

    method Begin(isString: bool)
      requires MayBegin(isString)
      modifies this
      ensures Wrote([])
    {
      if style.layout.Compact? {
        Prefix(isString);
      } else {
        PrettyPrefix(isString);
      }
    }

    method Null()
      requires MayBegin(false)
      modifies this
      ensures Wrote(NULL_WORD)
    {
      Begin(false);
      out := out + NULL_WORD;
    }

    method Bool(b: bool)
      requires MayBegin(false)
      modifies this
      ensures Wrote(if b then TRUE_WORD else FALSE_WORD)
    {
      Begin(false);
      out := out + if b then TRUE_WORD else FALSE_WORD;
    }

    /** Int, Uint, Int64 and Uint64: they differ in the range of `n` only. */
    method Integer(n: int)
      requires MayBegin(false)
      modifies this
      ensures Wrote(Signed(n))
    {
      hide Signed;
      Begin(false);
      out := out + Signed(n);
    }

    /** Fails exactly on a string that the target cannot encode. */
    method String(s: Bytes) returns (ok: bool)
      requires MayBegin(true)
      modifies this
      ensures ok <==> Quoted(s, style.target).Written?
      ensures ok ==> Wrote(QuotedText(s, style.target))
    {
      hide Quoted, QuotedText;
      Begin(true);
      ok := WriteString(s);
    }

    method WriteHex4(h: nat)
      requires h <= 0xFFFF
      modifies this`out
      ensures out == old(out) + EscapeUnit(h)
    {
      out := out + [BACKSLASH];
      out := out + [LETTER_U];
      out := out + [HexDigit(h / 4096)];
      out := out + [HexDigit(h / 256 % 16)];
      out := out + [HexDigit(h / 16 % 16)];
      out := out + [HexDigit(h % 16)];
    }

    /** One round of the escaping loop. */
    method WriteNext(input: Utf8.ByteStream) returns (ok: bool)
      requires input.at < |input.text|
      modifies this`out, input`at
      ensures var e := EscapeNext(input.text, old(input.at), style.target);
              && (ok <==> e.Escaped?)
              && (ok ==> out == old(out) + e.text && input.at == e.next)
    {
      var c := input.text[input.at];
      if style.target.ToAscii? && c >= 0x80 {
        ghost var at := input.at;
        var codepoint;
        ok, codepoint := input.Decode();
        if !ok { return; }
        Utf8Bound(input.text[at..input.at]);
        WritePoint(codepoint);
      } else if EscapeLetter(c) != 0 {
        c := input.Take();
        WriteEscape(c);
      } else {
        c := input.Take();
        out := out + [c];
      }
      ok := true;
    }

    method WriteString(s: Bytes) returns (ok: bool)
      modifies this`out
      ensures ok <==> Quoted(s, style.target).Written?
      ensures ok ==> out == old(out) + QuotedText(s, style.target)
    {
      hide EscapeNext;
      ghost var before := out;
      out := out + [QUOTE];
      var input := new Utf8.ByteStream(s, 0);
      QuoteWritten(s, style.target, before);
      while input.at < |s|
        invariant input.text == s && input.at <= |s|
        invariant fresh(input)
        invariant OnTheWay(s, input.at, style.target, out, before)
        decreases |s| - input.at
      {
        RoundDone(s, input.at, style.target, out, before);
        ok := WriteNext(input);
        if !ok { return; }
      }
      out := out + [QUOTE];
      ok := true;
    }

    method WritePoint(codepoint: nat)
      requires codepoint <= Utf8.LAST_CODE_POINT
      modifies this`out
      ensures out == old(out) + EscapePoint(codepoint)
    {
      if codepoint <= 0xFFFF {
        WriteHex4(codepoint);
      } else {
        var s := codepoint - 0x10000;
        WriteHex4(s / 1024 + 0xD800);
        WriteHex4(s % 1024 + 0xDC00);
      }
    }

    method WriteEscape(c: byte)
      requires EscapeLetter(c) != 0
      modifies this`out
      ensures out == old(out) + EscapeByte(c)
    {
      out := out + [BACKSLASH];
      out := out + [EscapeLetter(c)];
      if EscapeLetter(c) == LETTER_U {
        out := out + [0x30];
        out := out + [0x30];
        out := out + [HexDigit(c / 16)];
        out := out + [HexDigit(c % 16)];
      }
    }

    method StartArray()
      requires MayBegin(false)
      modifies this
      ensures out == old(out) + Lead(style.layout, old(levels)) + [LEFT_BRACKET]
      ensures levels == Counted(old(levels)) + [Level(0, true)]
      ensures hasRoot == (old(hasRoot) || old(levels) == [])
    {
      Begin(false);
      levels := levels + [Level(0, true)];
      out := out + [LEFT_BRACKET];
    }

    method EndArray()
      requires levels != [] && levels[|levels| - 1].inArray
      modifies this`out, this`levels
      ensures levels == old(levels)[..|old(levels)| - 1]
      ensures out == old(out)
        + ArrayEndGap(style.layout, |levels|, old(levels)[|levels|].valueCount == 0) + [RIGHT_BRACKET]
    {
      var empty := levels[|levels| - 1].valueCount == 0;
      levels := levels[..|levels| - 1];
      if style.layout.Pretty? && !empty && !style.layout.singleLineArrays {
        out := out + [LINE_FEED];
        WriteIndent();
      }
      out := out + [RIGHT_BRACKET];
    }

    method StartObject()
      requires MayBegin(false)
      modifies this
      ensures out == old(out) + Lead(style.layout, old(levels)) + [LEFT_BRACE]
      ensures levels == Counted(old(levels)) + [Level(0, false)]
      ensures hasRoot == (old(hasRoot) || old(levels) == [])
    {
      Begin(false);
      levels := levels + [Level(0, false)];
      out := out + [LEFT_BRACE];
    }

    method EndObject()
      requires levels != [] && !levels[|levels| - 1].inArray && levels[|levels| - 1].valueCount % 2 == 0
      modifies this`out, this`levels
      ensures levels == old(levels)[..|old(levels)| - 1]
      ensures out == old(out)
        + ObjectEndGap(style.layout, |levels|, old(levels)[|levels|].valueCount == 0) + [RIGHT_BRACE]
    {
      var empty := levels[|levels| - 1].valueCount == 0;
      levels := levels[..|levels| - 1];
      if style.layout.Pretty? && !empty {
        out := out + [LINE_FEED];
        WriteIndent();
      }
      out := out + [RIGHT_BRACE];
    }

    /** Main result: the visitor writes the text of the tree, or fails when a string is not encodable. */
    method Accept(v: Value) returns (ok: bool)
      requires MayBegin(false) && Exact(v)
      modifies this
      ensures ok <==> Encodable(v, style.target)
      ensures ok ==> Wrote(Text(v, style, |old(levels)|))
      decreases v, Width(v) + 1
    {
      match v {
        case NullValue =>
          Null();
          ok := true;
        case BoolValue(b) =>
          Bool(b);
          ok := true;
        case IntegerValue(n) =>
          Integer(n);
          ok := true;
        case StringValue(s) =>
          ok := String(s);
        case ArrayValue(elements) =>
          ok := AcceptArray(v);
        case ObjectValue(members) =>
          ok := AcceptObject(v);
      }
    }

    method AcceptArray(v: Value) returns (ok: bool)
      requires MayBegin(false) && Exact(v) && v.ArrayValue?
      modifies this
      ensures ok <==> Encodable(v, style.target)
      ensures ok ==> Wrote(Text(v, style, |old(levels)|))
      decreases v, Width(v)
    {
      hide Text, ElementsText, Lead, Counted, Encodable, ElementsEncodable, Exact;
      ElementsDecide(v, 0, style.target);
      ghost var depth := |levels|;
      ghost var all := out + Lead(style.layout, levels) + Text(v, style, depth);
      ArrayStarts(v, style, out, Lead(style.layout, levels), depth);
      StartArray();
      ghost var outer := Counted(old(levels));
      var k := 0;
      CountedKeepsDepth(old(levels), Level(0, true));
      while k < |v.elements|
        invariant k <= |v.elements| && |outer| == depth
        invariant levels == outer + [Level(k, true)]
        invariant hasRoot == (old(hasRoot) || old(levels) == [])
        invariant ElementsEncodable(v, k, style.target)
        invariant out + ElementsText(v, k, style, depth) == all
      {
        ElementStep(v, k, style, outer, out);
        CountedKeepsDepth(outer, Level(k, true));
        ElementIsExact(v, k);
        ok := Accept(v.elements[k]);
        if !ok {
          ElementMissing(v, k, style.target);
          return false;
        }
        ElementsDecide(v, k + 1, style.target);
        k := k + 1;
      }
      ArrayEnds(v, style, depth);
      EndArray();
      ok := true;
    }

    method AcceptMember(v: Value, k: nat, ghost outer: seq<Level>) returns (ok: bool)
      requires Exact(v) && v.ObjectValue? && k < |v.members|
      requires levels == outer + [Level(2 * k, false)]
      modifies this
      ensures ok <==> Quoted(v.members[k].name, style.target).Written? && Encodable(v.members[k].value, style.target)
      ensures ok ==> levels == outer + [Level(2 * k + 2, false)] && hasRoot == old(hasRoot)
      ensures ok ==>
        out == old(out) + Lead(style.layout, outer + [Level(2 * k, false)])
          + QuotedText(v.members[k].name, style.target)
               + Lead(style.layout, outer + [Level(2 * k + 1, false)]) + Text(v.members[k].value, style, |outer| + 1)
      decreases v, |v.members|, 0
    {
      hide Text, Lead, Counted, QuotedText, Quoted;
      CountedKeepsDepth(outer, Level(2 * k, false));
      CountedKeepsDepth(outer, Level(2 * k + 1, false));
      ok := String(v.members[k].name);
      if ok {
        ok := Accept(v.members[k].value);
      }
    }

    method AcceptObject(v: Value) returns (ok: bool)
      requires MayBegin(false) && Exact(v) && v.ObjectValue?
      modifies this
      ensures ok <==> Encodable(v, style.target)
      ensures ok ==> Wrote(Text(v, style, |old(levels)|))
      decreases v, Width(v)
    {
      hide Text, MembersText, Lead, Counted, QuotedText, Quoted, Encodable, MembersEncodable, Exact;
      MembersDecide(v, 0, style.target);
      ghost var depth := |levels|;
      ghost var all := out + Lead(style.layout, levels) + Text(v, style, depth);
      ObjectStarts(v, style, out, Lead(style.layout, levels), depth);
      StartObject();
      ghost var outer := Counted(old(levels));
      var k := 0;
      CountedKeepsDepth(old(levels), Level(0, false));
      while k < |v.members|
        invariant k <= |v.members| && |outer| == depth
        invariant levels == outer + [Level(2 * k, false)]
        invariant hasRoot == (old(hasRoot) || old(levels) == [])
        invariant MembersEncodable(v, k, style.target)
        invariant out + MembersText(v, k, style, depth) == all
      {
        MemberStep(v, k, style, outer, out);
        ok := AcceptMember(v, k, outer);
        if !ok {
          MemberMissing(v, k, style.target);
          return false;
        }
        MembersDecide(v, k + 1, style.target);
        k := k + 1;
      }
      ObjectEnds(v, style, depth);
      EndObject();
      ok := true;
    }
  }

  lemma ArrayEnds(v: Value, style: Style, depth: nat)
    requires v.ArrayValue?
    ensures ElementsText(v, |v.elements|, style, depth)
         == ArrayEndGap(style.layout, depth, |v.elements| == 0) + [RIGHT_BRACKET]
  {
  }

  lemma ObjectEnds(v: Value, style: Style, depth: nat)
    requires v.ObjectValue?
    ensures MembersText(v, |v.members|, style, depth)
         == ObjectEndGap(style.layout, depth, |v.members| == 0) + [RIGHT_BRACE]
  {
  }

  /** An array can be written exactly when all its elements can; none need to be looked at yet. */
  lemma ElementsDecide(v: Value, k: nat, target: Target)
    requires v.ArrayValue? && k <= |v.elements|
    ensures Encodable(v, target) == ElementsEncodable(v, |v.elements|, target)
    ensures ElementsEncodable(v, k, target)
         == (k == 0 || (ElementsEncodable(v, k - 1, target) && Encodable(v.elements[k - 1], target)))
  {
  }

  lemma ElementIsExact(v: Value, k: nat)
    requires v.ArrayValue? && k < |v.elements| && Exact(v)
    ensures Exact(v.elements[k])
  {
  }

  lemma MembersDecide(v: Value, k: nat, target: Target)
    requires v.ObjectValue? && k <= |v.members|
    ensures Encodable(v, target) == MembersEncodable(v, |v.members|, target)
    ensures MembersEncodable(v, k, target)
         == (k == 0 || (MembersEncodable(v, k - 1, target) && Quoted(v.members[k - 1].name, target).Written?
                        && Encodable(v.members[k - 1].value, target)))
  {
  }

  lemma {:induction false} ElementMissing(v: Value, k: nat, target: Target)
    requires v.ArrayValue? && k < |v.elements| && !Encodable(v.elements[k], target)
    ensures !Encodable(v, target)
  {
    MissingStays(v, k + 1, |v.elements|, target);
  }

  lemma {:induction false} MissingStays(v: Value, k: nat, n: nat, target: Target)
    requires v.ArrayValue? && k <= n <= |v.elements| && !ElementsEncodable(v, k, target)
    ensures !ElementsEncodable(v, n, target)
    decreases n - k
  {
    if k < n {
      MissingStays(v, k, n - 1, target);
    }
  }

  lemma {:induction false} MemberMissing(v: Value, k: nat, target: Target)
    requires v.ObjectValue? && k < |v.members|
    requires !Quoted(v.members[k].name, target).Written? || !Encodable(v.members[k].value, target)
    ensures !Encodable(v, target)
  {
    MemberMissingStays(v, k + 1, |v.members|, target);
  }

  lemma {:induction false} MemberMissingStays(v: Value, k: nat, n: nat, target: Target)
    requires v.ObjectValue? && k <= n <= |v.members| && !MembersEncodable(v, k, target)
    ensures !MembersEncodable(v, n, target)
    decreases n - k
  {
    if k < n {
      MemberMissingStays(v, k, n - 1, target);
    }
  }
}
