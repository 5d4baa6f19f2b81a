/**
 * The layout of pretty text, as a machine that reads a text character by character and knows nothing of trees:
 * after an opening bracket and after a comma the text goes on in a new line, and so it does before the bracket that
 * closes an array or object that is not empty; each line is indented by the given width for each bracket that is
 * open, not counting one that the line closes; a colon is followed by one space; and no other white space stands
 * outside of strings. Arrays that are kept on one line have one space behind each comma instead.
 *
 * Main result: the text of every tree is laid out like this (PrettyTextIsLaidOut).
 */
module TextLayout {
  import opened JsonText
  import opened JsonDocument
  import opened JsonWriter
  import R = JsonRoundTrip
  import RecursiveParser
  import JsonNumber
  import JsonString

  /** What the machine has just read. */
  datatype Place =
    | Start
    | Opened
    | Separated
    | Named
    | Within
    | Indented(n: nat, toClose: bool)
    | Quoting
    | Escaping
    | Misplaced

  /** The open brackets, outermost first (true for an array), and the place in the text. */
  datatype State = State(open: seq<bool>, place: Place)

  predicate OneLine(layout: Layout, open: seq<bool>)
    requires layout.Pretty?
  {
    layout.singleLineArrays && open != [] && open[|open| - 1]
  }

  predicate Closes(c: byte) {
    c == RIGHT_BRACKET || c == RIGHT_BRACE
  }

  /** A character that is not part of the layout. */
  function Read(open: seq<bool>, c: byte): State {
    if c == QUOTE then State(open, Quoting)
    else if c == LEFT_BRACKET || c == LEFT_BRACE then State(open + [c == LEFT_BRACKET], Opened)
    else if Closes(c) then
      if open != [] && open[|open| - 1] == (c == RIGHT_BRACKET) then State(open[..|open| - 1], Within)
      else State(open, Misplaced)
    else if c == COMMA then State(open, Separated)
    else if c == COLON then State(open, Named)
    else if RecursiveParser.IsSpace(c) then State(open, Misplaced)
    else State(open, Within)
  }

  function Line(layout: Layout, open: seq<bool>, c: byte, toClose: bool): State
    requires layout.Pretty?
  {
    if c == LINE_FEED && !OneLine(layout, open) then State(open, Indented(0, toClose)) else State(open, Misplaced)
  }

  predicate IsIndent(layout: Layout, depth: int, n: nat)
    requires layout.Pretty?
  {
    n == depth * layout.width
  }

  function Step(layout: Layout, s: State, c: byte): State
    requires layout.Pretty?
  {
    match s.place
    case Start => Read(s.open, c)
    case Opened => if Closes(c) || OneLine(layout, s.open) then Read(s.open, c) else Line(layout, s.open, c, false)
    case Separated =>
      if OneLine(layout, s.open) && c == SPACE then State(s.open, Start) else Line(layout, s.open, c, false)
    case Named => State(s.open, if c == SPACE then Start else Misplaced)
    case Within =>
      if Closes(c) then if OneLine(layout, s.open) then Read(s.open, c) else State(s.open, Misplaced)
      else if c == LINE_FEED then Line(layout, s.open, c, true)
      else Read(s.open, c)
    case Indented(n, toClose) =>
      if c == layout.indent then State(s.open, Indented(n + 1, toClose))
      else if Closes(c) == toClose && IsIndent(layout, if toClose then |s.open| - 1 else |s.open|, n) then
        Read(s.open, c)
      else State(s.open, Misplaced)
    case Quoting => State(s.open, if c == QUOTE then Within else if c == BACKSLASH then Escaping else Quoting)
    case Escaping => State(s.open, Quoting)
    case Misplaced => s
  }

  function Scan(layout: Layout, s: State, w: Bytes): State
    requires layout.Pretty?
    decreases |w|
  {
    if w == [] then s else Scan(layout, Step(layout, s, w[0]), w[1..])
  }

  /** The whole text, with nothing open at its end. */
  predicate IsLaidOut(layout: Layout, t: Bytes)
    requires layout.Pretty?
  {
    Scan(layout, State([], Start), t) == State([], Within)
  }

  lemma {:induction false} ScanOn(layout: Layout, s: State, a: Bytes, b: Bytes)
    requires layout.Pretty?
    ensures Scan(layout, s, a + b) == Scan(layout, Scan(layout, s, a), b)
    decreases |a|
  {
    hide Step;
    if a == [] {
      assert a + b == b;
    } else {
      assert (a + b)[1..] == a[1..] + b;
      ScanOn(layout, Step(layout, s, a[0]), a[1..], b);
    }
  }

  lemma ScanOne(layout: Layout, s: State, c: byte)
    requires layout.Pretty?
    ensures Scan(layout, s, [c]) == Step(layout, s, c)
  {
    hide Step;
    assert [c][1..] == [];
  }

  // ---------------------------------------------------------------- tokens

  /** A string's characters, none of which ends it. */
  predicate IsQuoted(w: Bytes) {
    forall k :: 0 <= k < |w| ==> w[k] != QUOTE && w[k] != BACKSLASH
  }

  lemma {:induction false} QuotedIsPassed(layout: Layout, open: seq<bool>, w: Bytes)
    requires layout.Pretty? && IsQuoted(w)
    ensures Scan(layout, State(open, Quoting), w) == State(open, Quoting)
    decreases |w|
  {
    if w != [] {
      QuotedIsPassed(layout, open, w[1..]);
    }
  }

  lemma EscapeIsPassed(layout: Layout, open: seq<bool>, w: Bytes)
    requires layout.Pretty? && |w| >= 2 && w[0] == BACKSLASH && IsQuoted(w[2..])
    ensures Scan(layout, State(open, Quoting), w) == State(open, Quoting)
  {
    assert w[1..][1..] == w[2..];
    QuotedIsPassed(layout, open, w[2..]);
  }

  lemma UnitIsPassed(layout: Layout, open: seq<bool>, h: nat)
    requires layout.Pretty? && h <= 0xFFFF
    ensures Scan(layout, State(open, Quoting), JsonString.EscapeUnit(h)) == State(open, Quoting)
  {
    hide JsonString.EscapeUnit, Scan;
    UnitIsEscape(h);
    EscapeIsPassed(layout, open, JsonString.EscapeUnit(h));
  }

  lemma UnitIsEscape(h: nat)
    requires h <= 0xFFFF
    ensures var w := JsonString.EscapeUnit(h); |w| >= 2 && w[0] == BACKSLASH && IsQuoted(w[2..])
  {
  }

  lemma ByteIsPassed(layout: Layout, open: seq<bool>, c: byte)
    requires layout.Pretty?
    ensures Scan(layout, State(open, Quoting), JsonString.EscapeByte(c)) == State(open, Quoting)
  {
    var w := JsonString.EscapeByte(c);
    if |w| == 1 {
      QuotedIsPassed(layout, open, w);
    } else {
      EscapeIsPassed(layout, open, w);
    }
  }

  lemma NextIsPassed(layout: Layout, open: seq<bool>, s: Bytes, k: nat, target: JsonString.Target)
    requires layout.Pretty? && k < |s| && JsonString.EscapeNext(s, k, target).Escaped?
    ensures Scan(layout, State(open, Quoting), JsonString.EscapeNext(s, k, target).text) == State(open, Quoting)
  {
    hide Scan, JsonString.EscapeUnit, JsonString.EscapeByte;
    ByteIsPassed(layout, open, s[k]);
    if target.ToAscii? && s[k] >= 0x80 {
      var w := s[k..k + JsonString.Utf8.CharLength(s, k)];
      JsonString.Utf8Bound(w);
      PointIsPassed(layout, open, JsonString.Utf8.CodePoint(w));
    }
  }

  lemma PointIsPassed(layout: Layout, open: seq<bool>, cp: nat)
    requires layout.Pretty? && cp <= JsonString.Utf8.LAST_CODE_POINT
    ensures Scan(layout, State(open, Quoting), JsonString.EscapePoint(cp)) == State(open, Quoting)
  {
    hide Scan, JsonString.EscapeUnit;
    if cp <= 0xFFFF {
      UnitIsPassed(layout, open, cp);
    } else {
      var high, low := (cp - 0x10000) / 1024 + 0xD800, (cp - 0x10000) % 1024 + 0xDC00;
      UnitIsPassed(layout, open, high);
      UnitIsPassed(layout, open, low);
      ScanOn(layout, State(open, Quoting), JsonString.EscapeUnit(high), JsonString.EscapeUnit(low));
    }
  }

  lemma {:induction false} EscapedIsPassed(layout: Layout, open: seq<bool>, s: Bytes, k: nat, target: JsonString.Target)
    requires layout.Pretty? && k <= |s| && JsonString.EscapeFrom(s, k, target).Written?
    ensures Scan(layout, State(open, Quoting), JsonString.EscapeFrom(s, k, target).bytes) == State(open, Within)
    decreases |s| - k
  {
    hide Scan, Step, JsonString.EscapeNext;
    if k == |s| {
      ScanOne(layout, State(open, Quoting), QUOTE);
      QuoteEnds(layout, open);
    } else {
      var e := JsonString.EscapeNext(s, k, target);
      NextIsPassed(layout, open, s, k, target);
      EscapedIsPassed(layout, open, s, e.next, target);
      ScanOn(layout, State(open, Quoting), e.text, JsonString.EscapeFrom(s, e.next, target).bytes);
    }
  }

  lemma QuoteEnds(layout: Layout, open: seq<bool>)
    requires layout.Pretty?
    ensures Step(layout, State(open, Quoting), QUOTE) == State(open, Within)
  {
  }

  /** A place where a value or a member is due. */
  predicate IsDue(layout: Layout, s: State)
    requires layout.Pretty?
  {
    match s.place
    case Start => true
    case Opened => OneLine(layout, s.open)
    case Indented(n, toClose) => !toClose && IsIndent(layout, |s.open|, n)
    case _ => false
  }

  lemma DueIsRead(layout: Layout, s: State, c: byte)
    requires layout.Pretty? && IndentIsSpace(layout) && IsDue(layout, s) && R.StartsValue(c)
    ensures Step(layout, s, c) == Read(s.open, c)
  {
  }

  /** A quoted string where a value or a name is due. */
  lemma StringIsPassed(layout: Layout, s: State, name: Bytes, target: JsonString.Target)
    requires layout.Pretty? && IndentIsSpace(layout) && IsDue(layout, s) && JsonString.Quoted(name, target).Written?
    ensures Scan(layout, s, QuotedText(name, target)) == State(s.open, Within)
  {
    hide Scan, Step, IsDue, JsonString.EscapeFrom;
    DueIsRead(layout, s, QUOTE);
    ScanOne(layout, s, QUOTE);
    EscapedIsPassed(layout, s.open, name, 0, target);
    ScanOn(layout, s, [QUOTE], JsonString.EscapeFrom(name, 0, target).bytes);
  }

  /** Characters that words and numbers are made of. */
  predicate IsPlain(c: byte) {
    && c != QUOTE && c != LEFT_BRACKET && c != LEFT_BRACE && !Closes(c) && c != COMMA && c != COLON
    && !RecursiveParser.IsSpace(c)
  }

  lemma {:induction false} PlainIsPassed(layout: Layout, open: seq<bool>, w: Bytes)
    requires layout.Pretty? && forall k :: 0 <= k < |w| ==> IsPlain(w[k])
    ensures Scan(layout, State(open, Within), w) == State(open, Within)
    decreases |w|
  {
    if w != [] {
      PlainIsPassed(layout, open, w[1..]);
    }
  }

  lemma WordIsPassed(layout: Layout, s: State, w: Bytes)
    requires layout.Pretty? && IndentIsSpace(layout) && IsDue(layout, s)
    requires w != [] && R.StartsValue(w[0]) && forall k :: 0 <= k < |w| ==> IsPlain(w[k])
    ensures Scan(layout, s, w) == State(s.open, Within)
  {
    hide Step, IsDue;
    DueIsRead(layout, s, w[0]);
    PlainIsPassed(layout, s.open, w[1..]);
  }

  lemma ScalarIsWord(v: Value, style: Style, depth: nat)
    requires Exact(v) && !v.StringValue? && !v.ArrayValue? && !v.ObjectValue?
    ensures var w := Text(v, style, depth);
            w != [] && R.StartsValue(w[0]) && forall k :: 0 <= k < |w| ==> IsPlain(w[k])
  {
    hide JsonNumber.Numeral;
  }

  // ---------------------------------------------------------------- trees

  lemma {:induction false} CopiesAreCounted(layout: Layout, open: seq<bool>, m: nat, n: nat, toClose: bool)
    requires layout.Pretty?
    ensures Scan(layout, State(open, Indented(m, toClose)), Copies(layout.indent, n))
         == State(open, Indented(m + n, toClose))
    decreases n
  {
    if n > 0 {
      var w := Copies(layout.indent, n);
      assert w[1..] == Copies(layout.indent, n - 1);
      CopiesAreCounted(layout, open, m + 1, n - 1, toClose);
    }
  }

  /** A line break and the indentation behind it. */
  lemma NewLineIsPassed(layout: Layout, s: State, depth: nat, toClose: bool)
    requires layout.Pretty? && !OneLine(layout, s.open)
    requires if toClose then s.place.Within? else s.place.Opened? || s.place.Separated?
    ensures Scan(layout, s, NewLine(layout, depth)) == State(s.open, Indented(depth * layout.width, toClose))
  {
    var n := depth * layout.width;
    assert Step(layout, s, LINE_FEED) == State(s.open, Indented(0, toClose));
    hide Step;
    ScanOne(layout, s, LINE_FEED);
    CopiesAreCounted(layout, s.open, 0, n, toClose);
    ScanOn(layout, s, [LINE_FEED], Copies(layout.indent, n));
  }

  /** The comma, if any, and the white space before an element. */
  lemma ElementGapIsPassed(layout: Layout, open: seq<bool>, first: bool) returns (s: State)
    requires layout.Pretty? && open != [] && open[|open| - 1]
    ensures Scan(layout, State(open, if first then Opened else Within),
                 CommaUnlessFirst(first) + ElementGap(layout, |open|, first)) == s
    ensures s.open == open && IsDue(layout, s)
  {
    hide Scan, NewLine;
    var from := State(open, if first then Opened else Within);
    var gap := ElementGap(layout, |open|, first);
    if first {
      assert [] + gap == gap;
      s := State(open, if layout.singleLineArrays then Opened else Indented(|open| * layout.width, false));
      if layout.singleLineArrays {
        ScanNothing(layout, from);
      } else {
        NewLineIsPassed(layout, from, |open|, false);
      }
    } else {
      ScanOn(layout, from, [COMMA], gap);
      ScanOne(layout, from, COMMA);
      s := State(open, if layout.singleLineArrays then Start else Indented(|open| * layout.width, false));
      if layout.singleLineArrays {
        ScanOne(layout, State(open, Separated), SPACE);
      } else {
        NewLineIsPassed(layout, State(open, Separated), |open|, false);
      }
    }
  }

  lemma ScanNothing(layout: Layout, s: State)
    requires layout.Pretty?
    ensures Scan(layout, s, []) == s
  {
  }

  lemma MemberGapIsPassed(layout: Layout, open: seq<bool>, first: bool) returns (s: State)
    requires layout.Pretty? && open != [] && !open[|open| - 1]
    ensures Scan(layout, State(open, if first then Opened else Within),
                 CommaUnlessFirst(first) + MemberGap(layout, |open|)) == s
    ensures s.open == open && IsDue(layout, s)
  {
    hide Scan, NewLine;
    var from := State(open, if first then Opened else Within);
    var gap := MemberGap(layout, |open|);
    s := State(open, Indented(|open| * layout.width, false));
    if first {
      assert [] + gap == gap;
      NewLineIsPassed(layout, from, |open|, false);
    } else {
      ScanOn(layout, from, [COMMA], gap);
      ScanOne(layout, from, COMMA);
      NewLineIsPassed(layout, State(open, Separated), |open|, false);
    }
  }

  /** The end of an array or object with the brackets around it, and the line break before it. */
  lemma EndIsPassed(layout: Layout, outer: seq<bool>, isArray: bool, empty: bool, gap: Bytes, close: byte)
    requires layout.Pretty? && IndentIsSpace(layout) && close == (if isArray then RIGHT_BRACKET else RIGHT_BRACE)
    requires gap == if isArray then ArrayEndGap(layout, |outer|, empty) else ObjectEndGap(layout, |outer|, empty)
    ensures Scan(layout, State(outer + [isArray], if empty then Opened else Within), gap + [close])
         == State(outer, Within)
  {
    hide Scan, NewLine;
    var open := outer + [isArray];
    var from := State(open, if empty then Opened else Within);
    assert open[..|open| - 1] == outer;
    ScanOn(layout, from, gap, [close]);
    if empty || (isArray && layout.singleLineArrays) {
      ScanNothing(layout, from);
      ScanOne(layout, from, close);
    } else {
      NewLineIsPassed(layout, from, |outer|, true);
      ScanOne(layout, State(open, Indented(|outer| * layout.width, true)), close);
    }
  }

  lemma OpenIsPassed(layout: Layout, s: State, isArray: bool)
    requires layout.Pretty? && IndentIsSpace(layout) && IsDue(layout, s)
    ensures Scan(layout, s, [if isArray then LEFT_BRACKET else LEFT_BRACE]) == State(s.open + [isArray], Opened)
  {
    hide Scan, IsDue, Step;
    var c := if isArray then LEFT_BRACKET else LEFT_BRACE;
    DueIsRead(layout, s, c);
    ScanOne(layout, s, c);
  }

  /** Where a value is due, its text is laid out. */
  lemma {:induction false} ValueIsPassed(v: Value, style: Style, s: State)
    requires style.layout.Pretty? && IndentIsSpace(style.layout) && R.IsWritable(v, style.target)
    requires IsDue(style.layout, s)
    ensures Scan(style.layout, s, Text(v, style, |s.open|)) == State(s.open, Within)
    decreases v, Width(v) + 1
  {
    hide Scan, IsDue, ElementsText, MembersText, JsonString.Quoted, R.StartsValue, IsPlain, QuotedText;
    var depth := |s.open|;
    if v.StringValue? {
      StringIsPassed(style.layout, s, v.s, style.target);
    } else if v.ArrayValue? {
      OpenIsPassed(style.layout, s, true);
      ElementsArePassed(v, 0, style, s.open);
      ScanOn(style.layout, s, [LEFT_BRACKET], ElementsText(v, 0, style, depth));
    } else if v.ObjectValue? {
      OpenIsPassed(style.layout, s, false);
      MembersArePassed(v, 0, style, s.open);
      ScanOn(style.layout, s, [LEFT_BRACE], MembersText(v, 0, style, depth));
    } else {
      ScalarIsWord(v, style, depth);
      WordIsPassed(style.layout, s, Text(v, style, depth));
    }
  }

  lemma {:induction false} ElementsArePassed(v: Value, k: nat, style: Style, outer: seq<bool>)
    requires v.ArrayValue? && k <= |v.elements|
    requires style.layout.Pretty? && IndentIsSpace(style.layout) && R.IsWritable(v, style.target)
    ensures Scan(style.layout, State(outer + [true], if k == 0 then Opened else Within),
                 ElementsText(v, k, style, |outer|)) == State(outer, Within)
    decreases v, |v.elements| - k
  {
    hide Scan, IsDue, Text, ElementsText, R.IsWritable, ElementGap, ArrayEndGap;
    var layout, open := style.layout, outer + [true];
    var from := State(open, if k == 0 then Opened else Within);
    if k == |v.elements| {
      EndIsPassed(layout, outer, true, k == 0, ArrayEndGap(layout, |outer|, k == 0), RIGHT_BRACKET);
      ElementsEnd(v, style, |outer|);
    } else {
      var x, rest := Text(v.elements[k], style, |open|), ElementsText(v, k + 1, style, |outer|);
      var lead := CommaUnlessFirst(k == 0) + ElementGap(layout, |open|, k == 0);
      R.ElementsTextUnfolds(v, k, style, |outer|);
      R.ElementIsWritable(v, k, style.target);
      var due := ElementGapIsPassed(layout, open, k == 0);
      ValueIsPassed(v.elements[k], style, due);
      ElementsArePassed(v, k + 1, style, outer);
      ScanOn(layout, from, lead, x);
      ScanOn(layout, from, lead + x, rest);
    }
  }

  lemma ElementsEnd(v: Value, style: Style, depth: nat)
    requires v.ArrayValue?
    ensures ElementsText(v, |v.elements|, style, depth)
         == ArrayEndGap(style.layout, depth, |v.elements| == 0) + [RIGHT_BRACKET]
  {
  }

  lemma MembersEnd(v: Value, style: Style, depth: nat)
    requires v.ObjectValue?
    ensures MembersText(v, |v.members|, style, depth)
         == ObjectEndGap(style.layout, depth, |v.members| == 0) + [RIGHT_BRACE]
  {
  }

  /** A name, the colon and the space behind it. */
  lemma NameIsPassed(name: Bytes, style: Style, s: State)
    requires style.layout.Pretty? && IndentIsSpace(style.layout) && JsonString.Quoted(name, style.target).Written?
    requires IsDue(style.layout, s)
    ensures Scan(style.layout, s, NameText(name, style)) == State(s.open, Start)
  {
    hide Scan, IsDue, QuotedText, JsonString.Quoted;
    var layout := style.layout;
    StringIsPassed(layout, s, name, style.target);
    ScanOn(layout, s, QuotedText(name, style.target), [COLON] + [SPACE]);
    ScanOn(layout, State(s.open, Within), [COLON], [SPACE]);
    ScanOne(layout, State(s.open, Within), COLON);
    ScanOne(layout, State(s.open, Named), SPACE);
  }

  lemma {:induction false} MembersArePassed(v: Value, k: nat, style: Style, outer: seq<bool>)
    requires v.ObjectValue? && k <= |v.members|
    requires style.layout.Pretty? && IndentIsSpace(style.layout) && R.IsWritable(v, style.target)
    ensures Scan(style.layout, State(outer + [false], if k == 0 then Opened else Within),
                 MembersText(v, k, style, |outer|)) == State(outer, Within)
    decreases v, |v.members| - k
  {
    hide Scan, Text, MembersText, NameText, R.IsWritable, MemberGap, ObjectEndGap, JsonString.Quoted;
    var layout, open := style.layout, outer + [false];
    var from := State(open, if k == 0 then Opened else Within);
    if k == |v.members| {
      EndIsPassed(layout, outer, false, k == 0, ObjectEndGap(layout, |outer|, k == 0), RIGHT_BRACE);
      MembersEnd(v, style, |outer|);
    } else {
      var m := v.members[k];
      var name, x, rest := NameText(m.name, style), Text(m.value, style, |open|), MembersText(v, k + 1, style, |outer|);
      var lead := CommaUnlessFirst(k == 0) + MemberGap(layout, |open|);
      R.MembersTextUnfolds(v, k, style, |outer|);
      R.MemberIsWritable(v, k, style.target);
      var due := MemberGapIsPassed(layout, open, k == 0);
      NameIsPassed(m.name, style, due);
      ValueIsPassed(m.value, style, State(open, Start));
      MembersArePassed(v, k + 1, style, outer);
      ScanOn(layout, from, lead, name);
      ScanOn(layout, from, lead + name, x);
      ScanOn(layout, from, lead + name + x, rest);
    }
  }

  /** Main result: the pretty text of every tree is laid out as the style says, and every bracket is closed. */
  lemma PrettyTextIsLaidOut(v: Value, style: Style)
    requires style.layout.Pretty? && IndentIsSpace(style.layout) && R.IsWritable(v, style.target)
    ensures IsLaidOut(style.layout, Text(v, style, 0))
  {
    hide Scan, Text, R.IsWritable;
    ValueIsPassed(v, style, State([], Start));
  }
}
