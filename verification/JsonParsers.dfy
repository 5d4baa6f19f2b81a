/**
 * The recursive parser of libs/rapidjson/rapidjson/reader.h (lines 556-588, 737-902, 1735-1749) with
 * default flags, as functions from a position and the events so far to an outcome. `Ok` carries the
 * next position; `Failed` carries the events that had been sent when the error was found.
 */
module RecursiveParser {
  import opened JsonText
  import opened JsonEvents
  import JsonString
  import JsonNumber

  predicate IsSpace(c: byte) {
    c == 0x20 || c == 0x0A || c == 0x0D || c == 0x09
  }

  function SkipSpace(t: Bytes, i: nat): (j: nat)
    requires i <= |t|
    ensures i <= j <= |t| && !IsSpace(Peek(t, j))
    decreases |t| - i
  {
    if IsSpace(Peek(t, i)) then SkipSpace(t, i + 1) else i
  }

  const NULL_WORD: Bytes := [0x6E, 0x75, 0x6C, 0x6C]
  const TRUE_WORD: Bytes := [0x74, 0x72, 0x75, 0x65]
  const FALSE_WORD: Bytes := [0x66, 0x61, 0x6C, 0x73, 0x65]

  function ParseWord(c: Client, t: Bytes, i: nat, word: Bytes, e: Event, log: seq<Event>): (r: Outcome)
    requires |word| > 0
    ensures r.Ok? ==> i < r.at <= |t|
  {
    if Occurs(word, t, i) then Emit(c, log, e, i + |word|) else Failed(log)
  }

  /** The string at the quote at `i`, as a member name or as a value. */
  function ParseString(c: Client, t: Bytes, i: nat, isKey: bool, log: seq<Event>): (r: Outcome)
    requires i < |t|
    ensures r.Ok? ==> i < r.at <= |t|
  {
    match JsonString.DecodeString(t, i + 1)
    case Str(s, next) => Emit(c, log, if isKey then Key(s) else String(s), next)
    case NoString => Failed(log)
  }

  /** A value that is neither an object nor an array. */
  function ParseScalar(c: Client, t: Bytes, i: nat, log: seq<Event>): (r: Outcome)
    requires i <= |t|
    ensures r.Ok? ==> i < r.at <= |t|
  {
    var ch := Peek(t, i);
    if ch == NULL_WORD[0] then ParseWord(c, t, i, NULL_WORD, Null, log)
    else if ch == TRUE_WORD[0] then ParseWord(c, t, i, TRUE_WORD, Bool(true), log)
    else if ch == FALSE_WORD[0] then ParseWord(c, t, i, FALSE_WORD, Bool(false), log)
    else if ch == QUOTE then ParseString(c, t, i, false, log)
    else JsonNumber.ParseNumber(c, t, i, log)
  }

  function ParseValue(c: Client, t: Bytes, i: nat, log: seq<Event>): (r: Outcome)
    requires i <= |t|
    ensures r.Ok? ==> i < r.at <= |t|
    decreases |t| - i, 2
  {
    var ch := Peek(t, i);
    if ch == LEFT_BRACE then ParseObject(c, t, i, log)
    else if ch == LEFT_BRACKET then ParseArray(c, t, i, log)
    else ParseScalar(c, t, i, log)
  }

  function ParseArray(c: Client, t: Bytes, i: nat, log: seq<Event>): (r: Outcome)
    requires i < |t|
    ensures r.Ok? ==> i < r.at <= |t|
    decreases |t| - i, 1
  {
    var start := Emit(c, log, StartArray, i + 1);
    if start.Failed? then
      start
    else
      var j := SkipSpace(t, i + 1);
      if Peek(t, j) == RIGHT_BRACKET then
        Emit(c, start.log, EndArray(0), j + 1)
      else
        ParseElements(c, t, j, 0, start.log)
  }

  /** The elements from the one at `i` on, when `count` were read before it. */
  function ParseElements(c: Client, t: Bytes, i: nat, count: nat, log: seq<Event>): (r: Outcome)
    requires i <= |t|
    ensures r.Ok? ==> i < r.at <= |t|
    decreases |t| - i, 3
  {
    var v := ParseValue(c, t, i, log);
    if v.Failed? then
      v
    else
      var j := SkipSpace(t, v.at);
      if Peek(t, j) == COMMA then
        ParseElements(c, t, SkipSpace(t, j + 1), count + 1, v.log)
      else if Peek(t, j) == RIGHT_BRACKET then
        Emit(c, v.log, EndArray(count + 1), j + 1)
      else
        Failed(v.log)
  }

  function ParseObject(c: Client, t: Bytes, i: nat, log: seq<Event>): (r: Outcome)
    requires i < |t|
    ensures r.Ok? ==> i < r.at <= |t|
    decreases |t| - i, 1
  {
    var start := Emit(c, log, StartObject, i + 1);
    if start.Failed? then
      start
    else
      var j := SkipSpace(t, i + 1);
      if Peek(t, j) == RIGHT_BRACE then
        Emit(c, start.log, EndObject(0), j + 1)
      else
        ParseMembers(c, t, j, 0, start.log)
  }

  /** A member name at `i` and the colon after it; ends where the value is expected. */
  function ParseName(c: Client, t: Bytes, i: nat, log: seq<Event>): (r: Outcome)
    requires i <= |t|
    ensures r.Ok? ==> i < r.at <= |t|
  {
    if Peek(t, i) != QUOTE then
      Failed(log)
    else
      var name := ParseString(c, t, i, true, log);
      if name.Failed? then
        name
      else
        var j := SkipSpace(t, name.at);
        if Peek(t, j) == COLON then Ok(SkipSpace(t, j + 1), name.log) else Failed(name.log)
  }

  /** The members from the one at `i` on, when `count` were read before it. */
  function ParseMembers(c: Client, t: Bytes, i: nat, count: nat, log: seq<Event>): (r: Outcome)
    requires i <= |t|
    ensures r.Ok? ==> i < r.at <= |t|
    decreases |t| - i, 3
  {
    var name := ParseName(c, t, i, log);
    if name.Failed? then name else ParseMemberValue(c, t, name.at, count, name.log)
  }

  /** The value of a member at `i`, and what follows it. */
  function ParseMemberValue(c: Client, t: Bytes, i: nat, count: nat, log: seq<Event>): (r: Outcome)
    requires i <= |t|
    ensures r.Ok? ==> i < r.at <= |t|
    decreases |t| - i, 3
  {
    var v := ParseValue(c, t, i, log);
    if v.Failed? then
      v
    else
      var j := SkipSpace(t, v.at);
      if Peek(t, j) == COMMA then
        ParseMembers(c, t, SkipSpace(t, j + 1), count + 1, v.log)
      else if Peek(t, j) == RIGHT_BRACE then
        Emit(c, v.log, EndObject(count + 1), j + 1)
      else
        Failed(v.log)
  }

  lemma ElementsByRound(c: Client, t: Bytes, i: nat, count: nat, log: seq<Event>)
    requires i <= |t|
    ensures var v, r := ParseValue(c, t, i, log), ParseElements(c, t, i, count, log);
            if v.Failed? then r == v
            else
              var j := SkipSpace(t, v.at);
              r == if Peek(t, j) == COMMA then ParseElements(c, t, SkipSpace(t, j + 1), count + 1, v.log)
                   else if Peek(t, j) == RIGHT_BRACKET then Emit(c, v.log, EndArray(count + 1), j + 1)
                   else Failed(v.log)
  {
    hide ParseValue;
  }

  lemma MembersByName(c: Client, t: Bytes, i: nat, count: nat, log: seq<Event>)
    requires i <= |t|
    ensures var name, r := ParseName(c, t, i, log), ParseMembers(c, t, i, count, log);
            r == if name.Failed? then name else ParseMemberValue(c, t, name.at, count, name.log)
  {
    hide ParseName, ParseMemberValue;
  }

  lemma MemberValueByRound(c: Client, t: Bytes, i: nat, count: nat, log: seq<Event>)
    requires i <= |t|
    ensures var v, r := ParseValue(c, t, i, log), ParseMemberValue(c, t, i, count, log);
            if v.Failed? then r == v
            else
              var j := SkipSpace(t, v.at);
              r == if Peek(t, j) == COMMA then ParseMembers(c, t, SkipSpace(t, j + 1), count + 1, v.log)
                   else if Peek(t, j) == RIGHT_BRACE then Emit(c, v.log, EndObject(count + 1), j + 1)
                   else Failed(v.log)
  {
    hide ParseValue, ParseMembers;
  }

  /** A whole text: one value between white space. */
  function Parse(c: Client, t: Bytes): (r: Outcome)
    ensures r.Ok? ==> r.at <= |t|
  {
    var i := SkipSpace(t, 0);
    if Peek(t, i) == 0 then
      Failed([])
    else
      var v := ParseValue(c, t, i, []);
      if v.Failed? then
        v
      else
        var j := SkipSpace(t, v.at);
        if Peek(t, j) == 0 then Ok(j, v.log) else Failed(v.log)
  }

  // ---------------------------------------------------------------- sizes

  /** The lengths and counts that an event carries are at most `n`. */
  predicate Within(e: Event, n: nat) {
    match e
    case String(s) => |s| <= n
    case Key(s) => |s| <= n
    case EndObject(count) => count <= n
    case EndArray(count) => count <= n
    case _ => true
  }

  predicate AllWithin(log: seq<Event>, n: nat) {
    forall k :: 0 <= k < |log| ==> Within(log[k], n)
  }

  lemma EmittedWithin(c: Client, log: seq<Event>, e: Event, at: nat, n: nat)
    requires AllWithin(log, n) && Within(e, n)
    ensures AllWithin(Emit(c, log, e, at).log, n)
  {
  }

  lemma WordWithin(c: Client, t: Bytes, i: nat, word: Bytes, e: Event, log: seq<Event>)
    requires |word| > 0 && AllWithin(log, |t|) && Within(e, |t|)
    ensures AllWithin(ParseWord(c, t, i, word, e, log).log, |t|)
  {
    hide Emit, AllWithin, Occurs;
    EmittedWithin(c, log, e, i + |word|, |t|);
  }

  lemma StringWithin(c: Client, t: Bytes, i: nat, isKey: bool, log: seq<Event>)
    requires i < |t| && AllWithin(log, |t|)
    ensures AllWithin(ParseString(c, t, i, isKey, log).log, |t|)
  {
    hide Emit, AllWithin, JsonString.DecodeString;
    var d := JsonString.DecodeString(t, i + 1);
    if d.Str? {
      EmittedWithin(c, log, if isKey then Key(d.bytes) else String(d.bytes), d.next, |t|);
    }
  }

  lemma NumberWithin(c: Client, t: Bytes, i: nat, log: seq<Event>)
    requires i <= |t| && AllWithin(log, |t|)
    ensures AllWithin(JsonNumber.ParseNumber(c, t, i, log).log, |t|)
  {
    hide JsonNumber.IntegerEnd, JsonNumber.FractionEnd, JsonNumber.ExponentEnd, JsonNumber.Value;
  }

  lemma ScalarWithin(c: Client, t: Bytes, i: nat, log: seq<Event>)
    requires i <= |t| && AllWithin(log, |t|)
    ensures AllWithin(ParseScalar(c, t, i, log).log, |t|)
  {
    hide ParseWord, ParseString, JsonNumber.ParseNumber, AllWithin;
    WordWithin(c, t, i, NULL_WORD, Null, log);
    WordWithin(c, t, i, TRUE_WORD, Bool(true), log);
    WordWithin(c, t, i, FALSE_WORD, Bool(false), log);
    NumberWithin(c, t, i, log);
    if i < |t| {
      StringWithin(c, t, i, false, log);
    }
  }

  lemma NameWithin(c: Client, t: Bytes, i: nat, log: seq<Event>)
    requires i <= |t| && AllWithin(log, |t|)
    ensures AllWithin(ParseName(c, t, i, log).log, |t|)
  {
    hide ParseString, SkipSpace, AllWithin;
    if i < |t| {
      StringWithin(c, t, i, true, log);
    }
  }

  lemma {:induction false} ValueWithin(c: Client, t: Bytes, i: nat, log: seq<Event>)
    requires i <= |t| && AllWithin(log, |t|)
    ensures AllWithin(ParseValue(c, t, i, log).log, |t|)
    decreases |t| - i, 2
  {
    hide ParseElements, ParseMembers, ParseScalar, SkipSpace, Emit, AllWithin;
    var ch := Peek(t, i);
    if ch == LEFT_BRACE {
      EmittedWithin(c, log, StartObject, i + 1, |t|);
      var start := Emit(c, log, StartObject, i + 1);
      var j := SkipSpace(t, i + 1);
      EmittedWithin(c, start.log, EndObject(0), j + 1, |t|);
      MembersWithin(c, t, j, 0, start.log);
    } else if ch == LEFT_BRACKET {
      EmittedWithin(c, log, StartArray, i + 1, |t|);
      var start := Emit(c, log, StartArray, i + 1);
      var j := SkipSpace(t, i + 1);
      EmittedWithin(c, start.log, EndArray(0), j + 1, |t|);
      ElementsWithin(c, t, j, 0, start.log);
    } else {
      ScalarWithin(c, t, i, log);
    }
  }

  /** Every element read so far took at least one character. */
  lemma {:induction false} ElementsWithin(c: Client, t: Bytes, i: nat, count: nat, log: seq<Event>)
    requires count < i <= |t| && AllWithin(log, |t|)
    ensures AllWithin(ParseElements(c, t, i, count, log).log, |t|)
    decreases |t| - i, 3
  {
    hide ParseValue, ParseElements, SkipSpace, Emit, AllWithin;
    ValueWithin(c, t, i, log);
    ElementsByRound(c, t, i, count, log);
    var v := ParseValue(c, t, i, log);
    if v.Ok? {
      var j := SkipSpace(t, v.at);
      if Peek(t, j) == COMMA {
        ElementsWithin(c, t, SkipSpace(t, j + 1), count + 1, v.log);
      } else {
        EmittedWithin(c, v.log, EndArray(count + 1), j + 1, |t|);
      }
    }
  }

  lemma {:induction false} MembersWithin(c: Client, t: Bytes, i: nat, count: nat, log: seq<Event>)
    requires count < i <= |t| && AllWithin(log, |t|)
    ensures AllWithin(ParseMembers(c, t, i, count, log).log, |t|)
    decreases |t| - i, 3
  {
    hide ParseName, ParseValue, ParseMembers, ParseMemberValue, SkipSpace, Emit, AllWithin;
    NameWithin(c, t, i, log);
    MembersByName(c, t, i, count, log);
    var name := ParseName(c, t, i, log);
    if name.Ok? {
      ValueWithin(c, t, name.at, name.log);
      MemberValueByRound(c, t, name.at, count, name.log);
      var v := ParseValue(c, t, name.at, name.log);
      if v.Ok? {
        var j := SkipSpace(t, v.at);
        if Peek(t, j) == COMMA {
          MembersWithin(c, t, SkipSpace(t, j + 1), count + 1, v.log);
        } else {
          EmittedWithin(c, v.log, EndObject(count + 1), j + 1, |t|);
        }
      }
    }
  }

  /**
   * Main result: no count and no string length that the handler is given exceeds the length of the text. So
   * for texts shorter than 2^32 the 32-bit SizeType of the source holds them all.
   */
  lemma SizesAreWithinText(c: Client, t: Bytes)
    ensures AllWithin(Parse(c, t).log, |t|)
  {
    hide ParseValue, SkipSpace;
    ValueWithin(c, t, SkipSpace(t, 0), []);
  }

  /** The event with its count or length as the 32-bit SizeType of the source carries it. */
  function Narrowed(e: Event): Event {
    match e
    case String(s) => String(s[..|s| % JsonNumber.TWO_32])
    case Key(s) => Key(s[..|s| % JsonNumber.TWO_32])
    case EndObject(count) => EndObject(count % JsonNumber.TWO_32)
    case EndArray(count) => EndArray(count % JsonNumber.TWO_32)
    case _ => e
  }

  function AllNarrowed(log: seq<Event>): seq<Event> {
    seq(|log|, k requires 0 <= k < |log| => Narrowed(log[k]))
  }

  lemma NarrowingLoses(e: Event)
    ensures Narrowed(e) == e <==> Within(e, JsonNumber.TWO_32 - 1)
  {
    var size := match e
      case String(s) => |s|
      case Key(s) => |s|
      case EndObject(count) => count
      case EndArray(count) => count
      case _ => 0;
    assert size % JsonNumber.TWO_32 == size <==> size < JsonNumber.TWO_32;
    assert e.String? && |e.s| < JsonNumber.TWO_32 ==> e.s[..|e.s|] == e.s;
    assert e.Key? && |e.s| < JsonNumber.TWO_32 ==> e.s[..|e.s|] == e.s;
  }

  /** The handler is given the same events in 32 bits exactly when no count or length needs more. */
  lemma NarrowLogIsExact(log: seq<Event>)
    ensures AllNarrowed(log) == log <==> AllWithin(log, JsonNumber.TWO_32 - 1)
  {
    forall k | 0 <= k < |log|
      ensures AllNarrowed(log)[k] == log[k] <==> Within(log[k], JsonNumber.TWO_32 - 1)
    {
      NarrowingLoses(log[k]);
    }
    if AllNarrowed(log) == log {
      assert forall k | 0 <= k < |log| :: AllNarrowed(log)[k] == log[k];
    }
  }

  lemma ShortTextIsNotNarrowed(c: Client, t: Bytes)
    requires |t| < JsonNumber.TWO_32
    ensures AllNarrowed(Parse(c, t).log) == Parse(c, t).log
  {
    hide Parse, AllNarrowed;
    SizesAreWithinText(c, t);
    WithinMore(Parse(c, t).log, |t|, JsonNumber.TWO_32 - 1);
    NarrowLogIsExact(Parse(c, t).log);
  }

  lemma WithinMore(log: seq<Event>, n: nat, m: nat)
    requires AllWithin(log, n) && n <= m
    ensures AllWithin(log, m)
  {
    forall k | 0 <= k < |log|
      ensures Within(log[k], m)
    {
      assert Within(log[k], n);
    }
  }
}

/**
 * The table-driven parser of libs/rapidjson/rapidjson/reader.h (lines 1752-2208) with default flags:
 * the token map, the transition table, one round of the loop, and the run.
 *
 * Main result: ParsersAgree, for every text and every handler.
 */
module IterativeParser {
  import opened JsonText
  import opened JsonEvents
  import opened RecursiveParser
  import JsonString
  import JsonNumber

  datatype State =
    | Finish
    | Error
    | Start
    | ObjectInitial
    | MemberKey
    | MemberValue
    | ObjectFinish
    | ArrayInitial
    | Element
    | ArrayFinish
    | SingleValue
    | ElementDelimiter
    | MemberDelimiter
    | KeyValueDelimiter

  datatype Token =
    | LeftBracketToken
    | RightBracketToken
    | LeftCurlyBracketToken
    | RightCurlyBracketToken
    | CommaToken
    | ColonToken
    | StringToken
    | FalseToken
    | TrueToken
    | NullToken
    | NumberToken

  function Tokenize(c: byte): Token {
    if c == QUOTE then StringToken
    else if c == COMMA then CommaToken
    else if c == COLON then ColonToken
    else if c == LEFT_BRACKET then LeftBracketToken
    else if c == RIGHT_BRACKET then RightBracketToken
    else if c == FALSE_WORD[0] then FalseToken
    else if c == NULL_WORD[0] then NullToken
    else if c == TRUE_WORD[0] then TrueToken
    else if c == LEFT_BRACE then LeftCurlyBracketToken
    else if c == RIGHT_BRACE then RightCurlyBracketToken
    else NumberToken
  }

  predicate IsScalarToken(t: Token) {
    t.StringToken? || t.FalseToken? || t.TrueToken? || t.NullToken? || t.NumberToken?
  }

  /** The table G, row by row. */
  function Predict(state: State, token: Token): State {
    match state
    case Start =>
      if token.LeftBracketToken? then ArrayInitial
      else if token.LeftCurlyBracketToken? then ObjectInitial
      else if IsScalarToken(token) then SingleValue
      else Error
    case ObjectInitial =>
      if token.RightCurlyBracketToken? then ObjectFinish
      else if token.StringToken? then MemberKey
      else Error
    case MemberKey =>
      if token.ColonToken? then KeyValueDelimiter else Error
    case MemberValue =>
      if token.RightCurlyBracketToken? then ObjectFinish
      else if token.CommaToken? then MemberDelimiter
      else Error
    case ArrayInitial =>
      if token.LeftBracketToken? then ArrayInitial
      else if token.RightBracketToken? then ArrayFinish
      else if token.LeftCurlyBracketToken? then ObjectInitial
      else if IsScalarToken(token) then Element
      else Error
    case Element =>
      if token.RightBracketToken? then ArrayFinish
      else if token.CommaToken? then ElementDelimiter
      else Error
    case ElementDelimiter =>
      if token.LeftBracketToken? then ArrayInitial
      else if token.RightBracketToken? then ArrayFinish
      else if token.LeftCurlyBracketToken? then ObjectInitial
      else if IsScalarToken(token) then Element
      else Error
    case MemberDelimiter =>
      if token.RightCurlyBracketToken? then ObjectFinish
      else if token.StringToken? then MemberKey
      else Error
    case KeyValueDelimiter =>
      if token.LeftBracketToken? then ArrayInitial
      else if token.LeftCurlyBracketToken? then ObjectInitial
      else if IsScalarToken(token) then MemberValue
      else Error
    case _ => Error
  }

  /** What an opening bracket pushes: the state to return to, and the count of elements or members. */
  datatype Frame = Frame(resume: State, count: nat)

  type Stack = seq<Frame>

  predicate InArray(s: State) { s.ArrayInitial? || s.Element? || s.ElementDelimiter? }

  predicate InObject(s: State) {
    s.ObjectInitial? || s.MemberKey? || s.MemberValue? || s.MemberDelimiter? || s.KeyValueDelimiter?
  }

  /** The states the loop can be in, with the stack they need: no Top or Pop of an empty stack. */
  predicate Fits(s: State, stack: Stack) {
    && (s.Start? || s.Finish? || InArray(s) || InObject(s))
    && (s.Start? || s.Finish? <==> |stack| == 0)
    && forall k | 0 <= k < |stack| :: FrameOk(stack, k)
  }

  predicate FrameOk(stack: Stack, k: nat)
    requires k < |stack|
  {
    if k == 0 then stack[k].resume.Start? else stack[k].resume.Element? || stack[k].resume.MemberValue?
  }

  /** The state an opening bracket met in state `s` returns to when it is closed. */
  function Resume(s: State): State {
    if s.ArrayInitial? || s.ElementDelimiter? then Element
    else if s.KeyValueDelimiter? then MemberValue
    else s
  }

  function Pushed(stack: Stack, s: State): Stack {
    stack + [Frame(Resume(s), 0)]
  }

  function Top(stack: Stack): Frame
    requires |stack| > 0
  {
    stack[|stack| - 1]
  }

  function Pop(stack: Stack): Stack
    requires |stack| > 0
  {
    stack[..|stack| - 1]
  }

  /** The state after the container on top is closed. */
  function Closed(stack: Stack): State
    requires |stack| > 0
  {
    if Top(stack).resume.Start? then Finish else Top(stack).resume
  }

  /** The result of a transition; the error state is Stop. */
  datatype Transition =
    | Go(state: State, stack: Stack, at: nat, log: seq<Event>)
    | Stop(log: seq<Event>)

  function Continue(r: Outcome, state: State, stack: Stack): Transition {
    match r
    case Ok(at, log) => Go(state, stack, at, log)
    case Failed(log) => Stop(log)
  }

  function Transit(c: Client, t: Bytes, src: State, dst: State, stack: Stack, i: nat, log: seq<Event>): Transition
    requires Fits(src, stack) && i < |t| && dst == Predict(src, Tokenize(Peek(t, i)))
  {
    match dst
    case Error =>
      Stop(log)
    case ObjectInitial =>
      Continue(Emit(c, log, StartObject, i + 1), dst, Pushed(stack, src))
    case ArrayInitial =>
      Continue(Emit(c, log, StartArray, i + 1), dst, Pushed(stack, src))
    case MemberKey =>
      Continue(ParseString(c, t, i, true, log), dst, stack)
    case KeyValueDelimiter =>
      Go(dst, stack, i + 1, log)
    case MemberValue =>
      Continue(ParseValue(c, t, i, log), dst, stack)
    case Element =>
      Continue(ParseValue(c, t, i, log), dst, stack)
    case MemberDelimiter =>
      Go(dst, CountOne(stack), i + 1, log)
    case ElementDelimiter =>
      Go(dst, CountOne(stack), i + 1, log)
    case ObjectFinish =>
      if src.MemberDelimiter? then
        Stop(log)
      else
        var n := if src.MemberValue? then Top(stack).count + 1 else Top(stack).count;
        Continue(Emit(c, log, EndObject(n), i + 1), Closed(stack), Pop(stack))
    case ArrayFinish =>
      if src.ElementDelimiter? then
        Stop(log)
      else
        var n := if src.Element? then Top(stack).count + 1 else Top(stack).count;
        Continue(Emit(c, log, EndArray(n), i + 1), Closed(stack), Pop(stack))
    case _ =>
      Continue(ParseValue(c, t, i, log), Finish, stack)
  }

  function CountOne(stack: Stack): Stack
    requires |stack| > 0
  {
    Pop(stack) + [Top(stack).(count := Top(stack).count + 1)]
  }

  /** Every transition consumes input and leaves a stack that fits. */
  lemma TransitAdvances(c: Client, t: Bytes, src: State, dst: State, stack: Stack, i: nat, log: seq<Event>)
    requires Fits(src, stack) && i < |t| && dst == Predict(src, Tokenize(Peek(t, i)))
    ensures var r := Transit(c, t, src, dst, stack, i, log);
            r.Go? ==> Fits(r.state, r.stack) && i < r.at <= |t|
  {
    var r := Transit(c, t, src, dst, stack, i, log);
    if r.Go? {
      forall k | 0 <= k < |r.stack|
        ensures FrameOk(r.stack, k)
      {
        if k < |stack| {
          assert FrameOk(stack, k);
        }
      }
      if |stack| > 0 {
        assert FrameOk(stack, |stack| - 1);
      }
    }
  }

  /** The loop from a state at a position that is not white space, to the end. */
  function Run(c: Client, t: Bytes, state: State, stack: Stack, i: nat, log: seq<Event>): Outcome
    requires Fits(state, stack) && i <= |t|
    decreases |t| - i
  {
    if Peek(t, i) == 0 then
      if state.Finish? then Ok(i, log) else Failed(log)
    else
      var dst := Predict(state, Tokenize(Peek(t, i)));
      TransitAdvances(c, t, state, dst, stack, i, log);
      match Transit(c, t, state, dst, stack, i, log)
      case Go(state', stack', at, log') => Run(c, t, state', stack', SkipSpace(t, at), log')
      case Stop(log') => Failed(log')
  }

  function IterativeParse(c: Client, t: Bytes): Outcome {
    Run(c, t, Start, [], SkipSpace(t, 0), [])
  }

  // ---------------------------------------------------------------- equivalence

  /** What the run does after a value, object or array was read with outcome `r`. */
  function After(c: Client, t: Bytes, r: Outcome, state: State, stack: Stack): Outcome
    requires Fits(state, stack) && (r.Ok? ==> r.at <= |t|)
  {
    if r.Ok? then Run(c, t, state, stack, SkipSpace(t, r.at), r.log) else r
  }

  predicate ExpectsValue(s: State) {
    s.Start? || s.ArrayInitial? || s.ElementDelimiter? || s.KeyValueDelimiter?
  }

  /** The state once the value that `s` expects was read. */
  function AfterValue(s: State): State {
    if s.Start? then Finish else Resume(s)
  }

  lemma NoValueHere(c: Client, t: Bytes, i: nat, log: seq<Event>)
    requires i <= |t|
    requires Peek(t, i) in {0, RIGHT_BRACKET, RIGHT_BRACE, COMMA, COLON}
    ensures ParseValue(c, t, i, log) == Failed(log)
  {
  }

  /** A value that is not a container takes one round. */
  lemma ScalarAgrees(c: Client, t: Bytes, state: State, stack: Stack, i: nat, log: seq<Event>)
    requires Fits(state, stack) && ExpectsValue(state) && i < |t|
    requires Peek(t, i) !in {0, LEFT_BRACKET, LEFT_BRACE, RIGHT_BRACKET, RIGHT_BRACE, COMMA, COLON}
    ensures Run(c, t, state, stack, i, log) == After(c, t, ParseValue(c, t, i, log), AfterValue(state), stack)
  {
    hide Run, ParseValue;
    assert IsScalarToken(Tokenize(Peek(t, i)));
    RunByRound(c, t, state, stack, i, log,
               Transit(c, t, state, Predict(state, Tokenize(Peek(t, i))), stack, i, log));
  }

  /** Where no value can start, the run stops as well. */
  lemma NonValueAgrees(c: Client, t: Bytes, state: State, stack: Stack, i: nat, log: seq<Event>)
    requires Fits(state, stack) && ExpectsValue(state) && i <= |t|
    requires state.ArrayInitial? ==> Peek(t, i) != RIGHT_BRACKET
    requires Peek(t, i) in {0, RIGHT_BRACKET, RIGHT_BRACE, COMMA, COLON}
    ensures Run(c, t, state, stack, i, log) == Failed(log) == ParseValue(c, t, i, log)
  {
    hide Run;
    NoValueHere(c, t, i, log);
    if Peek(t, i) == 0 {
      RunEnds(c, t, state, stack, i, log);
    } else {
      RunByRound(c, t, state, stack, i, log,
                 Transit(c, t, state, Predict(state, Tokenize(Peek(t, i))), stack, i, log));
    }
  }

  /** Where a value is expected, the run reads what ParseValue reads. */
  lemma {:induction false} ValueAgrees(c: Client, t: Bytes, state: State, stack: Stack, i: nat, log: seq<Event>)
    requires Fits(state, stack) && ExpectsValue(state) && i <= |t|
    requires state.ArrayInitial? ==> Peek(t, i) != RIGHT_BRACKET
    ensures Run(c, t, state, stack, i, log) == After(c, t, ParseValue(c, t, i, log), AfterValue(state), stack)
    decreases |t| - i, 2
  {
    hide Run, ParseArray, ParseObject, ParseScalar;
    var ch := Peek(t, i);
    if ch in {0, RIGHT_BRACKET, RIGHT_BRACE, COMMA, COLON} {
      NonValueAgrees(c, t, state, stack, i, log);
    } else if ch == LEFT_BRACKET {
      ArrayAgrees(c, t, state, stack, i, log);
    } else if ch == LEFT_BRACE {
      ObjectAgrees(c, t, state, stack, i, log);
    } else {
      ScalarAgrees(c, t, state, stack, i, log);
    }
  }

  lemma PushPops(stack: Stack, state: State)
    requires Fits(state, stack) && ExpectsValue(state)
    ensures Fits(ArrayInitial, Pushed(stack, state)) && Fits(ObjectInitial, Pushed(stack, state))
    ensures Pop(Pushed(stack, state)) == stack && Closed(Pushed(stack, state)) == AfterValue(state)
  {
    forall k | 0 <= k <= |stack|
      ensures FrameOk(Pushed(stack, state), k)
    {
      if k < |stack| {
        assert FrameOk(stack, k);
      }
    }
  }

  lemma CloseFits(stack: Stack, state: State)
    requires Fits(state, stack) && |stack| > 0
    ensures Fits(Closed(stack), Pop(stack))
  {
    assert FrameOk(stack, |stack| - 1);
    forall k | 0 <= k < |stack| - 1
      ensures FrameOk(Pop(stack), k)
    {
      assert FrameOk(stack, k);
    }
  }

  lemma CountFits(stack: Stack, state: State, next: State)
    requires Fits(state, stack) && |stack| > 0 && (InArray(next) || InObject(next))
    ensures Fits(next, CountOne(stack)) && Fits(next, stack)
    ensures Pop(CountOne(stack)) == Pop(stack) && Closed(CountOne(stack)) == Closed(stack)
    ensures Top(CountOne(stack)).count == Top(stack).count + 1
  {
    forall k | 0 <= k < |stack|
      ensures FrameOk(CountOne(stack), k)
    {
      assert FrameOk(stack, k);
    }
  }

  /** One round of the loop. */
  lemma RunByRound(c: Client, t: Bytes, state: State, stack: Stack, i: nat, log: seq<Event>, r: Transition)
    requires Fits(state, stack) && i < |t| && Peek(t, i) != 0
    requires r == Transit(c, t, state, Predict(state, Tokenize(Peek(t, i))), stack, i, log)
    ensures r.Go? ==> Fits(r.state, r.stack) && r.at <= |t|
    ensures r.Go? ==> Run(c, t, state, stack, i, log) == Run(c, t, r.state, r.stack, SkipSpace(t, r.at), r.log)
    ensures r.Stop? ==> Run(c, t, state, stack, i, log) == Failed(r.log)
  {
    TransitAdvances(c, t, state, Predict(state, Tokenize(Peek(t, i))), stack, i, log);
  }

  /** The run after an element. */
  lemma ElementRounds(c: Client, t: Bytes, stack: Stack, j: nat, log: seq<Event>)
    requires Fits(Element, stack) && j <= |t|
    ensures Fits(ElementDelimiter, CountOne(stack)) && Fits(Closed(stack), Pop(stack))
    ensures var end := Run(c, t, Element, stack, j, log);
            if Peek(t, j) == COMMA then
              end == Run(c, t, ElementDelimiter, CountOne(stack), SkipSpace(t, j + 1), log)
            else if Peek(t, j) == RIGHT_BRACKET then
              end == After(c, t, Emit(c, log, EndArray(Top(stack).count + 1), j + 1), Closed(stack), Pop(stack))
            else
              end == Failed(log)
  {
    hide Run;
    CountFits(stack, Element, ElementDelimiter);
    CloseFits(stack, Element);
    if Peek(t, j) == 0 {
      RunEnds(c, t, Element, stack, j, log);
    } else {
      RunByRound(c, t, Element, stack, j, log,
                 Transit(c, t, Element, Predict(Element, Tokenize(Peek(t, j))), stack, j, log));
    }
  }

  /** The run after a member value. */
  lemma MemberRounds(c: Client, t: Bytes, stack: Stack, j: nat, log: seq<Event>)
    requires Fits(MemberValue, stack) && j <= |t|
    ensures Fits(MemberDelimiter, CountOne(stack)) && Fits(Closed(stack), Pop(stack))
    ensures var end := Run(c, t, MemberValue, stack, j, log);
            if Peek(t, j) == COMMA then
              end == Run(c, t, MemberDelimiter, CountOne(stack), SkipSpace(t, j + 1), log)
            else if Peek(t, j) == RIGHT_BRACE then
              end == After(c, t, Emit(c, log, EndObject(Top(stack).count + 1), j + 1), Closed(stack), Pop(stack))
            else
              end == Failed(log)
  {
    hide Run;
    CountFits(stack, MemberValue, MemberDelimiter);
    CloseFits(stack, MemberValue);
    if Peek(t, j) == 0 {
      RunEnds(c, t, MemberValue, stack, j, log);
    } else {
      RunByRound(c, t, MemberValue, stack, j, log,
                 Transit(c, t, MemberValue, Predict(MemberValue, Tokenize(Peek(t, j))), stack, j, log));
    }
  }

  lemma RunAtEnd(c: Client, t: Bytes, state: State, stack: Stack, i: nat, log: seq<Event>)
    requires Fits(state, stack) && i <= |t| && Peek(t, i) == 0
    ensures Run(c, t, state, stack, i, log) == if state.Finish? then Ok(i, log) else Failed(log)
  {
  }

  lemma RunEnds(c: Client, t: Bytes, state: State, stack: Stack, i: nat, log: seq<Event>)
    requires Fits(state, stack) && i <= |t| && Peek(t, i) == 0 && !state.Finish?
    ensures Run(c, t, state, stack, i, log) == Failed(log)
  {
  }

  /** The run at an opening bracket where a value is expected. */
  lemma OpeningRounds(c: Client, t: Bytes, state: State, stack: Stack, i: nat, log: seq<Event>)
    requires Fits(state, stack) && ExpectsValue(state) && i < |t|
    ensures Fits(ArrayInitial, Pushed(stack, state)) && Fits(ObjectInitial, Pushed(stack, state))
    ensures Peek(t, i) == LEFT_BRACKET ==>
              Run(c, t, state, stack, i, log)
              == After(c, t, Emit(c, log, StartArray, i + 1), ArrayInitial, Pushed(stack, state))
    ensures Peek(t, i) == LEFT_BRACE ==>
              Run(c, t, state, stack, i, log)
              == After(c, t, Emit(c, log, StartObject, i + 1), ObjectInitial, Pushed(stack, state))
  {
    hide Run;
    PushPops(stack, state);
    if Peek(t, i) != 0 {
      RunByRound(c, t, state, stack, i, log,
                 Transit(c, t, state, Predict(state, Tokenize(Peek(t, i))), stack, i, log));
    }
  }

  /** The run at the closing bracket of an empty container. */
  lemma EmptyRounds(c: Client, t: Bytes, stack: Stack, j: nat, log: seq<Event>)
    requires Fits(ArrayInitial, stack) && Fits(ObjectInitial, stack) && j <= |t|
    ensures Fits(Closed(stack), Pop(stack))
    ensures Peek(t, j) == RIGHT_BRACKET ==>
              Run(c, t, ArrayInitial, stack, j, log)
              == After(c, t, Emit(c, log, EndArray(Top(stack).count), j + 1), Closed(stack), Pop(stack))
    ensures Peek(t, j) == RIGHT_BRACE ==>
              Run(c, t, ObjectInitial, stack, j, log)
              == After(c, t, Emit(c, log, EndObject(Top(stack).count), j + 1), Closed(stack), Pop(stack))
  {
    hide Run;
    CloseFits(stack, ArrayInitial);
    if Peek(t, j) == RIGHT_BRACKET {
      RunByRound(c, t, ArrayInitial, stack, j, log, Transit(c, t, ArrayInitial, ArrayFinish, stack, j, log));
    } else if Peek(t, j) == RIGHT_BRACE {
      RunByRound(c, t, ObjectInitial, stack, j, log, Transit(c, t, ObjectInitial, ObjectFinish, stack, j, log));
    }
  }

  lemma {:induction false} ArrayAgrees(c: Client, t: Bytes, state: State, stack: Stack, i: nat, log: seq<Event>)
    requires Fits(state, stack) && ExpectsValue(state) && i < |t| && Peek(t, i) == LEFT_BRACKET
    ensures Run(c, t, state, stack, i, log) == After(c, t, ParseArray(c, t, i, log), AfterValue(state), stack)
    decreases |t| - i, 1
  {
    hide Run, ParseElements;
    OpeningRounds(c, t, state, stack, i, log);
    PushPops(stack, state);
    var start := Emit(c, log, StartArray, i + 1);
    if start.Ok? {
      var inner, j := Pushed(stack, state), SkipSpace(t, i + 1);
      if Peek(t, j) == RIGHT_BRACKET {
        EmptyRounds(c, t, inner, j, start.log);
      } else {
        ElementsAgree(c, t, ArrayInitial, inner, j, 0, start.log);
      }
    }
  }

  lemma {:induction false} ElementsAgree(c: Client, t: Bytes, state: State, stack: Stack, i: nat, count: nat,
                                         log: seq<Event>)
    requires Fits(state, stack) && (state.ArrayInitial? || state.ElementDelimiter?) && i <= |t|
    requires state.ArrayInitial? ==> Peek(t, i) != RIGHT_BRACKET
    requires Top(stack).count == count && Fits(Closed(stack), Pop(stack))
    ensures Run(c, t, state, stack, i, log)
         == After(c, t, ParseElements(c, t, i, count, log), Closed(stack), Pop(stack))
    decreases |t| - i, 3
  {
    hide Run, ParseValue, ParseElements;
    ElementsByRound(c, t, i, count, log);
    ValueAgrees(c, t, state, stack, i, log);
    var v := ParseValue(c, t, i, log);
    if v.Ok? {
      CountFits(stack, state, Element);
      var j := SkipSpace(t, v.at);
      ElementRounds(c, t, stack, j, v.log);
      if Peek(t, j) == COMMA {
        CountFits(stack, Element, ElementDelimiter);
        ElementsAgree(c, t, ElementDelimiter, CountOne(stack), SkipSpace(t, j + 1), count + 1, v.log);
      }
    }
  }

  lemma {:induction false} ObjectAgrees(c: Client, t: Bytes, state: State, stack: Stack, i: nat, log: seq<Event>)
    requires Fits(state, stack) && ExpectsValue(state) && i < |t| && Peek(t, i) == LEFT_BRACE
    ensures Run(c, t, state, stack, i, log) == After(c, t, ParseObject(c, t, i, log), AfterValue(state), stack)
    decreases |t| - i, 1
  {
    hide Run, ParseMembers;
    OpeningRounds(c, t, state, stack, i, log);
    PushPops(stack, state);
    var start := Emit(c, log, StartObject, i + 1);
    if start.Ok? {
      var inner, j := Pushed(stack, state), SkipSpace(t, i + 1);
      if Peek(t, j) == RIGHT_BRACE {
        EmptyRounds(c, t, inner, j, start.log);
      } else {
        MembersAgree(c, t, ObjectInitial, inner, j, 0, start.log);
      }
    }
  }

  lemma NameAgrees(c: Client, t: Bytes, state: State, stack: Stack, i: nat, log: seq<Event>)
    requires Fits(state, stack) && (state.ObjectInitial? || state.MemberDelimiter?) && i <= |t|
    requires state.ObjectInitial? ==> Peek(t, i) != RIGHT_BRACE
    ensures Fits(KeyValueDelimiter, stack)
    ensures var name := ParseName(c, t, i, log);
            && (name.Ok? ==> Run(c, t, state, stack, i, log) == Run(c, t, KeyValueDelimiter, stack, name.at, name.log))
            && (name.Failed? ==> Run(c, t, state, stack, i, log) == name)
  {
    hide Run;
    if Peek(t, i) == 0 {
      RunEnds(c, t, state, stack, i, log);
    } else {
      RunByRound(c, t, state, stack, i, log,
                 Transit(c, t, state, Predict(state, Tokenize(Peek(t, i))), stack, i, log));
      if Peek(t, i) == QUOTE {
        var name := ParseString(c, t, i, true, log);
        if name.Ok? {
          ColonAgrees(c, t, stack, SkipSpace(t, name.at), name.log);
        }
      }
    }
  }

  lemma ColonAgrees(c: Client, t: Bytes, stack: Stack, j: nat, log: seq<Event>)
    requires Fits(MemberKey, stack) && j <= |t|
    ensures Fits(KeyValueDelimiter, stack)
    ensures Run(c, t, MemberKey, stack, j, log)
         == if Peek(t, j) == COLON then Run(c, t, KeyValueDelimiter, stack, SkipSpace(t, j + 1), log) else Failed(log)
  {
    hide Run;
    if Peek(t, j) == 0 {
      RunEnds(c, t, MemberKey, stack, j, log);
    } else {
      RunByRound(c, t, MemberKey, stack, j, log,
                 Transit(c, t, MemberKey, Predict(MemberKey, Tokenize(Peek(t, j))), stack, j, log));
    }
  }

  lemma {:induction false} MembersAgree(c: Client, t: Bytes, state: State, stack: Stack, i: nat, count: nat,
                                        log: seq<Event>)
    requires Fits(state, stack) && (state.ObjectInitial? || state.MemberDelimiter?) && i <= |t|
    requires state.ObjectInitial? ==> Peek(t, i) != RIGHT_BRACE
    requires Top(stack).count == count && Fits(Closed(stack), Pop(stack))
    ensures Run(c, t, state, stack, i, log)
         == After(c, t, ParseMembers(c, t, i, count, log), Closed(stack), Pop(stack))
    decreases |t| - i, 3
  {
    hide Run, ParseName;
    NameAgrees(c, t, state, stack, i, log);
    var name := ParseName(c, t, i, log);
    if name.Ok? {
      MemberValueAgrees(c, t, stack, name.at, count, name.log);
    }
  }

  lemma {:induction false} MemberValueAgrees(c: Client, t: Bytes, stack: Stack, i: nat, count: nat, log: seq<Event>)
    requires Fits(KeyValueDelimiter, stack) && i <= |t|
    requires Top(stack).count == count && Fits(Closed(stack), Pop(stack))
    ensures Run(c, t, KeyValueDelimiter, stack, i, log)
         == After(c, t, ParseMemberValue(c, t, i, count, log), Closed(stack), Pop(stack))
    decreases |t| - i, 3
  {
    hide Run, ParseValue, ParseMembers, ParseMemberValue, CountOne, FrameOk;
    MemberValueByRound(c, t, i, count, log);
    ValueAgrees(c, t, KeyValueDelimiter, stack, i, log);
    var v := ParseValue(c, t, i, log);
    if v.Ok? {
      CountFits(stack, KeyValueDelimiter, MemberValue);
      var j := SkipSpace(t, v.at);
      MemberRounds(c, t, stack, j, v.log);
      if Peek(t, j) == COMMA {
        CountFits(stack, MemberValue, MemberDelimiter);
        MembersAgree(c, t, MemberDelimiter, CountOne(stack), SkipSpace(t, j + 1), count + 1, v.log);
      }
    }
  }

  /**
   * Main result: for every text and every handler, the two parsers accept or reject together and
   * send the same events, those before an error included.
   */
  lemma ParsersAgree(c: Client, t: Bytes)
    ensures IterativeParse(c, t) == Parse(c, t)
  {
    var i := SkipSpace(t, 0);
    ValueAgrees(c, t, Start, [], i, []);
    NoValueHereAtEnd(c, t, i);
  }

  lemma NoValueHereAtEnd(c: Client, t: Bytes, i: nat)
    requires i <= |t|
    ensures Peek(t, i) == 0 ==> ParseValue(c, t, i, []) == Failed([])
  {
    if Peek(t, i) == 0 {
      NoValueHere(c, t, i, []);
    }
  }
}
