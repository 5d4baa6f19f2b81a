/** The events that a reader sends to its handler (libs/rapidjson/rapidjson/reader.h:164-228). */
module JsonEvents {
  import opened JsonText

  datatype Event =
    | Null
    | Bool(b: bool)
    | Int(n: int)
    | Uint(n: int)
    | Int64(n: int)
    | Uint64(n: int)
      // a number with a fraction, an exponent or too many digits; its value is a function of `lexeme`
    | Double(lexeme: Bytes)
    | String(s: Bytes)
    | Key(s: Bytes)
    | StartObject
    | EndObject(count: nat)
    | StartArray
    | EndArray(count: nat)

  /**
   * What the reader cannot see: whether the handler answers the last event of the log with true, and
   * whether the floating point conversion of a number literal overflows.
   */
  datatype Client = Client(accepts: seq<Event> -> bool, tooBig: Bytes -> bool)

  /** How parsing something ended: the position after it, or an error; and the events so far. */
  datatype Outcome =
    | Ok(at: nat, log: seq<Event>)
    | Failed(log: seq<Event>)

  /** Send `e` to the handler; on success go on from `at`. */
  function Emit(c: Client, log: seq<Event>, e: Event, at: nat): Outcome {
    if c.accepts(log + [e]) then Ok(at, log + [e]) else Failed(log + [e])
  }
}

/**
 * Number literals (libs/rapidjson/rapidjson/reader.h:1440-1727): their extent by the grammar, and the
 * number that an integer literal is reported as. Also the decimal printing of integers, which
 * libs/rapidjson/rapidjson/internal/itoa.h provides; that file is not part of this model, and its
 * output is taken to be the canonical decimal numeral.
 */
module JsonNumber {
  import opened JsonText
  import opened JsonEvents

  const MINUS: byte := 0x2D
  const ZERO: byte := 0x30
  const DOT: byte := 0x2E

  predicate IsDigit(c: byte) {
    0x30 <= c <= 0x39
  }

  function DigitValue(c: byte): (d: nat)
    requires IsDigit(c)
    ensures d < 10
  {
    c as int - 0x30
  }

  function DigitsEnd(t: Bytes, i: nat): (j: nat)
    requires i <= |t|
    ensures i <= j <= |t| && !IsDigit(Peek(t, j))
    ensures forall k :: i <= k < j ==> IsDigit(t[k])
    ensures IsDigit(Peek(t, i)) ==> i < j
    decreases |t| - i
  {
    if IsDigit(Peek(t, i)) then DigitsEnd(t, i + 1) else i
  }

  /** The number that the digits t[i..j] spell. */
  function Value(t: Bytes, i: nat, j: nat): (v: nat)
    requires i <= j <= |t|
    requires forall k :: i <= k < j ==> IsDigit(t[k])
  {
    if i == j then 0 else Value(t, i, j - 1) * 10 + DigitValue(t[j - 1])
  }

  // ---------------------------------------------------------------- the extent of a literal

  /** The end of `zero / (digit1-9 *DIGIT)` at `i`; `i` itself when there is none. */
  function IntegerEnd(t: Bytes, i: nat): (j: nat)
    requires i <= |t|
    ensures i <= j <= |t|
    ensures forall k :: i <= k < j ==> IsDigit(t[k])
  {
    if Peek(t, i) == ZERO then i + 1 else DigitsEnd(t, i)
  }

  /** The end of an optional fraction at `i`, or None for a point without digits. */
  function FractionEnd(t: Bytes, i: nat): (j: int)
    requires i <= |t|
    ensures j == -1 || i <= j <= |t|
  {
    if Peek(t, i) != DOT then i
    else if IsDigit(Peek(t, i + 1)) then DigitsEnd(t, i + 1)
    else -1
  }

  predicate IsExponentMark(c: byte) { c == 0x65 || c == 0x45 }

  predicate IsSign(c: byte) { c == 0x2B || c == 0x2D }

  /** The end of an optional exponent at `i`, or -1 for a mark without digits. */
  function ExponentEnd(t: Bytes, i: nat): (j: int)
    requires i <= |t|
    ensures j == -1 || i <= j <= |t|
  {
    if !IsExponentMark(Peek(t, i)) then i
    else
      var d := if IsSign(Peek(t, i + 1)) then i + 2 else i + 1;
      if IsDigit(Peek(t, d)) then DigitsEnd(t, d) else -1
  }

  // ---------------------------------------------------------------- what is reported

  const TWO_31: int := 0x8000_0000
  const TWO_32: int := 0x1_0000_0000
  const TWO_63: int := 0x8000_0000_0000_0000
  const TWO_64: int := 0x1_0000_0000_0000_0000

  /** The narrowest report of an integer literal, None when it does not fit 64 bits. */
  datatype Integer = Fits(e: Event) | TooWide

  function Narrowest(minus: bool, v: nat): Integer {
    if minus then
      if v <= TWO_31 then Fits(Int(-(v as int)))
      else if v <= TWO_63 then Fits(Int64(-(v as int)))
      else TooWide
    else
      if v < TWO_32 then Fits(Uint(v))
      else if v < TWO_64 then Fits(Uint64(v))
      else TooWide
  }

  function ParseNumber(c: Client, t: Bytes, i: nat, log: seq<Event>): (r: Outcome)
    requires i <= |t|
    ensures r.Ok? ==> i < r.at <= |t|
  {
    if Peek(t, i) == MINUS then ParseDigits(c, t, i, true, i + 1, log) else ParseDigits(c, t, i, false, i, log)
  }

  /** The literal at `i` whose first digit is expected at `start`. */
  function ParseDigits(c: Client, t: Bytes, i: nat, minus: bool, start: nat, log: seq<Event>): (r: Outcome)
    requires i <= start <= |t|
    ensures r.Ok? ==> start < r.at <= |t|
  {
    var end := IntegerEnd(t, start);
    if end == start then
      Failed(log)
    else
      var fraction := FractionEnd(t, end);
      if fraction == -1 then
        Failed(log)
      else
        var exponent := ExponentEnd(t, fraction);
        if exponent == -1 then
          Failed(log)
        else
          var n := Narrowest(minus, Value(t, start, end));
          if exponent == end && n.Fits? then
            Emit(c, log, n.e, end)
          else if c.tooBig(t[i..exponent]) then
            Failed(log)
          else
            Emit(c, log, Double(t[i..exponent]), exponent)
  }

  /**
   * Main result: a literal without fraction and exponent is reported with its exact value in the narrowest
   * form of its sign, and as a double exactly when it does not fit 64 bits.
   */
  lemma ReportIsExactAndNarrowest(c: Client, t: Bytes, i: nat, start: nat, end: nat, log: seq<Event>)
    requires i < |t| && start == (if t[i] == MINUS then i + 1 else i)
    requires start < end == IntegerEnd(t, start) && Peek(t, end) != DOT && !IsExponentMark(Peek(t, end))
    ensures var v: int := Value(t, start, end);
            var n := if t[i] == MINUS then -v else v;
            ParseNumber(c, t, i, log) ==
              if t[i] == MINUS && -TWO_31 <= n then Emit(c, log, Int(n), end)
              else if t[i] == MINUS && -TWO_63 <= n then Emit(c, log, Int64(n), end)
              else if t[i] != MINUS && n < TWO_32 then Emit(c, log, Uint(n), end)
              else if t[i] != MINUS && n < TWO_64 then Emit(c, log, Uint64(n), end)
              else if c.tooBig(t[i..end]) then Failed(log)
              else Emit(c, log, Double(t[i..end]), end)
  {
    hide Value, IntegerEnd, Emit;
    assert FractionEnd(t, end) == end && ExponentEnd(t, end) == end;
  }

  // ---------------------------------------------------------------- printing

  /** The canonical decimal numeral of `v`. */
  function Numeral(v: nat): (w: Bytes)
    ensures |w| > 0
    ensures forall k :: 0 <= k < |w| ==> IsDigit(w[k])
    ensures w[0] == ZERO ==> v == 0 && |w| == 1
  {
    if v < 10 then [0x30 + v] else Numeral(v / 10) + [0x30 + v % 10]
  }

  function Signed(n: int): Bytes {
    if n < 0 then [MINUS] + Numeral(-n) else Numeral(n)
  }

  lemma DigitsEndIs(t: Bytes, i: nat, j: nat)
    requires i <= j <= |t|
    requires forall k :: i <= k < j ==> IsDigit(t[k])
    requires !IsDigit(Peek(t, j))
    ensures DigitsEnd(t, i) == j
    decreases j - i
  {
    if i < j {
      DigitsEndIs(t, i + 1, j);
    }
  }

  lemma {:induction false} NumeralHasValue(v: nat, t: Bytes, i: nat)
    requires Occurs(Numeral(v), t, i)
    ensures forall k :: i <= k < i + |Numeral(v)| ==> IsDigit(t[k])
    ensures Value(t, i, i + |Numeral(v)|) == v
  {
    var w := Numeral(v);
    forall k | i <= k < i + |w|
      ensures t[k] == w[k - i]
    {
      OccursAt(w, t, i, k - i);
    }
    if v >= 10 {
      OccursSplit(Numeral(v / 10), [0x30 + v % 10], t, i);
      NumeralHasValue(v / 10, t, i);
    }
  }

  /** How a printed integer comes back: a 64-bit integer as the narrowest report of its value. */
  function Reported(n: int): Event {
    if n < -TWO_31 then Int64(n)
    else if n < 0 then Int(n)
    else if n < TWO_32 then Uint(n)
    else Uint64(n)
  }

  /** Characters that cannot continue an integer literal. */
  predicate EndsNumber(c: byte) {
    !IsDigit(c) && c != DOT && !IsExponentMark(c)
  }

  lemma NumeralIsRead(t: Bytes, i: nat, v: nat)
    requires Occurs(Numeral(v), t, i) && EndsNumber(Peek(t, i + |Numeral(v)|))
    ensures i < IntegerEnd(t, i) == i + |Numeral(v)| <= |t|
    ensures IsDigit(Peek(t, i)) && Value(t, i, IntegerEnd(t, i)) == v
  {
    var w := Numeral(v);
    OccursAt(w, t, i, 0);
    NumeralHasValue(v, t, i);
    DigitsEndIs(t, i, i + |w|);
  }

  lemma DigitsAreRead(c: Client, t: Bytes, i: nat, minus: bool, start: nat, v: nat, log: seq<Event>)
    requires i <= start && Occurs(Numeral(v), t, start) && EndsNumber(Peek(t, start + |Numeral(v)|))
    requires Narrowest(minus, v).Fits?
    ensures ParseDigits(c, t, i, minus, start, log)
         == Emit(c, log, Narrowest(minus, v).e, start + |Numeral(v)|)
    ensures IsDigit(Peek(t, start))
  {
    NumeralIsRead(t, start, v);
  }

  /** Reading undoes printing, for every integer of 64 bits. */
  lemma PrintedIntegerIsRead(c: Client, n: int, t: Bytes, i: nat, log: seq<Event>)
    requires -TWO_63 <= n < TWO_64
    requires Occurs(Signed(n), t, i) && EndsNumber(Peek(t, i + |Signed(n)|))
    ensures ParseNumber(c, t, i, log) == Emit(c, log, Reported(n), i + |Signed(n)|)
    ensures Peek(t, i) == MINUS || IsDigit(Peek(t, i))
  {
    if n < 0 {
      OccursSplit([MINUS], Numeral(-n), t, i);
      OccursAt([MINUS], t, i, 0);
      DigitsAreRead(c, t, i, true, i + 1, -n, log);
    } else {
      DigitsAreRead(c, t, i, false, i, n, log);
    }
  }
}
