/**
 * The reader of libs/rapidjson/rapidjson/reader.h as it works: one object with cursors into a buffer,
 * which parses a text recursively or by the transition table, and copies the strings it decodes or
 * decodes them in place (lines 556-1054, 1440-1749, 1965-2208; the stream cursors are those of
 * libs/rapidjson/rapidjson/stream.h:152-211).
 *
 * Main results, for both modes: Parse and IterativeParse send the events of RecursiveParser.Parse;
 * decoding in place never writes at or beyond the read cursor, leaves all unread text alone, and every
 * string handed to the handler still stands in the buffer at the end, with its terminator.
 */
module JsonReader {
  import opened JsonText
  import opened JsonEvents
  import opened JsonString
  import opened JsonNumber
  import opened RecursiveParser
  import I = IterativeParser
  import Utf8

  newtype uint32 = x: int | 0 <= x < 0x1_0000_0000
  newtype uint64 = x: int | 0 <= x < 0x1_0000_0000_0000_0000

  /** What the handler is given: a string decoded in place is a place in the buffer. */
  datatype Delivered =
    | Plain(e: Event)
    | Slice(isKey: bool, head: nat, length: nat)

  predicate InBuffer(b: Bytes, d: Delivered) {
    d.Slice? ==> d.head + d.length <= |b|
  }

  /** The event that the handler sees in `d` when the buffer holds `b`. */
  function View(b: Bytes, d: Delivered): Event
    requires InBuffer(b, d)
  {
    match d
    case Plain(e) => e
    case Slice(isKey, head, length) =>
      if isKey then Key(b[head..head + length]) else String(b[head..head + length])
  }

  /** `d` shows `e`; a slice lies before `limit`, terminator included. */
  predicate Held(b: Bytes, d: Delivered, e: Event, limit: nat) {
    && (d.Slice? ==> d.head + d.length < limit <= |b| && b[d.head + d.length] == 0)
    && View(b, d) == e
  }

  predicate AllHeld(b: Bytes, log: seq<Delivered>, events: seq<Event>, limit: nat) {
    && |log| == |events|
    && forall k :: 0 <= k < |log| ==> Held(b, log[k], events[k], limit)
  }

  lemma HeldStays(b: Bytes, b': Bytes, log: seq<Delivered>, events: seq<Event>, limit: nat, limit': nat)
    requires AllHeld(b, log, events, limit)
    requires limit <= limit' <= |b| == |b'| && b[..limit] == b'[..limit]
    ensures AllHeld(b', log, events, limit')
  {
    forall k | 0 <= k < |log|
      ensures Held(b', log[k], events[k], limit')
    {
      assert Held(b, log[k], events[k], limit);
      var d := log[k];
      if d.Slice? {
        SameSlice(b, b', d.head, d.head + d.length, limit);
      }
    }
  }

  lemma TerminatedSlice(b: Bytes, head: nat, end: nat)
    requires head < end <= |b|
    ensures b[head..end] == b[head..end - 1] + [b[end - 1]]
  {
  }

  lemma SameSlice(b: Bytes, b': Bytes, from: nat, to: nat, limit: nat)
    requires from <= to < limit <= |b| == |b'| && b[..limit] == b'[..limit]
    ensures b[from..to] == b'[from..to] && b[to] == b'[to]
  {
    forall m | from <= m <= to
      ensures b[m] == b'[m]
    {
      assert b[..limit][m] == b'[..limit][m];
    }
  }

  lemma HeldAreViews(b: Bytes, log: seq<Delivered>, events: seq<Event>, limit: nat)
    requires AllHeld(b, log, events, limit)
    ensures forall k :: 0 <= k < |log| ==> InBuffer(b, log[k]) && View(b, log[k]) == events[k]
  {
    forall k | 0 <= k < |log|
      ensures InBuffer(b, log[k]) && View(b, log[k]) == events[k]
    {
      assert Held(b, log[k], events[k], limit);
    }
  }

  class Reader {
    const client: Client
    const insitu: bool
    const buf: array<byte>
    ghost const text: Bytes
    var src: nat
    var dst: nat
    var scratch: Bytes
    var stack: I.Stack
    var log: seq<Delivered>
    ghost var events: seq<Event>

    constructor (client: Client, insitu: bool, buf: array<byte>)
      ensures Valid() && this.client == client && this.insitu == insitu && this.buf == buf
      ensures text == buf[..] && src == 0 && events == [] && stack == []
    {
      this.client, this.insitu, this.buf, this.text := client, insitu, buf, buf[..];
      src, dst, scratch, stack, log, events := 0, 0, [], [], [], [];
    }

    /** The unread text is as it was, and everything delivered so far stands before the read cursor. */
    ghost predicate Valid()
      reads this, buf
    {
      && Unread()
      && AllHeld(buf[..], log, events, src)
    }

    ghost predicate Unread()
      reads this, buf
    {
      && |text| == buf.Length && src <= |text|
      && buf[src..] == text[src..]
      && (!insitu ==> buf[..] == text)
    }

    /** The outcome of a parsing method that just returned `ok`. */
    ghost function Result(ok: bool): Outcome
      reads this
    {
      if ok then Ok(src, events) else Failed(events)
    }

    // -------------------------------------------------------------- the stream

    function Here(): (c: byte)
      requires Unread()
      reads this, buf
      ensures c == Peek(text, src)
    {
      assert src < |text| ==> buf[src] == buf[src..][0] == text[src..][0];
      if src < buf.Length then buf[src] else 0
    }

    method Take() returns (c: byte)
      requires Unread() && src < |text|
      modifies this`src
      ensures Unread() && src == old(src) + 1 && c == Peek(text, old(src))
    {
      c := Here();
      assert buf[src..][1..] == text[src..][1..];
      src := src + 1;
    }

    /** Reading on keeps what was delivered. */
    twostate lemma TookOn()
      requires old(Valid()) && Unread() && old(src) <= src
      requires unchanged(`log) && unchanged(`events) && unchanged(buf)
      ensures Valid()
    {
      HeldStays(old(buf[..]), buf[..], log, events, old(src), src);
    }

    /** What was taken without writing is the text. */
    twostate lemma TookText()
      requires old(Unread()) && Unread() && old(src) <= src && unchanged(buf)
      ensures buf[old(src)..src] == text[old(src)..src]
    {
      forall m | old(src) <= m < src
        ensures buf[m] == text[m]
      {
        assert old(buf[src..])[m - old(src)] == text[old(src)..][m - old(src)];
      }
    }

    method Consume(wanted: byte) returns (ok: bool)
      requires Unread() && wanted != 0
      modifies this`src
      ensures Unread() && ok == (Peek(text, old(src)) == wanted)
      ensures src == if ok then old(src) + 1 else old(src)
    {
      ok := Here() == wanted;
      if ok {
        var _ := Take();
      }
    }

    method SkipWhitespace()
      requires Valid()
      modifies this`src
      ensures Valid() && src == SkipSpace(text, old(src))
    {
      while IsSpace(Here())
        invariant Unread() && old(src) <= src
        invariant SkipSpace(text, src) == SkipSpace(text, old(src))
        decreases |text| - src
      {
        var _ := Take();
      }
      TookOn();
    }

    // -------------------------------------------------------------- the handler

    function Views(): (es: seq<Event>)
      requires forall k :: 0 <= k < |log| ==> InBuffer(buf[..], log[k])
      reads this, buf
    {
      seq(|log|, k requires 0 <= k < |log| reads this, buf requires InBuffer(buf[..], log[k]) => View(buf[..], log[k]))
    }

    /** Send an event; the handler answers for everything it was sent, as it sees it now. */
    method Deliver(d: Delivered, ghost e: Event) returns (ok: bool)
      requires Valid() && Held(buf[..], d, e, src)
      modifies this`log, this`events
      ensures Valid() && events == old(events) + [e]
      ensures ok == client.accepts(events)
    {
      log := log + [d];
      events := events + [e];
      assert forall k :: 0 <= k < |log| ==> Held(buf[..], log[k], events[k], src);
      assert Views() == events;
      ok := client.accepts(Views());
    }

    method Send(e: Event) returns (ok: bool)
      requires Valid()
      modifies this`log, this`events
      ensures Valid() && events == old(events) + [e]
      ensures ok == client.accepts(events)
    {
      ok := Deliver(Plain(e), e);
    }

    // -------------------------------------------------------------- words

    method ParseWord(word: Bytes, e: Event) returns (ok: bool)
      requires Valid() && |word| > 0 && Here() == word[0] && forall k :: 0 <= k < |word| ==> word[k] != 0
      modifies this`src, this`log, this`events
      ensures Valid()
      ensures Result(ok) == RecursiveParser.ParseWord(client, text, old(src), word, e, old(events))
    {
      ghost var start := src;
      var _ := Take();
      var k := 1;
      ok := true;
      while ok && k < |word|
        invariant 1 <= k <= |word| && Unread()
        invariant ok ==> src == start + k && text[start..start + k] == word[..k]
        invariant !ok ==> !Occurs(word, text, start)
        invariant start <= src && unchanged(`log) && unchanged(`events)
      {
        ok := Consume(word[k]);
        if !ok {
          if Occurs(word, text, start) { OccursAt(word, text, start, k); }
        } else {
          assert text[start..start + k + 1] == text[start..start + k] + [text[start + k]];
          assert word[..k + 1] == word[..k] + [word[k]];
          k := k + 1;
        }
      }
      TookOn();
      if ok {
        ok := Send(e);
      }
    }

    // -------------------------------------------------------------- strings

    /**
     * In the middle of a string that starts at `start`: `decoded` was written, in place or aside; the
     * write cursor has not passed the read cursor, and what was delivered stands before the string.
     */
    ghost predicate Decoding(start: nat, decoded: Bytes)
      reads this, buf
    {
      && Unread()
      && start + |decoded| <= src
      && AllHeld(buf[..], log, events, start)
      && (if insitu then dst == start + |decoded| && buf[start..dst] == decoded else scratch == decoded)
    }

    method Put(c: byte, ghost start: nat, ghost decoded: Bytes)
      requires Decoding(start, decoded) && start + |decoded| < src
      modifies this`dst, this`scratch, buf
      ensures Decoding(start, decoded + [c])
    {
      if insitu {
        ghost var before := buf[..];
        buf[dst] := c;
        assert buf[..] == before[dst := c];
        assert buf[src..] == before[src..];
        assert buf[..start] == before[..start];
        HeldStays(before, buf[..], log, events, start, start);
        dst := dst + 1;
        assert buf[start..dst] == decoded + [c];
      } else {
        scratch := scratch + [c];
      }
    }

    /** Put of every code unit of the UTF-8 encoding. */
    method PutEncoded(codepoint: nat, ghost start: nat, ghost decoded: Bytes)
      requires codepoint <= Utf8.LAST_CODE_POINT
      requires Decoding(start, decoded) && start + |decoded| + |Utf8.Encode(codepoint)| <= src
      modifies this`dst, this`scratch, buf
      ensures Decoding(start, decoded + Utf8.Encode(codepoint))
    {
      var w := Utf8.Encode(codepoint);
      var k := 0;
      assert decoded + w[..0] == decoded;
      while k < |w|
        invariant k <= |w| && Decoding(start, decoded + w[..k])
        invariant src == old(src)
      {
        Put(w[k], start, decoded + w[..k]);
        assert decoded + w[..k] + [w[k]] == decoded + w[..k + 1];
        k := k + 1;
      }
      assert w[..|w|] == w;
    }

    method ParseHex4() returns (ok: bool, codepoint: nat)
      requires Unread()
      modifies this`src
      ensures Unread() && old(src) <= src
      ensures ok <==> IsHex4(text, old(src))
      ensures ok ==> src == old(src) + 4 && codepoint == Hex4(text, old(src))
    {
      ghost var start := src;
      codepoint := 0;
      var i := 0;
      while i < 4
        invariant 0 <= i <= 4 && Unread() && src == start + i
        invariant forall k :: start <= k < start + i ==> IsHexDigit(Peek(text, k))
        invariant codepoint == HexPart(text, start, i)
      {
        var c := Here();
        if !IsHexDigit(c) {
          assert !IsHexDigit(Peek(text, start + i));
          return false, 0;
        }
        codepoint := codepoint * 16 + HexValue(c);
        var _ := Take();
        i := i + 1;
      }
      HexPartIsHex4(text, start);
      ok := true;
    }

    /** The escape at the backslash under the cursor. */
    method ParseEscape(ghost start: nat, ghost decoded: Bytes) returns (ok: bool, ghost piece: Bytes)
      requires Decoding(start, decoded) && src < |text| && Here() == BACKSLASH
      modifies this`src, this`dst, this`scratch, buf
      ensures ok ==> EscapedPiece(text, old(src)) == Decoded(piece, src) && Decoding(start, decoded + piece)
      ensures !ok ==> EscapedPiece(text, old(src)) == Malformed && Decoding(start, decoded)
    {
      hide CodeAt;
      piece := [];
      var _ := Take();
      var e := Here();
      if Unescaped(e) != 0 {
        var _ := Take();
        Put(Unescaped(e), start, decoded);
        return true, [Unescaped(e)];
      }
      if e != LETTER_U {
        return false, [];
      }
      var _ := Take();
      var codepoint;
      ok, codepoint := ParseUnicode();
      if !ok {
        return;
      }
      piece := Utf8.Encode(codepoint);
      PutEncoded(codepoint, start, decoded);
    }

    /** The digits of a numeric escape, and the second escape when they are a high surrogate. */
    method ParseUnicode() returns (ok: bool, codepoint: nat)
      requires Unread()
      modifies this`src
      ensures Unread() && old(src) <= src
      ensures CodeAt(text, old(src)) == if ok then Code(codepoint, src) else NoCode
    {
      ok, codepoint := ParseHex4();
      if ok && IsHighSurrogate(codepoint) {
        ok := Consume(BACKSLASH);
        if ok {
          ok := Consume(LETTER_U);
        }
        if !ok {
          return;
        }
        var codepoint2;
        ok, codepoint2 := ParseHex4();
        if !ok {
          return;
        }
        if !IsLowSurrogate(codepoint2) {
          return false, 0;
        }
        codepoint := Paired(codepoint, codepoint2);
      }
    }

    /** The decoding loop, from after the opening quote to after the closing one. */
    method ParseStringToStream(ghost start: nat) returns (ok: bool, ghost decoded: Bytes)
      requires Decoding(start, []) && src == start
      modifies this`src, this`dst, this`scratch, buf
      ensures ok ==> DecodeString(text, start) == Str(decoded, src) && Decoding(start, decoded + [0])
      ensures !ok ==> DecodeString(text, start) == NoString && Decoding(start, decoded)
    {
      hide EscapedPiece;
      decoded := [];
      while true
        invariant Decoding(start, decoded)
        invariant Prepend(decoded, DecodeString(text, src)) == DecodeString(text, start)
        invariant unchanged(`log) && unchanged(`events)
        decreases |text| - src
      {
        ghost var at := src;
        ghost var piece: Bytes;
        var c := Here();
        if c == BACKSLASH {
          ok, piece := ParseEscape(start, decoded);
          if !ok {
            return;
          }
        } else if c == QUOTE {
          var _ := Take();
          Put(0, start, decoded);
          return true, decoded;
        } else if c < 0x20 {
          return false, decoded;
        } else {
          c := Take();
          piece := [c];
          Put(c, start, decoded);
        }
        DecodeByPiece(text, at, piece, src);
        PrependTwice(decoded, piece, DecodeString(text, src));
        decoded := decoded + piece;
      }
    }

    /** The string decoded in place is the slice between where it starts and its terminator. */
    lemma SliceIsHeld(isKey: bool, head: nat, decoded: Bytes)
      requires insitu && Decoding(head, decoded + [0])
      ensures dst == head + |decoded| + 1
      ensures Held(buf[..], Slice(isKey, head, |decoded|), if isKey then Key(decoded) else String(decoded), src)
    {
      TerminatedSlice(buf[..], head, dst);
      assert buf[..][head..dst] == buf[head..dst] == decoded + [0];
      assert (decoded + [0])[..|decoded|] == decoded;
    }

    method ParseString(isKey: bool) returns (ok: bool)
      requires Valid() && src < |text| && Here() == QUOTE
      modifies this`src, this`dst, this`scratch, this`log, this`events, buf
      ensures Valid()
      ensures Result(ok) == RecursiveParser.ParseString(client, text, old(src), isKey, old(events))
    {
      hide DecodeString, AllHeld;
      var _ := Take();
      TookOn();
      var head := src;
      dst, scratch := src, [];
      ghost var decoded;
      ok, decoded := ParseStringToStream(head);
      HeldStays(buf[..], buf[..], log, events, head, src);
      if !ok {
        return;
      }
      ghost var e := if isKey then Key(decoded) else String(decoded);
      if insitu {
        var length := dst - head - 1;
        SliceIsHeld(isKey, head, decoded);
        ok := Deliver(Slice(isKey, head, length), e);
      } else {
        var chars := scratch[..|scratch| - 1];
        ok := Deliver(Plain(if isKey then Key(chars) else String(chars)), e);
      }
    }

    // -------------------------------------------------------------- numbers

    /** The accumulator holds the digits read since `start`. */
    ghost predicate Read(start: nat, v: int)
      reads this, buf
    {
      && Unread() && start < src
      && (forall k :: start <= k < src ==> IsDigit(text[k]))
      && v == Value(text, start, src)
    }

    /** More digits into 32 bits, up to limit * 10 + last; stops before a digit that would exceed it. */
    method Accumulate32(first: uint32, limit: uint32, last: byte, ghost start: nat)
      returns (i: uint32, tooWide: bool)
      requires Read(start, first as int) && first as int <= limit as int * 10
      requires IsDigit(last) && limit as int * 10 + DigitValue(last) < TWO_32
      modifies this`src
      ensures old(src) <= src && Read(start, i as int)
      ensures !tooWide ==> src == DigitsEnd(text, start)
      ensures tooWide <==> Value(text, start, DigitsEnd(text, start)) > limit as int * 10 + DigitValue(last)
    {
      i, tooWide := first, false;
      while !tooWide && IsDigit(Here())
        invariant old(src) <= src && Read(start, i as int)
        invariant i as int <= limit as int * 10 + DigitValue(last)
        invariant tooWide ==> IsDigit(Peek(text, src))
        invariant tooWide ==> i as int * 10 + DigitValue(Peek(text, src)) > limit as int * 10 + DigitValue(last)
        decreases |text| - src, !tooWide
      {
        if i >= limit && (i != limit || Here() > last) {
          tooWide := true;
        } else {
          i := i * 10 + DigitValue(Here()) as uint32;
          var _ := Take();
        }
      }
      DigitsGoOn(text, start, src);
    }

    /** The same with 64 bits. */
    method Accumulate64(first: uint64, limit: uint64, last: byte, ghost start: nat)
      returns (i64: uint64, tooWide: bool)
      requires Read(start, first as int) && first as int <= limit as int * 10
      requires IsDigit(last) && limit as int * 10 + DigitValue(last) < TWO_64
      modifies this`src
      ensures old(src) <= src && Read(start, i64 as int)
      ensures !tooWide ==> src == DigitsEnd(text, start)
      ensures tooWide <==> Value(text, start, DigitsEnd(text, start)) > limit as int * 10 + DigitValue(last)
    {
      i64, tooWide := first, false;
      while !tooWide && IsDigit(Here())
        invariant old(src) <= src && Read(start, i64 as int)
        invariant i64 as int <= limit as int * 10 + DigitValue(last)
        invariant tooWide ==> IsDigit(Peek(text, src))
        invariant tooWide ==> i64 as int * 10 + DigitValue(Peek(text, src)) > limit as int * 10 + DigitValue(last)
        decreases |text| - src, !tooWide
      {
        if i64 >= limit && (i64 != limit || Here() > last) {
          tooWide := true;
        } else {
          i64 := i64 * 10 + DigitValue(Here()) as uint64;
          var _ := Take();
        }
      }
      DigitsGoOn(text, start, src);
    }

    method SkipDigits()
      requires Unread()
      modifies this`src
      ensures Unread() && src == DigitsEnd(text, old(src))
    {
      while IsDigit(Here())
        invariant Unread() && old(src) <= src
        invariant DigitsEnd(text, src) == DigitsEnd(text, old(src))
        decreases |text| - src
      {
        var _ := Take();
      }
    }

    /** The integer part: its extent, and its value in 32 or 64 bits unless it is too wide for those. */
    method ParseIntegerPart(minus: bool) returns (ok: bool, i: uint32, i64: uint64, use64bit: bool, useDouble: bool)
      requires Unread()
      modifies this`src
      ensures Unread() && src == IntegerEnd(text, old(src))
      ensures ok <==> src != old(src)
      ensures ok ==>
        var v := Value(text, old(src), src);
        && (!use64bit ==> !useDouble && i as int == v && if minus then v <= TWO_31 else v < TWO_32)
        && (use64bit && !useDouble ==>
              i64 as int == v && if minus then TWO_31 < v <= TWO_63 else TWO_32 <= v < TWO_64)
        && (useDouble ==> if minus then TWO_63 < v else TWO_64 <= v)
    {
      ghost var start := src;
      ok, i, i64, use64bit, useDouble := true, 0, 0, false, false;
      if Here() == ZERO {
        var _ := Take();
        ZeroIsZero(text, start);
      } else if IsDigit(Here()) {
        i := DigitValue(Here()) as uint32;
        var _ := Take();
        OneDigit(text, start);
        if minus {
          i, use64bit := Accumulate32(i, 214748364, 0x38, start);
        } else {
          i, use64bit := Accumulate32(i, 429496729, 0x35, start);
        }
        if use64bit {
          if minus {
            i64, useDouble := Accumulate64(i as uint64, 0x0CCC_CCCC_CCCC_CCCC, 0x38, start);
          } else {
            i64, useDouble := Accumulate64(i as uint64, 0x1999_9999_9999_9999, 0x35, start);
          }
          if useDouble {
            DigitsContinue(text, start, src);
            SkipDigits();
          }
        }
      } else {
        ok := false;
      }
    }

    /** An optional fraction. */
    method ParseFraction() returns (ok: bool, found: bool)
      requires Unread()
      modifies this`src
      ensures Unread() && old(src) <= src
      ensures FractionEnd(text, old(src)) == if ok then src else -1
      ensures ok ==> (found <==> src != old(src))
    {
      found := Consume(DOT);
      ok := true;
      if found {
        if !IsDigit(Here()) {
          return false, true;
        }
        SkipDigits();
      }
    }

    /** An optional exponent. */
    method ParseExponent() returns (ok: bool, found: bool)
      requires Unread()
      modifies this`src
      ensures Unread() && old(src) <= src
      ensures ExponentEnd(text, old(src)) == if ok then src else -1
      ensures ok ==> (found <==> src != old(src))
    {
      found := Consume(0x65);
      if !found {
        found := Consume(0x45);
      }
      ok := true;
      if found {
        var signed := Consume(0x2B);
        if !signed {
          signed := Consume(0x2D);
        }
        if !IsDigit(Here()) {
          return false, true;
        }
        SkipDigits();
      }
    }

    method ParseNumber() returns (ok: bool)
      requires Valid()
      modifies this`src, this`log, this`events
      ensures Valid()
      ensures Result(ok) == JsonNumber.ParseNumber(client, text, old(src), old(events))
    {
      hide IntegerEnd, FractionEnd, ExponentEnd, AllHeld;
      var startOffset := src;
      var minus := Consume(MINUS);
      ghost var start := src;
      var i, i64, use64bit, useDouble, fraction, exponent;
      ok, i, i64, use64bit, useDouble := ParseIntegerPart(minus);
      if ok {
        ok, fraction := ParseFraction();
        if ok {
          ok, exponent := ParseExponent();
        }
      }
      TookOn();
      if !ok {
        return;
      }
      if useDouble || fraction || exponent {
        var lexeme := buf[startOffset..src];
        TookText();
        if client.tooBig(lexeme) {
          return false;
        }
        ok := Send(Double(lexeme));
      } else if use64bit {
        ok := Send(if minus then Int64(Negated(i64 as int, TWO_64)) else Uint64(i64 as int));
      } else {
        ok := Send(if minus then Int(Negated(i as int, TWO_32)) else Uint(i as int));
      }
    }

    // -------------------------------------------------------------- the recursive parser

    method ParseValue() returns (ok: bool)
      requires Valid()
      modifies this`src, this`dst, this`scratch, this`log, this`events, buf
      ensures Valid()
      ensures Result(ok) == RecursiveParser.ParseValue(client, text, old(src), old(events))
      decreases |text| - src, 2
    {
      hide DecodeString, JsonNumber.ParseNumber, RecursiveParser.ParseArray, RecursiveParser.ParseObject;
      var c := Here();
      if c == NULL_WORD[0] {
        ok := ParseWord(NULL_WORD, Null);
      } else if c == TRUE_WORD[0] {
        ok := ParseWord(TRUE_WORD, Bool(true));
      } else if c == FALSE_WORD[0] {
        ok := ParseWord(FALSE_WORD, Bool(false));
      } else if c == QUOTE {
        ok := ParseString(false);
      } else if c == LEFT_BRACE {
        ok := ParseObject();
      } else if c == LEFT_BRACKET {
        ok := ParseArray();
      } else {
        ok := ParseNumber();
      }
    }

    /** Take a structural character. */
    method Step()
      requires Valid() && src < |text|
      modifies this`src
      ensures Valid() && src == old(src) + 1
    {
      var _ := Take();
      TookOn();
    }

    method ParseArray() returns (ok: bool)
      requires Valid() && src < |text| && Here() == LEFT_BRACKET
      modifies this`src, this`dst, this`scratch, this`log, this`events, buf
      ensures Valid()
      ensures Result(ok) == RecursiveParser.ParseArray(client, text, old(src), old(events))
      decreases |text| - src, 1
    {
      hide RecursiveParser.ParseValue, ParseElements, AllHeld;
      Step();
      ok := Send(StartArray);
      if !ok {
        return;
      }
      SkipWhitespace();
      if Here() == RIGHT_BRACKET {
        Step();
        ok := Send(EndArray(0));
        return;
      }
      ok := ParseElementLoop();
    }

    /** The loop of ParseArray. */
    method ParseElementLoop() returns (ok: bool)
      requires Valid()
      modifies this`src, this`dst, this`scratch, this`log, this`events, buf
      ensures Valid()
      ensures Result(ok) == ParseElements(client, text, old(src), 0, old(events))
      decreases |text| - src, 3
    {
      hide RecursiveParser.ParseValue, ParseElements, AllHeld, SkipSpace;
      ghost var whole := ParseElements(client, text, src, 0, events);
      var elementCount := 0;
      while true
        invariant Valid() && old(src) <= src
        invariant ParseElements(client, text, src, elementCount, events) == whole
        decreases |text| - src
      {
        ElementsByRound(client, text, src, elementCount, events);
        ok := ParseValue();
        if !ok {
          return;
        }
        elementCount := elementCount + 1;
        SkipWhitespace();
        if Here() == COMMA {
          Step();
          SkipWhitespace();
        } else if Here() == RIGHT_BRACKET {
          Step();
          ok := Send(EndArray(elementCount));
          return;
        } else {
          return false;
        }
      }
    }

    method ParseObject() returns (ok: bool)
      requires Valid() && src < |text| && Here() == LEFT_BRACE
      modifies this`src, this`dst, this`scratch, this`log, this`events, buf
      ensures Valid()
      ensures Result(ok) == RecursiveParser.ParseObject(client, text, old(src), old(events))
      decreases |text| - src, 1
    {
      hide RecursiveParser.ParseValue, ParseMembers, AllHeld;
      Step();
      ok := Send(StartObject);
      if !ok {
        return;
      }
      SkipWhitespace();
      if Here() == RIGHT_BRACE {
        Step();
        ok := Send(EndObject(0));
        return;
      }
      ok := ParseMemberLoop();
    }

    /** The loop of ParseObject. */
    /** What stands behind the value of a member: a comma before the next one, or the closing brace. */
    method FinishMember(memberCount: nat) returns (more: bool, ok: bool)
      requires Valid()
      modifies this`src, this`log, this`events
      ensures Valid()
      ensures var j := SkipSpace(text, old(src));
              if Peek(text, j) == COMMA then
                more && src == SkipSpace(text, j + 1) && events == old(events)
              else
                !more && Result(ok) == if Peek(text, j) == RIGHT_BRACE then
                                         Emit(client, old(events), EndObject(memberCount), j + 1)
                                       else
                                         Failed(old(events))
    {
      hide AllHeld, SkipSpace;
      more, ok := false, false;
      SkipWhitespace();
      if Here() == COMMA {
        Step();
        SkipWhitespace();
        more := true;
      } else if Here() == RIGHT_BRACE {
        Step();
        ok := Send(EndObject(memberCount));
      }
    }

    method ParseMemberLoop() returns (ok: bool)
      requires Valid()
      modifies this`src, this`dst, this`scratch, this`log, this`events, buf
      ensures Valid()
      ensures Result(ok) == ParseMembers(client, text, old(src), 0, old(events))
      decreases |text| - src, 3
    {
      hide RecursiveParser.ParseValue, ParseName, ParseMembers, ParseMemberValue, AllHeld, SkipSpace;
      ghost var whole := ParseMembers(client, text, src, 0, events);
      var memberCount := 0;
      while true
        invariant Valid() && old(src) <= src
        invariant ParseMembers(client, text, src, memberCount, events) == whole
        decreases |text| - src
      {
        MembersByName(client, text, src, memberCount, events);
        ok := ParseMemberName();
        if !ok {
          return;
        }
        MemberValueByRound(client, text, src, memberCount, events);
        ok := ParseValue();
        if !ok {
          return;
        }
        memberCount := memberCount + 1;
        var more;
        more, ok := FinishMember(memberCount);
        if !more {
          return;
        }
      }
    }

    /** The part of the member loop up to the value. */
    method ParseMemberName() returns (ok: bool)
      requires Valid()
      modifies this`src, this`dst, this`scratch, this`log, this`events, buf
      ensures Valid()
      ensures Result(ok) == ParseName(client, text, old(src), old(events))
    {
      hide RecursiveParser.ParseString;
      if Here() != QUOTE {
        return false;
      }
      ok := ParseString(true);
      if !ok {
        return;
      }
      SkipWhitespace();
      if Here() != COLON {
        return false;
      }
      Step();
      SkipWhitespace();
    }

    /**
     * Main result: in either mode the events are those of the specification, and what the handler was
     * given still shows them when the parse is over.
     */
    method Parse() returns (ok: bool)
      requires Valid() && src == 0 && events == []
      modifies this`src, this`dst, this`scratch, this`log, this`events, buf
      ensures Result(ok) == RecursiveParser.Parse(client, text)
      ensures AllHeld(buf[..], log, events, src)
      ensures !insitu ==> buf[..] == old(buf[..])
    {
      hide RecursiveParser.ParseValue;
      SkipWhitespace();
      if Here() == 0 {
        return false;
      }
      ok := ParseValue();
      if !ok {
        return;
      }
      SkipWhitespace();
      ok := Here() == 0;
    }

    /** An opening bracket: a frame that says where to go on after the container, the event, the character. */
    method Open(state: I.State, e: Event) returns (ok: bool)
      requires Valid() && src < |text|
      modifies this`src, this`log, this`events, this`stack
      ensures Valid() && stack == I.Pushed(old(stack), state)
      ensures Result(ok) == Emit(client, old(events), e, old(src) + 1)
    {
      stack := stack + [I.Frame(I.Resume(state), 0)];
      ok := Send(e);
      if ok {
        Step();
      }
    }

    /** A closing bracket: back to where the frame says, the event, the character. */
    method Close(e: Event) returns (ok: bool, next: I.State)
      requires Valid() && src < |text| && |stack| > 0
      modifies this`src, this`log, this`events, this`stack
      ensures Valid() && stack == I.Pop(old(stack)) && next == I.Closed(old(stack))
      ensures Result(ok) == Emit(client, old(events), e, old(src) + 1)
    {
      next := I.Closed(stack);
      stack := I.Pop(stack);
      ok := Send(e);
      if ok {
        Step();
      }
    }

    // -------------------------------------------------------------- the table-driven parser

    /** Push, pop and count on the explicit stack; the action that the new state calls for. */
    method Transit(state: I.State, dst: I.State) returns (next: I.State)
      requires Valid() && I.Fits(state, stack) && src < |text| && Here() != 0
      requires dst == I.Predict(state, I.Tokenize(Here()))
      modifies this`src, this`dst, this`scratch, this`log, this`events, this`stack, buf
      ensures Valid()
      ensures I.Transit(client, text, state, dst, old(stack), old(src), old(events))
           == if next.Error? then I.Stop(events) else I.Go(next, stack, src, events)
    {
      hide RecursiveParser.ParseValue, RecursiveParser.ParseString, AllHeld;
      var ok;
      match dst {
        case Error =>
          next := dst;
        case ObjectInitial =>
          ok := Open(state, StartObject);
          next := if ok then dst else I.Error;
        case ArrayInitial =>
          ok := Open(state, StartArray);
          next := if ok then dst else I.Error;
        case MemberKey =>
          ok := ParseString(true);
          next := if ok then dst else I.Error;
        case KeyValueDelimiter =>
          Step();
          next := dst;
        case MemberValue =>
          ok := ParseValue();
          next := if ok then dst else I.Error;
        case Element =>
          ok := ParseValue();
          next := if ok then dst else I.Error;
        case MemberDelimiter =>
          Step();
          stack := I.CountOne(stack);
          next := dst;
        case ElementDelimiter =>
          Step();
          stack := I.CountOne(stack);
          next := dst;
        case ObjectFinish =>
          if state.MemberDelimiter? {
            return I.Error;
          }
          var c := I.Top(stack).count;
          if state.MemberValue? {
            c := c + 1;
          }
          assert I.FrameOk(stack, |stack| - 1);
          ok, next := Close(EndObject(c));
          next := if ok then next else I.Error;
        case ArrayFinish =>
          if state.ElementDelimiter? {
            return I.Error;
          }
          var c := I.Top(stack).count;
          if state.Element? {
            c := c + 1;
          }
          assert I.FrameOk(stack, |stack| - 1);
          ok, next := Close(EndArray(c));
          next := if ok then next else I.Error;
        case SingleValue =>
          ok := ParseValue();
          next := if ok then I.Finish else I.Error;
      }
    }

    /** Main result: the table-driven loop has the outcome of the recursive parser. */
    method IterativeParse() returns (ok: bool)
      requires Valid() && src == 0 && events == [] && stack == []
      modifies this`src, this`dst, this`scratch, this`log, this`events, this`stack, buf
      ensures Result(ok) == RecursiveParser.Parse(client, text)
      ensures AllHeld(buf[..], log, events, src)
      ensures !insitu ==> buf[..] == old(buf[..])
    {
      hide I.Run, RecursiveParser.Parse, I.Transit;
      I.ParsersAgree(client, text);
      var state := I.Start;
      SkipWhitespace();
      ok := true;
      while ok && Here() != 0
        invariant Valid()
        invariant ok ==> I.Fits(state, stack)
        invariant ok ==>
          I.Run(client, text, state, stack, src, events) == RecursiveParser.Parse(client, text)
        invariant !ok ==> Failed(events) == RecursiveParser.Parse(client, text)
        decreases ok, |text| - src
      {
        var n := I.Predict(state, I.Tokenize(Here()));
        I.RunByRound(client, text, state, stack, src, events, I.Transit(client, text, state, n, stack, src, events));
        I.TransitAdvances(client, text, state, n, stack, src, events);
        var d := Transit(state, n);
        if d.Error? {
          ok := false;
        } else {
          state := d;
          SkipWhitespace();
        }
      }
      if ok {
        I.RunAtEnd(client, text, state, stack, src, events);
        ok := state.Finish?;
      }
    }
  }

  /** `~i + 1` in unsigned arithmetic modulo `modulus`, converted to the signed type of that width. */
  function Negated(i: int, modulus: int): (n: int)
    requires 0 <= i <= modulus / 2 && modulus > 0 && modulus % 2 == 0
    ensures n == -i
  {
    ComplementIs(i, modulus);
    var complement := (modulus - i) % modulus;
    if complement < modulus / 2 then complement else complement - modulus
  }

  lemma ComplementIs(i: int, modulus: int)
    requires 0 <= i < modulus
    ensures (modulus - i) % modulus == if i == 0 then 0 else modulus - i
  {
    if i == 0 {
      assert modulus / modulus == 1;
    } else {
      assert (modulus - i) / modulus == 0;
    }
  }

  lemma {:induction false} ValueGrows(t: Bytes, i: nat, j: nat, k: nat)
    requires i <= j <= k <= |t| && forall m :: i <= m < k ==> IsDigit(t[m])
    ensures Value(t, i, j) <= Value(t, i, k)
    decreases k - j
  {
    if j < k {
      ValueGrows(t, i, j, k - 1);
    }
  }

  /** The digits end at `j` or go on with the digit there. */
  lemma DigitsGoOn(t: Bytes, i: nat, j: nat)
    requires i <= j <= |t| && forall k :: i <= k < j ==> IsDigit(t[k])
    ensures !IsDigit(Peek(t, j)) ==> DigitsEnd(t, i) == j
    ensures IsDigit(Peek(t, j)) ==>
              Value(t, i, DigitsEnd(t, i)) >= Value(t, i, j) * 10 + DigitValue(Peek(t, j))
  {
    var end := DigitsEnd(t, j);
    DigitsEndIs(t, i, end);
    if IsDigit(Peek(t, j)) {
      ValueGrows(t, i, j + 1, end);
    } else {
      DigitsEndIs(t, i, j);
    }
  }

  lemma DigitsContinue(t: Bytes, i: nat, j: nat)
    requires i <= j <= |t| && forall k :: i <= k < j ==> IsDigit(t[k])
    ensures DigitsEnd(t, i) == DigitsEnd(t, j)
  {
    DigitsEndIs(t, i, DigitsEnd(t, j));
  }

  lemma ZeroIsZero(t: Bytes, i: nat)
    requires i < |t| && t[i] == ZERO
    ensures IntegerEnd(t, i) == i + 1 && Value(t, i, i + 1) == 0
  {
    assert Value(t, i, i) == 0;
  }

  lemma OneDigit(t: Bytes, i: nat)
    requires i < |t| && IsDigit(t[i])
    ensures Value(t, i, i + 1) == DigitValue(t[i])
  {
    assert Value(t, i, i) == 0;
  }

  /** The number that the first `n` hexadecimal digits spell. */
  ghost function HexPart(t: Bytes, i: nat, n: nat): nat
    requires forall k :: i <= k < i + n ==> IsHexDigit(Peek(t, k))
  {
    if n == 0 then 0 else HexPart(t, i, n - 1) * 16 + HexValue(Peek(t, i + n - 1))
  }

  lemma PrependTwice(a: Bytes, b: Bytes, d: Decoding)
    ensures Prepend(a, Prepend(b, d)) == Prepend(a + b, d)
  {
    if d.Str? {
      assert a + (b + d.bytes) == a + b + d.bytes;
    }
  }

  lemma HexPartIsHex4(t: Bytes, i: nat)
    requires forall k :: i <= k < i + 4 ==> IsHexDigit(Peek(t, k))
    ensures IsHex4(t, i) && HexPart(t, i, 4) == Hex4(t, i)
  {
    assert HexPart(t, i, 1) == HexPart(t, i, 0) * 16 + HexValue(Peek(t, i));
    assert HexPart(t, i, 2) == HexPart(t, i, 1) * 16 + HexValue(Peek(t, i + 1));
    assert HexPart(t, i, 3) == HexPart(t, i, 2) * 16 + HexValue(Peek(t, i + 2));
    assert HexPart(t, i, 4) == HexPart(t, i, 3) * 16 + HexValue(Peek(t, i + 3));
  }
}
