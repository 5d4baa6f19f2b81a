/**
 * The string grammar of RFC 8259 (section 7), stated without reference to the reader: a string is a list of
 * parts, each with its spelling and its meaning. The reader decodes every such string to its meaning, and
 * nothing else; and the writer prints the shortest string that has a given meaning.
 *
 * The source departs from the RFC in what it takes for characters: bytes from 0x80 on stand for themselves,
 * whether or not they are well-formed UTF-8, and a numeric escape of a low surrogate that follows no high
 * one is encoded like any other unit of the basic plane.
 */
module StringGrammar {
  import opened JsonText
  import JsonString
  import Utf8

  datatype Part =
    | Unescaped(c: byte)
    | TwoCharacter(letter: byte)
    | Numeric(unit: nat, digits: Bytes)
    | SurrogatePair(high: nat, highDigits: Bytes, low: nat, lowDigits: Bytes)

  const LOWER_DIGITS: string := "0123456789abcdef"
  const UPPER_DIGITS: string := "0123456789ABCDEF"

  /** `c` is a hexadecimal digit, of either case, for `v`. */
  predicate IsDigitFor(c: byte, v: nat) {
    v < 16 && (c as int == LOWER_DIGITS[v] as int || c as int == UPPER_DIGITS[v] as int)
  }

  /** Four hexadecimal digits, the most significant one first. */
  predicate Spells(digits: Bytes, unit: nat) {
    && |digits| == 4
    && IsDigitFor(digits[0], unit / 0x1000) && IsDigitFor(digits[1], unit / 0x100 % 0x10)
    && IsDigitFor(digits[2], unit / 0x10 % 0x10) && IsDigitFor(digits[3], unit % 0x10)
  }

  predicate PartOk(p: Part) {
    match p
    case Unescaped(c) => c >= 0x20 && c as int != '"' as int && c as int != '\\' as int
    case TwoCharacter(e) => e as int in EscapeLetters()
    case Numeric(unit, digits) => Spells(digits, unit) && !(0xD800 <= unit <= 0xDBFF)
    case SurrogatePair(high, highDigits, low, lowDigits) =>
      && Spells(highDigits, high) && 0xD800 <= high <= 0xDBFF
      && Spells(lowDigits, low) && 0xDC00 <= low <= 0xDFFF
  }

  /** The characters that may follow a backslash, with what they mean. */
  function EscapeLetters(): map<int, byte> {
    map['"' as int := 0x22, '\\' as int := 0x5C, '/' as int := 0x2F, 'b' as int := 0x08,
        'f' as int := 0x0C, 'n' as int := 0x0A, 'r' as int := 0x0D, 't' as int := 0x09]
  }

  function Spelling(p: Part): Bytes {
    match p
    case Unescaped(c) => [c]
    case TwoCharacter(e) => ['\\' as int, e]
    case Numeric(_, digits) => ['\\' as int, 'u' as int] + digits
    case SurrogatePair(_, high, _, low) => ['\\' as int, 'u' as int] + high + ['\\' as int, 'u' as int] + low
  }

  lemma UnitBound(digits: Bytes, unit: nat)
    requires Spells(digits, unit)
    ensures unit <= 0xFFFF
  {
  }

  /** The code point of a surrogate pair. */
  function PairPoint(high: nat, low: nat): (cp: nat)
    requires 0xD800 <= high <= 0xDBFF && 0xDC00 <= low <= 0xDFFF
    ensures cp <= Utf8.LAST_CODE_POINT
  {
    0x10000 + (high - 0xD800) * 0x400 + (low - 0xDC00)
  }

  function Meaning(p: Part): Bytes
    requires PartOk(p)
  {
    match p
    case Unescaped(c) => [c]
    case TwoCharacter(e) => [EscapeLetters()[e as int]]
    case Numeric(unit, digits) =>
      UnitBound(digits, unit);
      Utf8.Encode(unit)
    case SurrogatePair(high, _, low, _) => Utf8.Encode(PairPoint(high, low))
  }

  predicate AllOk(ps: seq<Part>) {
    forall k :: 0 <= k < |ps| ==> PartOk(ps[k])
  }

  function SpellingOf(ps: seq<Part>): Bytes {
    if ps == [] then [] else Spelling(ps[0]) + SpellingOf(ps[1..])
  }

  function MeaningOf(ps: seq<Part>): Bytes
    requires AllOk(ps)
  {
    if ps == [] then [] else Meaning(ps[0]) + MeaningOf(ps[1..])
  }

  // ---------------------------------------------------------------- every string is decoded to its meaning

  lemma DigitIsRead(c: byte, v: nat)
    requires IsDigitFor(c, v)
    ensures JsonString.IsHexDigit(c) && JsonString.HexValue(c) == v
  {
  }

  lemma DigitsAreRead(t: Bytes, i: nat, digits: Bytes, unit: nat)
    requires Spells(digits, unit) && Occurs(digits, t, i)
    ensures JsonString.IsHex4(t, i) && JsonString.Hex4(t, i) == unit
  {
    OccursAt(digits, t, i, 0);
    OccursAt(digits, t, i, 1);
    OccursAt(digits, t, i, 2);
    OccursAt(digits, t, i, 3);
    DigitIsRead(digits[0], unit / 0x1000);
    DigitIsRead(digits[1], unit / 0x100 % 0x10);
    DigitIsRead(digits[2], unit / 0x10 % 0x10);
    DigitIsRead(digits[3], unit % 0x10);
    JsonString.HexSplit(unit);
    hide IsDigitFor, JsonString.HexValue, JsonString.IsHexDigit;
  }

  lemma NumericIsRead(t: Bytes, i: nat, digits: Bytes, unit: nat)
    requires Spells(digits, unit) && Occurs(['\\' as int, 'u' as int] + digits, t, i)
    ensures Peek(t, i) == BACKSLASH && Peek(t, i + 1) == JsonString.LETTER_U
    ensures |digits| == 4 && i + 6 <= |t|
    ensures JsonString.IsHex4(t, i + 2) && JsonString.Hex4(t, i + 2) == unit
  {
    hide JsonString.Hex4, JsonString.IsHex4;
    var w: Bytes := ['\\' as int, 'u' as int];
    OccursSplit(w, digits, t, i);
    OccursAt(w, t, i, 0);
    OccursAt(w, t, i, 1);
    DigitsAreRead(t, i + 2, digits, unit);
  }

  lemma LetterIsRead(e: byte, t: Bytes, i: nat)
    requires e as int in EscapeLetters() && Occurs(['\\' as int, e], t, i)
    ensures JsonString.NextPiece(t, i) == JsonString.Decoded([EscapeLetters()[e as int]], i + 2)
  {
    hide JsonString.CodeAt;
    var w: Bytes := ['\\' as int, e];
    OccursAt(w, t, i, 0);
    OccursAt(w, t, i, 1);
  }

  lemma PairIsRead(high: nat, highDigits: Bytes, low: nat, lowDigits: Bytes, t: Bytes, i: nat)
    requires Spells(highDigits, high) && 0xD800 <= high <= 0xDBFF
    requires Spells(lowDigits, low) && 0xDC00 <= low <= 0xDFFF
    requires Occurs(['\\' as int, 'u' as int] + highDigits + ['\\' as int, 'u' as int] + lowDigits, t, i)
    ensures |highDigits| == |lowDigits| == 4
    ensures JsonString.NextPiece(t, i) == JsonString.Decoded(Utf8.Encode(PairPoint(high, low)), i + 12)
  {
    hide JsonString.Hex4, JsonString.IsHex4, Utf8.Encode;
    var u: Bytes := ['\\' as int, 'u' as int];
    assert u + highDigits + u + lowDigits == (u + highDigits) + (u + lowDigits);
    OccursSplit(u + highDigits, u + lowDigits, t, i);
    NumericIsRead(t, i, highDigits, high);
    NumericIsRead(t, i + 6, lowDigits, low);
    hide Spells, Occurs;
    SamePoint(high, low);
    hide PairPoint, JsonString.Paired;
  }

  lemma SamePoint(high: nat, low: nat)
    requires 0xD800 <= high <= 0xDBFF && 0xDC00 <= low <= 0xDFFF
    ensures PairPoint(high, low) == JsonString.Paired(high, low)
  {
  }

  /** Wherever it stands, a part is read as its meaning. */
  lemma PartIsRead(p: Part, t: Bytes, i: nat)
    requires PartOk(p) && Occurs(Spelling(p), t, i)
    ensures JsonString.NextPiece(t, i) == JsonString.Decoded(Meaning(p), i + |Spelling(p)|)
  {
    hide JsonString.Hex4, JsonString.IsHex4, Utf8.Encode, Spells, EscapeLetters;
    match p
    case Unescaped(c) => OccursAt([c], t, i, 0);
    case TwoCharacter(e) => LetterIsRead(e, t, i);
    case Numeric(unit, digits) =>
      NumericIsRead(t, i, digits, unit);
      UnitBound(digits, unit);
    case SurrogatePair(high, highDigits, low, lowDigits) =>
      PairIsRead(high, highDigits, low, lowDigits, t, i);
  }

  lemma PrependTwice(a: Bytes, b: Bytes, next: nat)
    ensures JsonString.Prepend(a, JsonString.Str(b, next)) == JsonString.Str(a + b, next)
  {
  }

  lemma Regroup(a: Bytes, b: Bytes)
    ensures a + (b + [QUOTE]) == (a + b) + [QUOTE]
  {
  }

  /** Main result: every string of the grammar, wherever it stands, is decoded to its meaning. */
  lemma {:induction false} StringIsDecoded(ps: seq<Part>, t: Bytes, i: nat)
    requires AllOk(ps) && Occurs(SpellingOf(ps) + [QUOTE], t, i)
    ensures JsonString.DecodeString(t, i) == JsonString.Str(MeaningOf(ps), i + |SpellingOf(ps)| + 1)
    decreases |ps|
  {
    hide JsonString.DecodeString, JsonString.NextPiece, JsonString.Prepend, Spelling, Meaning, Occurs, PartOk;
    if ps == [] {
      assert SpellingOf(ps) + [QUOTE] == [QUOTE];
      JsonString.QuoteIsRead(t, i);
    } else {
      var w, rest := Spelling(ps[0]), SpellingOf(ps[1..]);
      Regroup(w, rest);
      OccursSplit(w, rest + [QUOTE], t, i);
      PartIsRead(ps[0], t, i);
      JsonString.DecodeByPiece(t, i, Meaning(ps[0]), i + |w|);
      StringIsDecoded(ps[1..], t, i + |w|);
      PrependTwice(Meaning(ps[0]), MeaningOf(ps[1..]), i + |SpellingOf(ps)| + 1);
    }
  }

  // ---------------------------------------------------------------- and nothing else is

  lemma HexDigitIsFor(c: byte)
    requires JsonString.IsHexDigit(c)
    ensures IsDigitFor(c, JsonString.HexValue(c))
  {
  }

  lemma Nibble(q: nat, r: nat)
    requires r < 16
    ensures (q * 16 + r) / 16 == q && (q * 16 + r) % 16 == r
  {
  }

  lemma Nibbles(a: nat, b: nat, c: nat, d: nat)
    requires a < 16 && b < 16 && c < 16 && d < 16
    ensures var v := a * 4096 + b * 256 + c * 16 + d;
            v / 0x1000 == a && v / 0x100 % 0x10 == b && v / 0x10 % 0x10 == c && v % 0x10 == d
  {
    var x := a * 16 + b;
    var y := x * 16 + c;
    Nibble(a, b);
    Nibble(x, c);
    Nibble(y, d);
    var v := y * 16 + d;
    assert v == a * 4096 + b * 256 + c * 16 + d;
    assert v / 0x100 == v / 0x10 / 0x10 && v / 0x1000 == v / 0x100 / 0x10;
  }

  lemma SpellsFour(digits: Bytes, a: nat, b: nat, c: nat, d: nat, unit: nat)
    requires unit == a * 4096 + b * 256 + c * 16 + d
    requires |digits| == 4 && a < 16 && b < 16 && c < 16 && d < 16
    requires IsDigitFor(digits[0], a) && IsDigitFor(digits[1], b)
    requires IsDigitFor(digits[2], c) && IsDigitFor(digits[3], d)
    ensures Spells(digits, unit)
  {
    hide IsDigitFor;
    Nibbles(a, b, c, d);
  }

  lemma HexDigitsAt(t: Bytes, i: nat)
    requires JsonString.IsHex4(t, i)
    ensures i + 4 <= |t|
    ensures JsonString.IsHexDigit(t[i]) && JsonString.IsHexDigit(t[i + 1])
    ensures JsonString.IsHexDigit(t[i + 2]) && JsonString.IsHexDigit(t[i + 3])
    ensures JsonString.Hex4(t, i)
         == JsonString.HexValue(t[i]) * 4096 + JsonString.HexValue(t[i + 1]) * 256
            + JsonString.HexValue(t[i + 2]) * 16 + JsonString.HexValue(t[i + 3])
  {
    hide JsonString.HexValue;
  }

  lemma Hex4Spells(t: Bytes, i: nat) returns (digits: Bytes)
    requires JsonString.IsHex4(t, i)
    ensures i + 4 <= |t| && |digits| == 4 && digits == t[i..i + 4] && Spells(digits, JsonString.Hex4(t, i))
  {
    HexDigitsAt(t, i);
    hide JsonString.HexValue, JsonString.Hex4, JsonString.IsHex4, JsonString.IsHexDigit, IsDigitFor, Spells;
    digits := t[i..i + 4];
    assert digits[0] == t[i] && digits[1] == t[i + 1] && digits[2] == t[i + 2] && digits[3] == t[i + 3];
    HexDigitIsFor(t[i]);
    HexDigitIsFor(t[i + 1]);
    HexDigitIsFor(t[i + 2]);
    HexDigitIsFor(t[i + 3]);
    SpellsFour(digits, JsonString.HexValue(t[i]), JsonString.HexValue(t[i + 1]),
      JsonString.HexValue(t[i + 2]), JsonString.HexValue(t[i + 3]), JsonString.Hex4(t, i));
  }

  lemma NumericIsSpelled(t: Bytes, i: nat) returns (p: Part)
    requires Peek(t, i) == BACKSLASH && Peek(t, i + 1) == JsonString.LETTER_U
    requires i + 2 <= |t| && JsonString.CodeAt(t, i + 2).Code?
    ensures PartOk(p) && Occurs(Spelling(p), t, i)
    ensures i + |Spelling(p)| == JsonString.CodeAt(t, i + 2).next
    ensures Meaning(p) == Utf8.Encode(JsonString.CodeAt(t, i + 2).codepoint)
  {
    hide JsonString.Hex4, JsonString.IsHex4, Utf8.Encode, Spells;
    var h := JsonString.Hex4(t, i + 2);
    var digits := Hex4Spells(t, i + 2);
    EscapeStands(t, i);
    if !JsonString.IsHighSurrogate(h) {
      p := Numeric(h, digits);
    } else {
      var low := Hex4Spells(t, i + 8);
      EscapeStands(t, i + 6);
      p := SurrogatePair(h, digits, JsonString.Hex4(t, i + 8), low);
      TwoEscapes(digits, low, t, i);
      SamePoint(h, JsonString.Hex4(t, i + 8));
      hide PairPoint, JsonString.Paired;
    }
  }

  lemma EscapeStands(t: Bytes, i: nat)
    requires i + 6 <= |t| && t[i] == BACKSLASH && t[i + 1] == JsonString.LETTER_U
    ensures Occurs(['\\' as int, 'u' as int] + t[i + 2..i + 6], t, i)
  {
    assert t[i..i + 6] == ['\\' as int, 'u' as int] + t[i + 2..i + 6];
  }

  lemma TwoEscapes(a: Bytes, b: Bytes, t: Bytes, i: nat)
    requires |a| == 4 && |b| == 4
    requires Occurs(['\\' as int, 'u' as int] + a, t, i) && Occurs(['\\' as int, 'u' as int] + b, t, i + 6)
    ensures Occurs(['\\' as int, 'u' as int] + a + ['\\' as int, 'u' as int] + b, t, i)
  {
    var u: Bytes := ['\\' as int, 'u' as int];
    assert u + a + u + b == (u + a) + (u + b);
    OccursJoined(u + a, u + b, t, i);
  }

  lemma PieceIsSpelled(t: Bytes, i: nat) returns (p: Part)
    requires i <= |t| && JsonString.NextPiece(t, i).Decoded?
    ensures PartOk(p) && Occurs(Spelling(p), t, i)
    ensures JsonString.NextPiece(t, i) == JsonString.Decoded(Meaning(p), i + |Spelling(p)|)
  {
    hide JsonString.CodeAt, Utf8.Encode;
    if t[i] != BACKSLASH {
      p := Unescaped(t[i]);
    } else {
      var e := Peek(t, i + 1);
      if JsonString.Unescaped(e) != 0 {
        p := TwoCharacter(e);
        assert t[i..i + 2] == Spelling(p);
      } else {
        p := NumericIsSpelled(t, i);
      }
    }
  }

  /** Main result: whatever is decoded is a string of the grammar and its closing quote. */
  lemma {:induction false} DecodedIsString(t: Bytes, i: nat) returns (ps: seq<Part>)
    requires i <= |t| && JsonString.DecodeString(t, i).Str?
    ensures AllOk(ps) && Occurs(SpellingOf(ps) + [QUOTE], t, i)
    ensures JsonString.DecodeString(t, i) == JsonString.Str(MeaningOf(ps), i + |SpellingOf(ps)| + 1)
    decreases |t| - i
  {
    hide JsonString.NextPiece, Spelling, Meaning, PartOk;
    if JsonString.NextPiece(t, i).Closed? {
      ps := [];
      assert SpellingOf(ps) + [QUOTE] == [QUOTE];
      assert t[i..i + 1] == [QUOTE] by { ClosedAtQuote(t, i); }
    } else {
      var p := PieceIsSpelled(t, i);
      var rest := DecodedIsString(t, i + |Spelling(p)|);
      ps := [p] + rest;
      assert ps[1..] == rest;
      hide Occurs, JsonString.DecodeString;
      OccursJoined(Spelling(p), SpellingOf(rest) + [QUOTE], t, i);
      Regroup(Spelling(p), SpellingOf(rest));
      StringIsDecoded(ps, t, i);
    }
  }

  lemma ClosedAtQuote(t: Bytes, i: nat)
    requires i <= |t| && JsonString.NextPiece(t, i).Closed?
    ensures i < |t| && t[i] == QUOTE
  {
  }

  // ---------------------------------------------------------------- the writer prints the shortest string

  /** The writer's text of a string, without the quotes, for UTF-8 output. */
  function Printed(s: Bytes): Bytes {
    if s == [] then [] else JsonString.EscapeByte(s[0]) + Printed(s[1..])
  }

  lemma {:induction false} PrintedIsEscaped(s: Bytes, k: nat)
    requires k <= |s|
    ensures JsonString.EscapeFrom(s, k, JsonString.ToUtf8) == JsonString.Written(Printed(s[k..]) + [QUOTE])
    decreases |s| - k
  {
    hide JsonString.EscapeByte;
    if k < |s| {
      PrintedIsEscaped(s, k + 1);
      assert s[k..][1..] == s[k + 1..];
      Regroup(JsonString.EscapeByte(s[k]), Printed(s[k + 1..]));
    } else {
      assert [] + [QUOTE] == [QUOTE];
    }
  }

  lemma {:induction false} PrintedAppend(a: Bytes, b: Bytes)
    ensures Printed(a + b) == Printed(a) + Printed(b)
  {
    hide JsonString.EscapeByte;
    if a == [] {
      assert a + b == b;
    } else {
      assert (a + b)[1..] == a[1..] + b;
      PrintedAppend(a[1..], b);
    }
  }

  lemma PartIsNotShorter(p: Part)
    requires PartOk(p)
    ensures |Printed(Meaning(p))| <= |Spelling(p)|
  {
    hide Printed, Utf8.Encode, EscapeLetters, PairPoint;
    match p
    case Unescaped(c) =>
      SingleByte(c);
    case TwoCharacter(e) =>
      SingleByte(EscapeLetters()[e as int]);
      LetterIsNotShorter(e);
    case Numeric(unit, digits) =>
      UnitBound(digits, unit);
      EncodedIsShort(unit);
    case SurrogatePair(high, _, low, _) =>
      hide Spells;
      EncodedIsShort(PairPoint(high, low));
  }

  lemma LetterIsNotShorter(e: byte)
    requires e as int in EscapeLetters()
    ensures |JsonString.EscapeByte(EscapeLetters()[e as int])| <= 2
  {
  }

  lemma SingleByte(c: byte)
    ensures Printed([c]) == JsonString.EscapeByte(c)
  {
    assert [c][1..] == [];
  }

  lemma EncodedIsShort(cp: nat)
    requires cp <= Utf8.LAST_CODE_POINT
    ensures |Printed(Utf8.Encode(cp))| <= 6
  {
    var w := Utf8.Encode(cp);
    if cp <= 0x7F {
      SingleByte(cp);
    } else {
      assert forall k :: 0 <= k < |w| ==> w[k] >= 0x80;
      HighBytesAreKept(w);
    }
  }

  lemma {:induction false} HighBytesAreKept(w: Bytes)
    requires forall k :: 0 <= k < |w| ==> w[k] >= 0x80
    ensures Printed(w) == w
  {
    if w != [] {
      HighBytesAreKept(w[1..]);
    }
  }

  /** Main result: no string of the grammar is shorter than the one that the writer prints for its meaning. */
  lemma {:induction false} PrintedIsShortest(ps: seq<Part>)
    requires AllOk(ps)
    ensures |Printed(MeaningOf(ps))| <= |SpellingOf(ps)|
  {
    hide Printed, Spelling, Meaning;
    if ps == [] {
      assert |Printed([])| == 0 by { NothingPrinted(); }
    } else {
      PartIsNotShorter(ps[0]);
      PrintedIsShortest(ps[1..]);
      PrintedAppend(Meaning(ps[0]), MeaningOf(ps[1..]));
    }
  }

  lemma NothingPrinted()
    ensures Printed([]) == []
  {
  }

  /** An escaped surrogate that stands alone means something that is not UTF-8. */
  lemma SurrogateIsNoChar(cp: nat, s: Bytes, k: nat)
    requires 0xD800 <= cp <= 0xDFFF && Occurs(Utf8.Encode(cp), s, k)
    ensures k < |s| && s[k] >= 0x80 && Utf8.CharLength(s, k) == 0
  {
    var w := Utf8.Encode(cp);
    assert cp / 4096 == 13 && cp / 64 >= 864;
    OccursAt(w, s, k, 0);
    OccursAt(w, s, k, 1);
  }

  lemma PointIsWritten(cp: nat, s: Bytes, k: nat)
    requires cp <= Utf8.LAST_CODE_POINT && Occurs(Utf8.Encode(cp), s, k)
    ensures |Utf8.Encode(cp)| > 0 && k < |s|
    ensures JsonString.EscapeNext(s, k, JsonString.ToAscii).Escaped? ==>
              && JsonString.EscapeNext(s, k, JsonString.ToAscii).next == k + |Utf8.Encode(cp)|
              && |JsonString.EscapeNext(s, k, JsonString.ToAscii).text| <= if cp <= 0xFFFF then 6 else 12
  {
    var w := Utf8.Encode(cp);
    Utf8.EncodeIsExact(cp);
    OccursAt(w, s, k, 0);
    if 0xD800 <= cp <= 0xDFFF {
      SurrogateIsNoChar(cp, s, k);
    } else {
      Utf8.CharLengthFinds(s, k, |w|);
      hide Utf8.CharLength, Utf8.IsChar, Utf8.CodePoint;
      assert s[k] >= 0x80 <==> cp >= 0x80;
    }
  }

  lemma PartIsNotShorterInAscii(p: Part, s: Bytes, k: nat)
    requires PartOk(p) && JsonString.AllAscii(Spelling(p)) && Occurs(Meaning(p), s, k)
    ensures |Meaning(p)| > 0 && k < |s|
    ensures JsonString.EscapeNext(s, k, JsonString.ToAscii).Escaped? ==>
              && JsonString.EscapeNext(s, k, JsonString.ToAscii).next == k + |Meaning(p)|
              && |JsonString.EscapeNext(s, k, JsonString.ToAscii).text| <= |Spelling(p)|
  {
    hide Utf8.Encode, EscapeLetters, PairPoint, Utf8.CharLength;
    match p
    case Unescaped(c) =>
      OccursAt([c], s, k, 0);
      assert Spelling(p)[0] < 0x80;
    case TwoCharacter(e) =>
      OccursAt([EscapeLetters()[e as int]], s, k, 0);
      LetterIsNotShorter(e);
      LetterMeansAscii(e);
    case Numeric(unit, digits) =>
      UnitBound(digits, unit);
      PointIsWritten(unit, s, k);
    case SurrogatePair(high, _, low, _) =>
      hide JsonString.EscapeNext;
      PointIsWritten(PairPoint(high, low), s, k);
  }

  lemma LetterMeansAscii(e: byte)
    requires e as int in EscapeLetters()
    ensures EscapeLetters()[e as int] < 0x80
  {
  }

  /** Main result: and with ASCII output it prints the shortest of those that are all ASCII. */
  lemma {:induction false} AsciiIsShortest(ps: seq<Part>, s: Bytes, k: nat)
    requires AllOk(ps) && JsonString.AllAscii(SpellingOf(ps)) && k <= |s| && s[k..] == MeaningOf(ps)
    requires JsonString.EscapeFrom(s, k, JsonString.ToAscii).Written?
    ensures |JsonString.EscapeFrom(s, k, JsonString.ToAscii).bytes| <= |SpellingOf(ps) + [QUOTE]|
    decreases |ps|
  {
    hide JsonString.EscapeNext, Spelling, Meaning, PartOk;
    if ps != [] {
      var m, w := Meaning(ps[0]), Spelling(ps[0]);
      assert s[k..][..|m|] == m && s[k..][|m|..] == MeaningOf(ps[1..]);
      assert SpellingOf(ps)[..|w|] == w && SpellingOf(ps)[|w|..] == SpellingOf(ps[1..]);
      assert s[k + |m|..] == s[k..][|m|..];
      assert Occurs(m, s, k);
      hide Occurs;
      PartIsNotShorterInAscii(ps[0], s, k);
      AsciiIsShortest(ps[1..], s, k + |m|);
    }
  }

  /** A numeric escape is printed with upper-case digits. */
  lemma EscapesAreUpperCase(h: nat)
    requires h <= 0xFFFF
    ensures forall k: nat :: k < 16 ==> JsonString.HexDigit(k) as int == UPPER_DIGITS[k] as int
    ensures JsonString.EscapeUnit(h)
         == ['\\' as int, 'u' as int, UPPER_DIGITS[h / 0x1000] as int, UPPER_DIGITS[h / 0x100 % 0x10] as int,
             UPPER_DIGITS[h / 0x10 % 0x10] as int, UPPER_DIGITS[h % 0x10] as int]
  {
    forall k: nat | k < 16
      ensures JsonString.HexDigit(k) as int == UPPER_DIGITS[k] as int
    {
    }
    hide JsonString.HexDigit;
  }
}

/**
 * The number grammar of RFC 8259 (section 6), stated without reference to the reader. The reader reads every
 * number that is followed by something that does not continue it, and reports an integer of 64 bits by its
 * value and anything else by its literal.
 */
module NumberGrammar {
  import opened JsonText
  import opened JsonEvents
  import JsonNumber

  datatype Exponent =
    | NoExponent
    | Exponent(mark: byte, sign: Bytes, digits: Bytes)

  /** `fraction` is empty when there is no point. */
  datatype Number = Number(minus: bool, whole: Bytes, fraction: Bytes, exponent: Exponent)

  const ZERO: byte := '0' as int
  const POINT: byte := '.' as int
  const PLUS: byte := '+' as int
  const HYPHEN: byte := '-' as int

  predicate IsDigit(c: byte) {
    '0' as int <= c as int <= '9' as int
  }

  predicate IsMark(c: byte) {
    c as int == 'e' as int || c as int == 'E' as int
  }

  predicate AllDigits(w: Bytes) {
    forall k :: 0 <= k < |w| ==> IsDigit(w[k])
  }

  predicate ExponentOk(x: Exponent) {
    match x
    case NoExponent => true
    case Exponent(mark, sign, digits) =>
      && IsMark(mark)
      && (sign == [] || sign == [PLUS] || sign == [HYPHEN])
      && digits != [] && AllDigits(digits)
  }

  predicate NumberOk(n: Number) {
    && n.whole != [] && AllDigits(n.whole) && (n.whole[0] == ZERO ==> |n.whole| == 1)
    && AllDigits(n.fraction)
    && ExponentOk(n.exponent)
  }

  function Sign(minus: bool): Bytes {
    if minus then [HYPHEN] else []
  }

  function FractionSpelling(digits: Bytes): Bytes {
    if digits == [] then [] else [POINT] + digits
  }

  function ExponentSpelling(x: Exponent): Bytes {
    match x
    case NoExponent => []
    case Exponent(mark, sign, digits) => [mark] + sign + digits
  }

  function Spelling(n: Number): Bytes {
    Sign(n.minus) + n.whole + FractionSpelling(n.fraction) + ExponentSpelling(n.exponent)
  }

  /** Digits do not follow a leading zero, and are read to the end otherwise. */
  predicate WholeStops(w: Bytes, c: byte) {
    w == [ZERO] || !IsDigit(c)
  }

  /** A character that does not continue the number. */
  predicate MayFollow(n: Number, c: byte) {
    if n.exponent.Exponent? then !IsDigit(c)
    else
      && !IsMark(c)
      && (if n.fraction != [] then !IsDigit(c)
          else c != POINT && WholeStops(n.whole, c))
  }

  /** The fraction at position `i`, or its absence, ends where it should. */
  predicate FractionStops(w: Bytes, t: Bytes, i: nat) {
    if w == [] then Peek(t, i) != POINT else !IsDigit(Peek(t, i + 1 + |w|))
  }

  /** Character `c` does not continue the exponent, or begin one. */
  predicate ExponentStops(x: Exponent, c: byte) {
    if x.NoExponent? then !IsMark(c) else !IsDigit(c)
  }

  /** The number that decimal digits stand for. */
  function Decimal(w: Bytes): (v: nat)
    requires AllDigits(w)
  {
    if w == [] then 0 else 10 * Decimal(w[..|w| - 1]) + (w[|w| - 1] as int - '0' as int)
  }

  function IntegerValue(n: Number): int
    requires AllDigits(n.whole)
  {
    if n.minus then -(Decimal(n.whole) as int) else Decimal(n.whole)
  }

  /** An integer that fits a signed or an unsigned integer of 64 bits. */
  predicate IsInteger(n: Number)
    requires AllDigits(n.whole)
  {
    && n.fraction == [] && n.exponent.NoExponent?
    && -0x8000_0000_0000_0000 <= IntegerValue(n) <= 0xFFFF_FFFF_FFFF_FFFF
  }

  /** The report of a number: of a negative literal as a signed integer, of another as an unsigned one, in 32 bits if
      it fits them. */
  function EventOf(n: Number): Event
    requires AllDigits(n.whole)
  {
    var v := IntegerValue(n);
    if !IsInteger(n) then Double(Spelling(n))
    else if n.minus then if v >= -0x8000_0000 then Int(v) else Int64(v)
    else if v <= 0xFFFF_FFFF then Uint(v)
    else Uint64(v)
  }

  // ---------------------------------------------------------------- every number is read

  lemma SameDigit(c: byte)
    ensures IsDigit(c) <==> JsonNumber.IsDigit(c)
  {
  }

  lemma DigitsStand(w: Bytes, t: Bytes, i: nat)
    requires AllDigits(w) && Occurs(w, t, i)
    ensures forall k :: i <= k < i + |w| ==> JsonNumber.IsDigit(t[k])
  {
    forall k | i <= k < i + |w|
      ensures JsonNumber.IsDigit(t[k])
    {
      OccursAt(w, t, i, k - i);
      SameDigit(w[k - i]);
    }
  }

  lemma {:induction false} ValueIsDecimal(w: Bytes, t: Bytes, i: nat)
    requires AllDigits(w) && Occurs(w, t, i)
    requires forall k :: i <= k < i + |w| ==> JsonNumber.IsDigit(t[k])
    ensures JsonNumber.Value(t, i, i + |w|) == Decimal(w)
    decreases |w|
  {
    if w != [] {
      var front := w[..|w| - 1];
      assert w == front + [w[|w| - 1]];
      OccursSplit(front, [w[|w| - 1]], t, i);
      OccursAt(w, t, i, |w| - 1);
      ValueIsDecimal(front, t, i);
    }
  }

  /** The extent of a run of digits. */
  lemma RunIsRead(w: Bytes, t: Bytes, i: nat)
    requires AllDigits(w) && Occurs(w, t, i) && !IsDigit(Peek(t, i + |w|))
    ensures JsonNumber.DigitsEnd(t, i) == i + |w|
    ensures w != [] ==> JsonNumber.IsDigit(Peek(t, i))
  {
    DigitsStand(w, t, i);
    SameDigit(Peek(t, i + |w|));
    JsonNumber.DigitsEndIs(t, i, i + |w|);
  }

  lemma WholeIsRead(w: Bytes, t: Bytes, i: nat)
    requires w != [] && AllDigits(w) && (w[0] == ZERO ==> |w| == 1) && Occurs(w, t, i)
    requires WholeStops(w, Peek(t, i + |w|))
    ensures JsonNumber.IntegerEnd(t, i) == i + |w| && JsonNumber.IsDigit(Peek(t, i))
    ensures JsonNumber.Value(t, i, i + |w|) == Decimal(w)
  {
    OccursAt(w, t, i, 0);
    SameDigit(w[0]);
    DigitsStand(w, t, i);
    ValueIsDecimal(w, t, i);
    hide Decimal, JsonNumber.Value;
    if w[0] != ZERO {
      RunIsRead(w, t, i);
    }
  }

  lemma FractionIsRead(w: Bytes, t: Bytes, i: nat)
    requires AllDigits(w) && Occurs(FractionSpelling(w), t, i)
    requires FractionStops(w, t, i)
    ensures JsonNumber.FractionEnd(t, i) == i + |FractionSpelling(w)|
  {
    if w != [] {
      var point: Bytes := [POINT];
      OccursSplit(point, w, t, i);
      OccursAt(point, t, i, 0);
      RunIsRead(w, t, i + 1);
    }
  }

  lemma ExponentIsRead(x: Exponent, t: Bytes, i: nat)
    requires ExponentOk(x) && Occurs(ExponentSpelling(x), t, i)
    requires ExponentStops(x, Peek(t, i + |ExponentSpelling(x)|))
    ensures JsonNumber.ExponentEnd(t, i) == i + |ExponentSpelling(x)|
  {
    if x.Exponent? {
      OccursSplit([x.mark] + x.sign, x.digits, t, i);
      OccursSplit([x.mark], x.sign, t, i);
      OccursAt([x.mark], t, i, 0);
      if x.sign != [] {
        OccursAt(x.sign, t, i + 1, 0);
      }
      OccursAt(x.digits, t, i + 1 + |x.sign|, 0);
      SameDigit(x.digits[0]);
      RunIsRead(x.digits, t, i + 1 + |x.sign|);
    }
  }

  /** Where the parts of a number stand, and what stands behind the whole digits and the fraction. */
  lemma PartsStand(n: Number, t: Bytes, i: nat) returns (start: nat, end: nat, mark: nat)
    requires NumberOk(n) && Occurs(Spelling(n), t, i)
    ensures start == i + |Sign(n.minus)| && end == start + |n.whole| && mark == end + |FractionSpelling(n.fraction)|
    ensures mark + |ExponentSpelling(n.exponent)| == i + |Spelling(n)|
    ensures Occurs(Sign(n.minus), t, i) && Occurs(n.whole, t, start)
    ensures Occurs(FractionSpelling(n.fraction), t, end) && Occurs(ExponentSpelling(n.exponent), t, mark)
    ensures n.fraction != [] ==> Peek(t, end) == POINT
    ensures n.exponent.Exponent? ==> Peek(t, mark) == n.exponent.mark
  {
    var a, b, c, d := Sign(n.minus), n.whole, FractionSpelling(n.fraction), ExponentSpelling(n.exponent);
    hide Occurs, NumberOk;
    start, end, mark := i + |a|, i + |a + b|, i + |a + b + c|;
    OccursSplit(a + b + c, d, t, i);
    OccursSplit(a + b, c, t, i);
    OccursSplit(a, b, t, i);
    if n.fraction != [] {
      OccursAt(c, t, end, 0);
    }
    if n.exponent.Exponent? {
      OccursAt(d, t, mark, 0);
    }
  }

  lemma StartsWithDigitOrSign(n: Number)
    requires NumberOk(n)
    ensures |Spelling(n)| > 0 && (Spelling(n)[0] == HYPHEN || IsDigit(Spelling(n)[0]))
  {
    hide FractionSpelling, ExponentSpelling;
  }

  /** The spelling of a number that an event reports, or a refusal if it is too big a double. */
  function Outcome(c: Client, n: Number, at: nat, log: seq<Event>): JsonEvents.Outcome
    requires AllDigits(n.whole)
  {
    if EventOf(n).Double? && c.tooBig(Spelling(n)) then Failed(log) else Emit(c, log, EventOf(n), at)
  }

  lemma LengthOf(n: Number)
    ensures |Spelling(n)|
         == |Sign(n.minus)| + |n.whole| + |FractionSpelling(n.fraction)| + |ExponentSpelling(n.exponent)|
    ensures |Sign(n.minus)| == if n.minus then 1 else 0
    ensures |FractionSpelling(n.fraction)| == if n.fraction == [] then 0 else 1 + |n.fraction|
    ensures |ExponentSpelling(n.exponent)| == 0 <==> n.exponent.NoExponent?
  {
  }

  /** Main result: every number of the grammar is read in full, wherever it stands, and reported exactly. */
  lemma NumberIsRead(c: Client, n: Number, t: Bytes, i: nat, log: seq<Event>)
    requires NumberOk(n) && Occurs(Spelling(n), t, i) && MayFollow(n, Peek(t, i + |Spelling(n)|))
    ensures JsonNumber.ParseNumber(c, t, i, log) == Outcome(c, n, i + |Spelling(n)|, log)
  {
    hide Spelling, FractionSpelling, ExponentSpelling, Sign, MayFollow, IsDigit, AllDigits, ExponentOk, Outcome, Occurs;
    hide WholeStops, FractionStops, ExponentStops, Peek;
    LengthOf(n);
    var start, end, mark := PartsStand(n, t, i);
    FollowersEnd(n, t, start, end, mark, i + |Spelling(n)|);
    SignIsRead(n, t, i);
    SpelledOut(Spelling(n), t, i);
    WholeIsRead(n.whole, t, start);
    FractionIsRead(n.fraction, t, end);
    ExponentIsRead(n.exponent, t, mark);
    hide NumberOk;
    DigitsAreRead(c, n, t, i, log, start, end, mark, i + |Spelling(n)|);
  }

  /** No part is continued by what stands behind it. */
  lemma FollowersEnd(n: Number, t: Bytes, start: nat, end: nat, mark: nat, at: nat)
    requires NumberOk(n) && MayFollow(n, Peek(t, at))
    requires n.fraction == [] ==> mark == end
    requires n.exponent.NoExponent? ==> at == mark
    requires n.fraction != [] ==> Peek(t, end) == POINT && mark == end + 1 + |n.fraction|
    requires n.exponent.Exponent? ==> Peek(t, mark) == n.exponent.mark
    ensures WholeStops(n.whole, Peek(t, end))
    ensures FractionStops(n.fraction, t, end)
    ensures ExponentStops(n.exponent, Peek(t, at))
  {
    hide AllDigits;
  }

  lemma SignIsRead(n: Number, t: Bytes, i: nat)
    requires NumberOk(n) && Occurs(Sign(n.minus), t, i) && (!n.minus ==> Occurs(n.whole, t, i))
    ensures n.minus <==> Peek(t, i) == JsonNumber.MINUS
  {
    if n.minus {
      OccursAt(Sign(true), t, i, 0);
    } else {
      OccursAt(n.whole, t, i, 0);
    }
  }

  lemma NarrowestIsEvent(n: Number)
    requires AllDigits(n.whole) && n.fraction == [] && n.exponent.NoExponent?
    ensures var e := JsonNumber.Narrowest(n.minus, Decimal(n.whole));
            EventOf(n) == if e.Fits? then e.e else Double(Spelling(n))
    ensures JsonNumber.Narrowest(n.minus, Decimal(n.whole)).Fits? <==> IsInteger(n)
  {
    hide Decimal, Spelling;
  }

  lemma DigitsAreRead(c: Client, n: Number, t: Bytes, i: nat, log: seq<Event>,
                      start: nat, end: nat, mark: nat, at: nat)
    requires AllDigits(n.whole) && start < end <= mark <= at <= |t| && i <= start && t[i..at] == Spelling(n)
    requires n.minus <==> Peek(t, i) == JsonNumber.MINUS
    requires start == if n.minus then i + 1 else i
    requires JsonNumber.IntegerEnd(t, start) == end && JsonNumber.FractionEnd(t, end) == mark
    requires JsonNumber.Value(t, start, end) == Decimal(n.whole) && JsonNumber.ExponentEnd(t, mark) == at
    requires at == end <==> n.fraction == [] && n.exponent.NoExponent?
    ensures JsonNumber.ParseNumber(c, t, i, log) == Outcome(c, n, at, log)
  {
    hide Decimal, JsonNumber.Value, JsonNumber.IntegerEnd, JsonNumber.FractionEnd, JsonNumber.ExponentEnd, Emit;
    hide Spelling;
    if at == end {
      NarrowestIsEvent(n);
      hide EventOf, IsInteger, JsonNumber.Narrowest;
    } else {
      assert EventOf(n) == Double(Spelling(n));
      hide EventOf, JsonNumber.Narrowest;
    }
  }

  lemma SpelledOut(w: Bytes, t: Bytes, i: nat)
    requires Occurs(w, t, i)
    ensures i + |w| <= |t| && t[i..i + |w|] == w
  {
  }

  // ---------------------------------------------------------------- and nothing else is

  lemma RunStands(t: Bytes, i: nat, j: nat)
    requires i <= j <= |t| && forall k :: i <= k < j ==> JsonNumber.IsDigit(t[k])
    ensures AllDigits(t[i..j]) && Occurs(t[i..j], t, i)
  {
    forall k | 0 <= k < j - i
      ensures IsDigit(t[i..j][k])
    {
      SameDigit(t[i + k]);
    }
  }

  lemma FractionStands(t: Bytes, i: nat) returns (w: Bytes)
    requires i <= |t| && JsonNumber.FractionEnd(t, i) != -1
    ensures AllDigits(w) && Occurs(FractionSpelling(w), t, i)
    ensures JsonNumber.FractionEnd(t, i) == i + |FractionSpelling(w)|
    ensures FractionStops(w, t, i)
  {
    if Peek(t, i) == POINT {
      var j := JsonNumber.DigitsEnd(t, i + 1);
      w := t[i + 1..j];
      RunStands(t, i + 1, j);
      SameDigit(Peek(t, j));
      assert Occurs([POINT], t, i);
      OccursJoined([POINT], w, t, i);
      hide Occurs, AllDigits;
    } else {
      w := [];
    }
  }

  lemma MarkStands(t: Bytes, i: nat, d: nat)
    requires i < |t| && d == (if JsonNumber.IsSign(Peek(t, i + 1)) then i + 2 else i + 1)
    ensures d <= |t| && t[i..d] == [t[i]] + t[i + 1..d] && Occurs(t[i..d], t, i)
    ensures t[i + 1..d] in {[], [PLUS], [HYPHEN]}
  {
    assert d == i + 2 ==> t[i + 1..d] == [t[i + 1]];
  }

  lemma ExponentStands(t: Bytes, i: nat) returns (x: Exponent)
    requires i <= |t| && JsonNumber.ExponentEnd(t, i) != -1
    ensures ExponentOk(x) && Occurs(ExponentSpelling(x), t, i)
    ensures JsonNumber.ExponentEnd(t, i) == i + |ExponentSpelling(x)|
    ensures ExponentStops(x, Peek(t, i + |ExponentSpelling(x)|))
  {
    if JsonNumber.IsExponentMark(Peek(t, i)) {
      var d := if JsonNumber.IsSign(Peek(t, i + 1)) then i + 2 else i + 1;
      var j := JsonNumber.DigitsEnd(t, d);
      x := Exponent(t[i], t[i + 1..d], t[d..j]);
      RunStands(t, d, j);
      SameDigit(Peek(t, j));
      MarkStands(t, i, d);
      OccursJoined(t[i..d], t[d..j], t, i);
    } else {
      x := NoExponent;
    }
  }

  lemma WholeStands(t: Bytes, i: nat) returns (w: Bytes)
    requires i <= |t| && JsonNumber.IntegerEnd(t, i) != i
    ensures w != [] && AllDigits(w) && (w[0] == ZERO ==> |w| == 1) && Occurs(w, t, i)
    ensures JsonNumber.IntegerEnd(t, i) == i + |w|
    ensures WholeStops(w, Peek(t, i + |w|))
  {
    var j := JsonNumber.IntegerEnd(t, i);
    w := t[i..j];
    RunStands(t, i, j);
    SameDigit(Peek(t, j));
    assert w[0] == t[i];
  }

  lemma SignStands(t: Bytes, i: nat, minus: bool)
    requires i <= |t| && (minus <==> Peek(t, i) == JsonNumber.MINUS)
    ensures Occurs(Sign(minus), t, i) && |Sign(minus)| == if minus then 1 else 0
  {
    assert minus ==> t[i..i + 1] == [HYPHEN];
  }

  lemma EndsOfRead(c: Client, t: Bytes, i: nat, start: nat, log: seq<Event>) returns (end: nat, mark: nat)
    requires i <= |t| && start == (if Peek(t, i) == JsonNumber.MINUS then i + 1 else i)
    requires JsonNumber.ParseNumber(c, t, i, log).Ok?
    ensures start < end <= mark <= |t| && JsonNumber.IntegerEnd(t, start) == end
    ensures JsonNumber.FractionEnd(t, end) == mark && JsonNumber.ExponentEnd(t, mark) != -1
  {
    hide JsonNumber.IntegerEnd, JsonNumber.FractionEnd, JsonNumber.ExponentEnd, JsonNumber.Value, Emit;
    end := JsonNumber.IntegerEnd(t, start);
    mark := JsonNumber.FractionEnd(t, end);
  }

  lemma PartsJoined(n: Number, t: Bytes, i: nat, start: nat, end: nat, mark: nat)
    requires start == i + |Sign(n.minus)| && end == start + |n.whole| && mark == end + |FractionSpelling(n.fraction)|
    requires Occurs(Sign(n.minus), t, i) && Occurs(n.whole, t, start)
    requires Occurs(FractionSpelling(n.fraction), t, end) && Occurs(ExponentSpelling(n.exponent), t, mark)
    ensures Occurs(Spelling(n), t, i)
  {
    hide Occurs, Sign, FractionSpelling, ExponentSpelling;
    OccursJoined(Sign(n.minus), n.whole, t, i);
    OccursJoined(Sign(n.minus) + n.whole, FractionSpelling(n.fraction), t, i);
    OccursJoined(Sign(n.minus) + n.whole + FractionSpelling(n.fraction), ExponentSpelling(n.exponent), t, i);
  }

  lemma NextMayFollow(n: Number, t: Bytes, end: nat, mark: nat, at: nat)
    requires n.whole != []
    requires n.fraction == [] ==> mark == end
    requires n.fraction != [] ==> mark == end + 1 + |n.fraction|
    requires n.exponent.NoExponent? ==> at == mark
    requires WholeStops(n.whole, Peek(t, end))
    requires FractionStops(n.fraction, t, end)
    requires ExponentStops(n.exponent, Peek(t, at))
    ensures MayFollow(n, Peek(t, at))
  {
    hide IsDigit;
  }

  /** The parts of what is read, and what stands behind them. */
  lemma PartsOfRead(c: Client, t: Bytes, i: nat, log: seq<Event>)
    returns (n: Number, start: nat, end: nat, mark: nat)
    requires i <= |t| && JsonNumber.ParseNumber(c, t, i, log).Ok?
    ensures NumberOk(n) && start == i + |Sign(n.minus)| && end == start + |n.whole|
    ensures mark == end + |FractionSpelling(n.fraction)|
    ensures Occurs(Sign(n.minus), t, i) && Occurs(n.whole, t, start)
    ensures Occurs(FractionSpelling(n.fraction), t, end) && Occurs(ExponentSpelling(n.exponent), t, mark)
    ensures WholeStops(n.whole, Peek(t, end))
    ensures FractionStops(n.fraction, t, end)
    ensures ExponentStops(n.exponent, Peek(t, mark + |ExponentSpelling(n.exponent)|))
  {
    hide JsonNumber.ParseNumber, JsonNumber.IntegerEnd, JsonNumber.FractionEnd, JsonNumber.ExponentEnd;
    hide Occurs, ExponentOk, AllDigits, Sign, FractionSpelling, ExponentSpelling, IsDigit;
    hide WholeStops, FractionStops, ExponentStops;
    var minus := Peek(t, i) == JsonNumber.MINUS;
    SignStands(t, i, minus);
    start := i + |Sign(minus)|;
    end, mark := EndsOfRead(c, t, i, start, log);
    hide Peek;
    var whole := WholeStands(t, start);
    var fraction := FractionStands(t, end);
    var exponent := ExponentStands(t, mark);
    n := Number(minus, whole, fraction, exponent);
  }

  /** Main result: whatever is read is a number of the grammar, in full. */
  lemma ReadIsNumber(c: Client, t: Bytes, i: nat, log: seq<Event>) returns (n: Number)
    requires i <= |t| && JsonNumber.ParseNumber(c, t, i, log).Ok?
    ensures NumberOk(n) && Occurs(Spelling(n), t, i) && MayFollow(n, Peek(t, i + |Spelling(n)|))
    ensures JsonNumber.ParseNumber(c, t, i, log) == Outcome(c, n, i + |Spelling(n)|, log)
  {
    hide JsonNumber.ParseNumber, Occurs, Sign, FractionSpelling, ExponentSpelling, Spelling, MayFollow, Outcome;
    hide IsDigit, AllDigits, ExponentOk, WholeStops, FractionStops, ExponentStops;
    var start, end, mark;
    n, start, end, mark := PartsOfRead(c, t, i, log);
    assert n.whole != [];
    hide NumberOk;
    PartsJoined(n, t, i, start, end, mark);
    LengthOf(n);
    NextMayFollow(n, t, end, mark, i + |Spelling(n)|);
    NumberIsRead(c, n, t, i, log);
  }
}
