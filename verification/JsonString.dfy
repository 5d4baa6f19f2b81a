/**
 * JSON strings: how the reader decodes them (libs/rapidjson/rapidjson/reader.h:904-923, 987-1054) and
 * how the writer escapes them (libs/rapidjson/rapidjson/writer.h:376-448), as functions, and the
 * proof that reading undoes writing.
 */
module JsonString {
  import opened JsonText
  import Utf8

  // ---------------------------------------------------------------- reading

  predicate IsHexDigit(c: byte) {
    0x30 <= c <= 0x39 || 0x41 <= c <= 0x46 || 0x61 <= c <= 0x66
  }

  function HexValue(c: byte): (v: nat)
    requires IsHexDigit(c)
    ensures v < 16
  {
    if c <= 0x39 then c as int - 0x30 else if c <= 0x46 then c as int - 0x41 + 10 else c as int - 0x61 + 10
  }

  predicate IsHex4(t: Bytes, i: nat) {
    IsHexDigit(Peek(t, i)) && IsHexDigit(Peek(t, i + 1)) && IsHexDigit(Peek(t, i + 2)) && IsHexDigit(Peek(t, i + 3))
  }

  /** The number that four hexadecimal digits spell. */
  function Hex4(t: Bytes, i: nat): (v: nat)
    requires IsHex4(t, i)
    ensures v <= 0xFFFF
  {
    HexValue(Peek(t, i)) * 4096 + HexValue(Peek(t, i + 1)) * 256
    + HexValue(Peek(t, i + 2)) * 16 + HexValue(Peek(t, i + 3))
  }

  /** What the character after a backslash stands for; 0 when it stands for nothing by itself. */
  function Unescaped(e: byte): byte {
    if e == 0x22 || e == 0x2F || e == 0x5C then e
    else if e == 0x62 then 0x08
    else if e == 0x66 then 0x0C
    else if e == 0x6E then 0x0A
    else if e == 0x72 then 0x0D
    else if e == 0x74 then 0x09
    else 0
  }

  const LETTER_U: byte := 0x75

  predicate IsHighSurrogate(h: nat) { 0xD800 <= h <= 0xDBFF }

  predicate IsLowSurrogate(h: nat) { 0xDC00 <= h <= 0xDFFF }

  function Paired(high: nat, low: nat): (cp: nat)
    requires IsHighSurrogate(high) && IsLowSurrogate(low)
    ensures 0x10000 <= cp <= 0x10FFFF
  {
    (high - 0xD800) * 1024 + (low - 0xDC00) + 0x10000
  }

  /** One round of the decoding loop. */
  datatype Piece =
    | Decoded(bytes: Bytes, next: nat)
    | Closed(next: nat)
    | Malformed

  function NextPiece(t: Bytes, i: nat): (p: Piece)
    requires i <= |t|
    ensures p.Decoded? ==> i + |p.bytes| <= p.next <= |t| && i < p.next
    ensures p.Closed? ==> p.next == i + 1 <= |t|
  {
    var c := Peek(t, i);
    if c == BACKSLASH then
      EscapedPiece(t, i)
    else if c == QUOTE then
      Closed(i + 1)
    else if c < 0x20 then
      Malformed
    else
      Decoded([c], i + 1)
  }

  function EscapedPiece(t: Bytes, i: nat): (p: Piece)
    requires i < |t|
    ensures p.Decoded? ==> i + |p.bytes| <= p.next <= |t| && i < p.next
    ensures !p.Closed?
  {
    var e := Peek(t, i + 1);
    if Unescaped(e) != 0 then
      Decoded([Unescaped(e)], i + 2)
    else if e == LETTER_U && CodeAt(t, i + 2).Code? then
      Decoded(Utf8.Encode(CodeAt(t, i + 2).codepoint), CodeAt(t, i + 2).next)
    else
      Malformed
  }

  /** The code point of a numeric escape. */
  datatype Code =
    | Code(codepoint: nat, next: nat)
    | NoCode

  /** The numeric escape whose digits start at `i`: one unit, or a surrogate pair. */
  function CodeAt(t: Bytes, i: nat): (c: Code)
    requires i <= |t|
    ensures c.Code? ==> c.codepoint <= Utf8.LAST_CODE_POINT && i + 4 <= c.next <= |t|
    ensures c.Code? && c.codepoint > 0xFFFF ==> i + 10 <= c.next
  {
    if !IsHex4(t, i) then
      NoCode
    else
      var h := Hex4(t, i);
      if !IsHighSurrogate(h) then
        Code(h, i + 4)
      else if Peek(t, i + 4) == BACKSLASH && Peek(t, i + 5) == LETTER_U && IsHex4(t, i + 6)
              && IsLowSurrogate(Hex4(t, i + 6)) then
        Code(Paired(h, Hex4(t, i + 6)), i + 10)
      else
        NoCode
  }

  datatype Decoding =
    | Str(bytes: Bytes, next: nat)
    | NoString

  function Prepend(w: Bytes, d: Decoding): Decoding {
    if d.Str? then Str(w + d.bytes, d.next) else NoString
  }

  /** The string whose opening quote stands just before `i`, and the position after its closing one. */
  function DecodeString(t: Bytes, i: nat): (d: Decoding)
    requires i <= |t|
    ensures d.Str? ==> i + |d.bytes| < d.next <= |t|
    decreases |t| - i
  {
    match NextPiece(t, i)
    case Decoded(w, next) => Prepend(w, DecodeString(t, next))
    case Closed(next) => Str([], next)
    case Malformed => NoString
  }

  // ---------------------------------------------------------------- writing

  function HexDigit(v: nat): byte
    requires v < 16
  {
    if v < 10 then 0x30 + v else 0x41 + v - 10
  }

  /** The escape of a byte: a letter, or `u` for a numeric escape, or 0 for none. */
  function EscapeLetter(c: byte): byte {
    if c == 0x08 then 0x62
    else if c == 0x09 then 0x74
    else if c == 0x0A then 0x6E
    else if c == 0x0C then 0x66
    else if c == 0x0D then 0x72
    else if c < 0x20 then LETTER_U
    else if c == 0x22 || c == 0x5C then c
    else 0
  }

  function EscapeByte(c: byte): Bytes {
    var e := EscapeLetter(c);
    if e == 0 then [c]
    else if e == LETTER_U then [BACKSLASH, e, 0x30, 0x30, HexDigit(c / 16), HexDigit(c % 16)]
    else [BACKSLASH, e]
  }

  function EscapeUnit(h: nat): (w: Bytes)
    requires h <= 0xFFFF
    ensures |w| == 6
  {
    [BACKSLASH, LETTER_U, HexDigit(h / 4096), HexDigit(h / 256 % 16), HexDigit(h / 16 % 16), HexDigit(h % 16)]
  }

  /** A code point as one numeric escape, or as two that form a surrogate pair. */
  function EscapePoint(cp: nat): Bytes
    requires cp <= Utf8.LAST_CODE_POINT
  {
    if cp <= 0xFFFF then EscapeUnit(cp)
    else EscapeUnit((cp - 0x10000) / 1024 + 0xD800) + EscapeUnit((cp - 0x10000) % 1024 + 0xDC00)
  }

  /** Which encoding the output has: it decides what happens to the bytes from 0x80 on. */
  datatype Target = ToUtf8 | ToAscii

  /** The rest of a string as it is written, closing quote included; None for malformed UTF-8. */
  datatype Escaping =
    | Written(bytes: Bytes)
    | Unwritable

  function Before(w: Bytes, e: Escaping): Escaping {
    if e.Written? then Written(w + e.bytes) else Unwritable
  }

  /** One round of the escaping loop: the text for the code units s[i..next]. */
  datatype Escaped =
    | Escaped(text: Bytes, next: nat)
    | Refused

  function EscapeNext(s: Bytes, i: nat, target: Target): (e: Escaped)
    requires i < |s|
    ensures e.Escaped? ==> i < e.next <= |s|
  {
    if target.ToAscii? && s[i] >= 0x80 then
      EscapeChar(s, i)
    else
      Escaped(EscapeByte(s[i]), i + 1)
  }

  function EscapeChar(s: Bytes, i: nat): (e: Escaped)
    requires i < |s|
    ensures e.Escaped? <==> Utf8.CharLength(s, i) > 0
    ensures e.Escaped? ==> e.next == i + Utf8.CharLength(s, i)
  {
    var n := Utf8.CharLength(s, i);
    if n == 0 then
      Refused
    else
      Utf8Bound(s[i..i + n]);
      Escaped(EscapePoint(Utf8.CodePoint(s[i..i + n])), i + n)
  }

  function EscapeFrom(s: Bytes, i: nat, target: Target): Escaping
    requires i <= |s|
    decreases |s| - i
  {
    if i == |s| then
      Written([QUOTE])
    else
      match EscapeNext(s, i, target)
      case Escaped(w, next) => Before(w, EscapeFrom(s, next, target))
      case Refused => Unwritable
  }

  lemma Utf8Bound(w: Bytes)
    requires Utf8.IsChar(w)
    ensures Utf8.CodePoint(w) <= Utf8.LAST_CODE_POINT
  {
    Utf8.CharIsEncodingOfCodePoint(w);
  }

  /** A string as the writer prints it. */
  function Quoted(s: Bytes, target: Target): Escaping {
    Before([QUOTE], EscapeFrom(s, 0, target))
  }

  // ---------------------------------------------------------------- reading undoes writing

  lemma HexDigitIsRead(v: nat)
    requires v < 16
    ensures IsHexDigit(HexDigit(v)) && HexValue(HexDigit(v)) == v
  {
  }

  lemma ByteIsRead(t: Bytes, i: nat, c: byte)
    requires Occurs(EscapeByte(c), t, i)
    ensures NextPiece(t, i) == Decoded([c], i + |EscapeByte(c)|)
  {
    var w := EscapeByte(c);
    OccursAt(w, t, i, 0);
    if |w| > 1 {
      OccursAt(w, t, i, 1);
      if |w| > 2 {
        OccursAt(w, t, i, 2);
        OccursAt(w, t, i, 3);
        OccursAt(w, t, i, 4);
        OccursAt(w, t, i, 5);
        HexDigitIsRead(c / 16);
        HexDigitIsRead(c % 16);
        assert Hex4(t, i + 2) == c;
      }
    }
  }

  lemma HexSplit(h: nat)
    ensures h == h / 4096 * 4096 + h / 256 % 16 * 256 + h / 16 % 16 * 16 + h % 16
  {
    assert h / 256 == h / 4096 * 16 + h / 256 % 16;
    assert h / 16 == h / 256 * 16 + h / 16 % 16;
  }

  lemma UnitIsRead(t: Bytes, i: nat, h: nat)
    requires h <= 0xFFFF && Occurs(EscapeUnit(h), t, i)
    ensures Peek(t, i) == BACKSLASH && Peek(t, i + 1) == LETTER_U
    ensures IsHex4(t, i + 2) && Hex4(t, i + 2) == h
  {
    var w := EscapeUnit(h);
    OccursAt(w, t, i, 0);
    OccursAt(w, t, i, 1);
    OccursAt(w, t, i, 2);
    OccursAt(w, t, i, 3);
    OccursAt(w, t, i, 4);
    OccursAt(w, t, i, 5);
    HexDigitIsRead(h / 4096);
    HexDigitIsRead(h / 256 % 16);
    HexDigitIsRead(h / 16 % 16);
    HexDigitIsRead(h % 16);
    hide HexDigit, HexValue, IsHexDigit;
    HexSplit(h);
  }

  lemma PointIsRead(t: Bytes, i: nat, cp: nat)
    requires Utf8.IsScalarValue(cp) && Occurs(EscapePoint(cp), t, i)
    ensures NextPiece(t, i) == Decoded(Utf8.Encode(cp), i + |EscapePoint(cp)|)
  {
    hide Hex4, IsHex4, EscapeUnit, Utf8.Encode;
    if cp <= 0xFFFF {
      UnitIsRead(t, i, cp);
    } else {
      var high, low := (cp - 0x10000) / 1024 + 0xD800, (cp - 0x10000) % 1024 + 0xDC00;
      OccursSplit(EscapeUnit(high), EscapeUnit(low), t, i);
      UnitIsRead(t, i, high);
      UnitIsRead(t, i + 6, low);
      assert Paired(high, low) == cp;
    }
  }

  lemma StepIsRead(s: Bytes, k: nat, target: Target, t: Bytes, i: nat)
    requires k < |s|
    requires var e := EscapeNext(s, k, target); e.Escaped? && Occurs(e.text, t, i)
    ensures var e := EscapeNext(s, k, target);
            NextPiece(t, i) == Decoded(s[k..e.next], i + |e.text|)
  {
    if target.ToAscii? && s[k] >= 0x80 {
      var w := s[k..k + Utf8.CharLength(s, k)];
      Utf8.CharIsEncodingOfCodePoint(w);
      PointIsRead(t, i, Utf8.CodePoint(w));
    } else {
      ByteIsRead(t, i, s[k]);
    }
  }

  lemma DecodeByPiece(t: Bytes, i: nat, w: Bytes, next: nat)
    requires i <= |t| && NextPiece(t, i) == Decoded(w, next)
    ensures DecodeString(t, i) == Prepend(w, DecodeString(t, next))
  {
  }

  lemma EscapeByStep(s: Bytes, k: nat, target: Target, w: Bytes, next: nat)
    requires k < |s| && EscapeNext(s, k, target) == Escaped(w, next)
    ensures EscapeFrom(s, k, target) == Before(w, EscapeFrom(s, next, target))
  {
  }

  /** The first round of escaping, and the round of decoding that reads it. */
  lemma PrependRest(s: Bytes, k: nat, next: nat, at: nat)
    requires k <= next <= |s|
    ensures Prepend(s[k..next], Str(s[next..], at)) == Str(s[k..], at)
  {
    assert s[k..] == s[k..next] + s[next..];
  }

  lemma FirstStep(s: Bytes, k: nat, target: Target, t: Bytes, i: nat)
    returns (w: Bytes, next: nat, tail: Bytes)
    requires k < |s|
    requires EscapeFrom(s, k, target).Written? && Occurs(EscapeFrom(s, k, target).bytes, t, i)
    ensures k < next <= |s| && i + |w| <= |t|
    ensures EscapeFrom(s, k, target).bytes == w + tail
    ensures EscapeFrom(s, next, target) == Written(tail) && Occurs(tail, t, i + |w|)
    ensures DecodeString(t, i) == Prepend(s[k..next], DecodeString(t, i + |w|))
  {
    var e := EscapeNext(s, k, target);
    w, next, tail := e.text, e.next, EscapeFrom(s, e.next, target).bytes;
    EscapeByStep(s, k, target, w, next);
    OccursSplit(w, tail, t, i);
    StepIsRead(s, k, target, t, i);
    DecodeByPiece(t, i, s[k..next], i + |w|);
  }

  lemma QuoteIsRead(t: Bytes, i: nat)
    requires Occurs([QUOTE], t, i)
    ensures DecodeString(t, i) == Str([], i + 1)
  {
    OccursAt([QUOTE], t, i, 0);
  }

  lemma LastQuoteIsRead(s: Bytes, target: Target, t: Bytes, i: nat)
    requires EscapeFrom(s, |s|, target).Written? && Occurs(EscapeFrom(s, |s|, target).bytes, t, i)
    ensures DecodeString(t, i) == Str(s[|s|..], i + |EscapeFrom(s, |s|, target).bytes|)
  {
    hide DecodeString;
    QuoteIsRead(t, i);
  }

  /** Main result: a printed string reads back as the string that was printed, wherever it stands. */
  lemma {:induction false} WrittenStringIsRead(s: Bytes, k: nat, target: Target, t: Bytes, i: nat)
    requires k <= |s|
    requires EscapeFrom(s, k, target).Written? && Occurs(EscapeFrom(s, k, target).bytes, t, i)
    ensures DecodeString(t, i) == Str(s[k..], i + |EscapeFrom(s, k, target).bytes|)
    decreases |s| - k
  {
    hide *;
    if k == |s| {
      LastQuoteIsRead(s, target, t, i);
    } else {
      var w, next, tail := FirstStep(s, k, target, t, i);
      WrittenStringIsRead(s, next, target, t, i + |w|);
      PrependRest(s, k, next, i + |w| + |tail|);
    }
  }

  /** With UTF-8 output every byte string can be printed. */
  lemma {:induction false} Utf8OutputNeverFails(s: Bytes, k: nat)
    requires k <= |s|
    ensures EscapeFrom(s, k, ToUtf8).Written?
    decreases |s| - k
  {
    if k < |s| {
      Utf8OutputNeverFails(s, k + 1);
    }
  }

  predicate AllAscii(w: Bytes) {
    forall k :: 0 <= k < |w| ==> w[k] < 0x80
  }

  lemma ByteIsAscii(c: byte)
    requires c < 0x80
    ensures AllAscii(EscapeByte(c))
  {
  }

  lemma UnitIsAscii(h: nat)
    requires h <= 0xFFFF
    ensures AllAscii(EscapeUnit(h))
  {
  }

  lemma PointIsAscii(cp: nat)
    requires cp <= Utf8.LAST_CODE_POINT
    ensures AllAscii(EscapePoint(cp))
  {
    hide EscapeUnit;
    if cp <= 0xFFFF {
      UnitIsAscii(cp);
    } else {
      UnitIsAscii((cp - 0x10000) / 1024 + 0xD800);
      UnitIsAscii((cp - 0x10000) % 1024 + 0xDC00);
    }
  }

  lemma EscapesAreAscii(s: Bytes, k: nat)
    requires k < |s| && EscapeNext(s, k, ToAscii).Escaped?
    ensures AllAscii(EscapeNext(s, k, ToAscii).text)
  {
    hide EscapeByte, EscapePoint, AllAscii, Utf8.CharLength, Utf8.CodePoint, Utf8.IsChar;
    if s[k] < 0x80 {
      ByteIsAscii(s[k]);
    } else {
      var w := s[k..k + Utf8.CharLength(s, k)];
      Utf8Bound(w);
      PointIsAscii(Utf8.CodePoint(w));
    }
  }

  lemma EscapesCharacters(s: Bytes, k: nat)
    requires k < |s|
    ensures var e := EscapeNext(s, k, ToAscii);
            && (e.Escaped? <==> Utf8.CharLength(s, k) > 0)
            && (e.Escaped? ==> e.next == k + Utf8.CharLength(s, k))
  {
    if s[k] < 0x80 {
      assert Utf8.CharLength(s, k) == 1;
    }
    hide EscapeByte, EscapePoint;
  }

  /** With ASCII output exactly the well-formed UTF-8 strings can be printed, all in ASCII. */
  lemma {:induction false} AsciiOutputIsForWellFormed(s: Bytes, k: nat)
    requires k <= |s|
    ensures EscapeFrom(s, k, ToAscii).Written? <==> Utf8.WellFormed(s, k)
    ensures EscapeFrom(s, k, ToAscii).Written? ==> AllAscii(EscapeFrom(s, k, ToAscii).bytes)
    decreases |s| - k
  {
    if k < |s| {
      var e := EscapeNext(s, k, ToAscii);
      EscapesCharacters(s, k);
      hide EscapeNext, Utf8.CharLength;
      if e.Escaped? {
        EscapesAreAscii(s, k);
        AsciiOutputIsForWellFormed(s, e.next);
      }
    }
  }
}
