/**
 * The UTF-8 encoding of libs/rapidjson/rapidjson/encodings.h (lines 91-222), measured against the
 * grammar of section 4 of RFC 3629.
 *
 * The source shifts and masks; here `x >> k` is division by 2^k and `(x << 6) | (c & 0x3F)` is
 * `x * 64 + c % 64`, which is the same because the two operands of every `|` share no bits
 * (MaskedBitsAdd).
 */
module Utf8 {
  import opened JsonText

  const LAST_CODE_POINT := 0x10FFFF

  /** Code points that have a UTF-8 form: all but the surrogates. */
  predicate IsScalarValue(cp: nat) {
    cp < 0xD800 || 0xE000 <= cp <= LAST_CODE_POINT
  }

  function Encode(cp: nat): Bytes
    requires cp <= LAST_CODE_POINT
  {
    if cp <= 0x7F then
      [cp]
    else if cp <= 0x7FF then
      [0xC0 + cp / 64, 0x80 + cp % 64]
    else if cp <= 0xFFFF then
      [0xE0 + cp / 4096, 0x80 + cp / 64 % 64, 0x80 + cp % 64]
    else
      [0xF0 + cp / 262144, 0x80 + cp / 4096 % 64, 0x80 + cp / 64 % 64, 0x80 + cp % 64]
  }

  // ---------------------------------------------------------------- the grammar of RFC 3629

  predicate IsTail(c: byte) {
    0x80 <= c <= 0xBF
  }

  predicate IsChar2(a: byte, b: byte) {
    0xC2 <= a <= 0xDF && IsTail(b)
  }

  predicate IsChar3(a: byte, b: byte, c: byte) {
    || (a == 0xE0 && 0xA0 <= b <= 0xBF && IsTail(c))
    || (0xE1 <= a <= 0xEC && IsTail(b) && IsTail(c))
    || (a == 0xED && 0x80 <= b <= 0x9F && IsTail(c))
    || (0xEE <= a <= 0xEF && IsTail(b) && IsTail(c))
  }

  predicate IsChar4(a: byte, b: byte, c: byte, d: byte) {
    || (a == 0xF0 && 0x90 <= b <= 0xBF && IsTail(c) && IsTail(d))
    || (0xF1 <= a <= 0xF3 && IsTail(b) && IsTail(c) && IsTail(d))
    || (a == 0xF4 && 0x80 <= b <= 0x8F && IsTail(c) && IsTail(d))
  }

  /** `w` is one UTF8-char. */
  predicate IsChar(w: Bytes) {
    || (|w| == 1 && w[0] <= 0x7F)
    || (|w| == 2 && IsChar2(w[0], w[1]))
    || (|w| == 3 && IsChar3(w[0], w[1], w[2]))
    || (|w| == 4 && IsChar4(w[0], w[1], w[2], w[3]))
  }

  /** The length of the UTF8-char that stands at position `i`, or 0. */
  function CharLength(t: Bytes, i: nat): (n: nat)
    ensures n > 0 ==> i + n <= |t| && IsChar(t[i..i + n])
  {
    var a, b, c, d := Peek(t, i), Peek(t, i + 1), Peek(t, i + 2), Peek(t, i + 3);
    if i < |t| && a <= 0x7F then 1
    else if IsChar2(a, b) then 2
    else if IsChar3(a, b, c) then 3
    else if IsChar4(a, b, c, d) then 4
    else 0
  }

  lemma CharLengthFinds(t: Bytes, i: nat, n: nat)
    requires i + n <= |t| && IsChar(t[i..i + n])
    ensures CharLength(t, i) == n
  {
    var w := t[i..i + n];
    assert forall k :: 0 <= k < n ==> w[k] == t[i + k];
    assert w[0] == t[i];
    if n > 1 { assert w[1] == t[i + 1]; }
    if n > 2 { assert w[2] == t[i + 2]; }
    if n > 3 { assert w[3] == t[i + 3]; }
  }

  /** The number that a UTF8-char stands for. */
  function CodePoint(w: Bytes): (cp: nat)
    requires IsChar(w)
  {
    if |w| == 1 then w[0]
    else if |w| == 2 then Point2(w[0], w[1])
    else if |w| == 3 then Point3(w[0], w[1], w[2])
    else Point4(w[0], w[1], w[2], w[3])
  }

  function Point2(a: int, b: int): int { (a - 0xC0) * 64 + (b - 0x80) }

  function Point3(a: int, b: int, c: int): int { ((a - 0xE0) * 64 + (b - 0x80)) * 64 + (c - 0x80) }

  function Point4(a: int, b: int, c: int, d: int): int {
    (((a - 0xF0) * 64 + (b - 0x80)) * 64 + (c - 0x80)) * 64 + (d - 0x80)
  }

  /** A sequence of UTF8-chars. */
  predicate WellFormed(t: Bytes, i: nat)
    requires i <= |t|
    decreases |t| - i
  {
    i == |t| || (CharLength(t, i) > 0 && WellFormed(t, i + CharLength(t, i)))
  }

  // ---------------------------------------------------------------- Encode inverts CodePoint

  /** Scalar values encode to one UTF8-char that stands for them; surrogates to none. */
  lemma EncodeIsExact(cp: nat)
    requires cp <= LAST_CODE_POINT
    ensures IsChar(Encode(cp)) <==> IsScalarValue(cp)
    ensures IsScalarValue(cp) ==> CodePoint(Encode(cp)) == cp
  {
    var q, r := cp / 64, cp % 64;
    assert cp == q * 64 + r;
    assert cp / 4096 == q / 64;
    assert cp / 262144 == q / 64 / 64;
  }

  /** No two spellings of one code point: a UTF8-char is the encoding of what it stands for. */
  lemma CharIsEncodingOfCodePoint(w: Bytes)
    requires IsChar(w)
    ensures IsScalarValue(CodePoint(w)) && Encode(CodePoint(w)) == w
  {
    if |w| == 3 {
      EncodePoint3(w[0], w[1], w[2]);
    } else if |w| == 4 {
      EncodePoint4(w[0], w[1], w[2], w[3]);
    }
  }

  lemma EncodePoint3(a: byte, b: byte, c: byte)
    requires IsChar3(a, b, c)
    ensures IsScalarValue(Point3(a, b, c)) && Encode(Point3(a, b, c)) == [a, b, c]
  {
    Digits64(0, a as int - 0xE0, b as int - 0x80, c as int - 0x80);
  }

  lemma EncodePoint4(a: byte, b: byte, c: byte, d: byte)
    requires IsChar4(a, b, c, d)
    ensures 0xFFFF < Point4(a, b, c, d) <= LAST_CODE_POINT && Encode(Point4(a, b, c, d)) == [a, b, c, d]
  {
    Digits64(a as int - 0xF0, b as int - 0x80, c as int - 0x80, d as int - 0x80);
  }

  lemma Digits64(a: nat, b: nat, c: nat, d: nat)
    requires b < 64 && c < 64 && d < 64
    ensures var n := ((a * 64 + b) * 64 + c) * 64 + d;
            n / 262144 == a && n / 4096 % 64 == b && n / 64 % 64 == c && n % 64 == d
            && n / 4096 == a * 64 + b
  {
    var n := ((a * 64 + b) * 64 + c) * 64 + d;
    assert n / 64 == (a * 64 + b) * 64 + c;
    assert n / 4096 == n / 64 / 64 == a * 64 + b;
    assert n / 262144 == n / 4096 / 64 == a;
  }

  /** The two operands of each `|` in Encode and Decode occupy different bits. */
  lemma MaskedBitsAdd(x: bv32, c: bv32)
    ensures x <= 0x7FF ==> (0xC0 | ((x >> 6) & 0xFF)) == 0xC0 + (x >> 6)
    ensures x <= 0xFFFF ==> (0xE0 | ((x >> 12) & 0xFF)) == 0xE0 + (x >> 12)
    ensures x <= 0x10FFFF ==> (0xF0 | ((x >> 18) & 0xFF)) == 0xF0 + (x >> 18)
    ensures (0x80 | (x & 0x3F)) == 0x80 + (x & 0x3F)
    ensures ((x << 6) | (c & 0x3F)) == (x << 6) + (c & 0x3F)
  {
  }

  // ---------------------------------------------------------------- Decode and Validate

  /** The table of byte classes; continuation bytes have one bit each so that a mask tests several. */
  function GetRange(c: byte): byte {
    if c < 0x80 then 0
    else if c < 0x90 then 0x10
    else if c < 0xA0 then 0x40
    else if c < 0xC0 then 0x20
    else if c < 0xC2 then 8
    else if c < 0xE0 then 2
    else if c == 0xE0 then 10
    else if c < 0xED then 3
    else if c == 0xED then 4
    else if c < 0xF0 then 3
    else if c == 0xF0 then 11
    else if c < 0xF4 then 6
    else if c == 0xF4 then 5
    else 8
  }

  /** `(GetRange(c) & mask) != 0`, for a mask over the three continuation bits. */
  predicate InMask(c: byte, tens: bool, twenties: bool, forties: bool) {
    var range := GetRange(c);
    (tens && range == 0x10) || (twenties && range == 0x20) || (forties && range == 0x40)
  }

  /** `(0xFF >> type) & c` for the types that a lead byte can have. */
  function LeadBits(range: byte, c: byte): byte {
    if range == 2 then c % 64
    else if range == 3 then c % 32
    else if range == 4 then c % 16
    else if range == 5 then c % 8
    else if range == 6 then c % 4
    else 0
  }

  lemma MasksAreTheGrammar(c: byte)
    ensures InMask(c, true, true, true) <==> IsTail(c)
    ensures InMask(c, true, false, true) <==> 0x80 <= c <= 0x9F
    ensures InMask(c, false, true, false) <==> 0xA0 <= c <= 0xBF
    ensures InMask(c, true, false, false) <==> 0x80 <= c <= 0x8F
    ensures InMask(c, false, true, true) <==> 0x90 <= c <= 0xBF
    ensures IsTail(c) ==> c % 64 == c as int - 0x80
  {
  }

  lemma LeadBitsAreTheGrammar(c: byte)
    ensures GetRange(c) == 2 ==> LeadBits(2, c) == c as int - 0xC0
    ensures GetRange(c) in {3, 4, 10} ==> LeadBits(GetRange(c), c) == c as int - 0xE0
    ensures GetRange(c) in {5, 6, 11} ==> LeadBits(GetRange(c), c) == c as int - 0xF0
  {
  }

  /** What stands at position `i`, from the class of its lead byte: the switch of the source. */
  lemma CharByClass(t: Bytes, i: nat)
    requires i < |t|
    ensures var a, b, c, d := Peek(t, i), Peek(t, i + 1), Peek(t, i + 2), Peek(t, i + 3);
            var n := CharLength(t, i);
            && (a < 0x80 ==> n == 1)
            && (GetRange(a) == 2 ==> n == if IsTail(b) then 2 else 0)
            && (GetRange(a) == 3 ==> n == if IsTail(b) && IsTail(c) then 3 else 0)
            && (GetRange(a) == 4 ==> n == if 0x80 <= b <= 0x9F && IsTail(c) then 3 else 0)
            && (GetRange(a) == 10 ==> n == if 0xA0 <= b <= 0xBF && IsTail(c) then 3 else 0)
            && (GetRange(a) == 5 ==> n == if 0x80 <= b <= 0x8F && IsTail(c) && IsTail(d) then 4 else 0)
            && (GetRange(a) == 6 ==> n == if IsTail(b) && IsTail(c) && IsTail(d) then 4 else 0)
            && (GetRange(a) == 11 ==> n == if 0x90 <= b <= 0xBF && IsTail(c) && IsTail(d) then 4 else 0)
            && (a >= 0x80 && GetRange(a) !in {2, 3, 4, 5, 6, 10, 11} ==> n == 0)
  {
  }

  /** CodePoint of the UTF8-char at `i`, read off the text. */
  function PointAt(t: Bytes, i: nat): (cp: int)
    ensures CharLength(t, i) > 0 ==> cp == CodePoint(t[i..i + CharLength(t, i)])
  {
    var n := CharLength(t, i);
    if n == 1 then Peek(t, i)
    else if n == 2 then Point2(Peek(t, i), Peek(t, i + 1))
    else if n == 3 then Point3(Peek(t, i), Peek(t, i + 1), Peek(t, i + 2))
    else Point4(Peek(t, i), Peek(t, i + 1), Peek(t, i + 2), Peek(t, i + 3))
  }

  /** The stream that Decode and Validate take bytes from, and the one Validate copies them to. */
  class ByteStream {
    const text: Bytes
    var at: nat
    var copied: Bytes

    constructor (text: Bytes, at: nat)
      ensures this.text == text && this.at == at && copied == []
    {
      this.text := text;
      this.at := at;
      this.copied := [];
    }

    method Take() returns (c: byte)
      modifies this`at
      ensures c == Peek(text, old(at)) && at == old(at) + 1
    {
      c := Peek(text, at);
      at := at + 1;
    }

    /** One continuation byte: shift its six bits in, and test its class against the mask. */
    method TakeBits(before: nat, tens: bool, twenties: bool, forties: bool)
      returns (ok: bool, codepoint: nat)
      modifies this`at
      ensures at == old(at) + 1
      ensures ok <==> InMask(Peek(text, old(at)), tens, twenties, forties)
      ensures ok ==> codepoint == before * 64 + (Peek(text, old(at)) as int - 0x80)
    {
      var c := Take();
      MasksAreTheGrammar(c);
      codepoint := before * 64 + c % 64;
      ok := InMask(c, tens, twenties, forties);
    }

    /** Succeeds exactly on the sequences of section 4 of RFC 3629, and yields their code point. */
    method Decode() returns (ok: bool, codepoint: nat)
      requires at < |text|
      modifies this`at
      ensures ok <==> CharLength(text, old(at)) > 0
      ensures ok ==> at == old(at) + CharLength(text, old(at))
      ensures ok ==> codepoint == CodePoint(text[old(at)..at])
    {
      hide CharLength, GetRange, InMask, LeadBits;
      CharByClass(text, at);
      MasksAreTheGrammar(Peek(text, at + 1));
      MasksAreTheGrammar(Peek(text, at + 2));
      MasksAreTheGrammar(Peek(text, at + 3));
      ghost var cp := PointAt(text, at);
      var c := Take();
      if c < 0x80 { return true, c; }
      LeadBitsAreTheGrammar(c);
      var range := GetRange(c);
      codepoint := LeadBits(range, c);
      var second, third, fourth := false, true, true;
      if range == 2 {
        second, codepoint := TakeBits(codepoint, true, true, true);
      } else if range == 3 {
        second, codepoint := TakeBits(codepoint, true, true, true);
        third, codepoint := TakeBits(codepoint, true, true, true);
      } else if range == 4 {
        second, codepoint := TakeBits(codepoint, true, false, true);
        third, codepoint := TakeBits(codepoint, true, true, true);
      } else if range == 5 {
        second, codepoint := TakeBits(codepoint, true, false, false);
        third, codepoint := TakeBits(codepoint, true, true, true);
        fourth, codepoint := TakeBits(codepoint, true, true, true);
      } else if range == 6 {
        second, codepoint := TakeBits(codepoint, true, true, true);
        third, codepoint := TakeBits(codepoint, true, true, true);
        fourth, codepoint := TakeBits(codepoint, true, true, true);
      } else if range == 10 {
        second, codepoint := TakeBits(codepoint, false, true, false);
        third, codepoint := TakeBits(codepoint, true, true, true);
      } else if range == 11 {
        second, codepoint := TakeBits(codepoint, false, true, true);
        third, codepoint := TakeBits(codepoint, true, true, true);
        fourth, codepoint := TakeBits(codepoint, true, true, true);
      }
      ok := second && third && fourth;
      assert ok ==> codepoint == cp;
    }

    /** Everything from position `from` was copied behind `base`. */
    ghost predicate CopiedFrom(from: nat, base: Bytes)
      reads this
    {
      from <= at && copied == base + Taken(text, from, at - from)
    }

    lemma WhatWasCopied(from: nat, base: Bytes)
      requires CopiedFrom(from, base)
      ensures |copied| == |base| + at - from
      ensures at <= |text| ==> copied == base + text[from..at]
    {
    }

    /** Copy one continuation byte, and test its class against the mask. */
    method CopyBits(tens: bool, twenties: bool, forties: bool, ghost from: nat, ghost base: Bytes)
      returns (ok: bool)
      requires CopiedFrom(from, base)
      modifies this`at, this`copied
      ensures at == old(at) + 1 && CopiedFrom(from, base)
      ensures ok <==> InMask(Peek(text, old(at)), tens, twenties, forties)
    {
      var c := Take();
      copied := copied + [c];
      ok := InMask(c, tens, twenties, forties);
    }

    /** Accepts the same sequences as Decode, and copies exactly the bytes it took. */
    method Validate() returns (ok: bool)
      requires at < |text|
      modifies this`at, this`copied
      ensures ok <==> CharLength(text, old(at)) > 0
      ensures ok ==> at == old(at) + CharLength(text, old(at))
      ensures ok ==> copied == old(copied) + text[old(at)..at]
      ensures |copied| <= |old(copied)| + 4
    {
      CharByClass(text, at);
      MasksAreTheGrammar(Peek(text, at + 1));
      MasksAreTheGrammar(Peek(text, at + 2));
      MasksAreTheGrammar(Peek(text, at + 3));
      ghost var from, before := at, copied;
      var c := Take();
      copied := copied + [c];
      assert CopiedFrom(from, before);
      hide CharLength, GetRange, InMask, Taken, CopiedFrom;
      if c < 0x80 {
        WhatWasCopied(from, before);
        return true;
      }
      var range := GetRange(c);
      var second, third, fourth := false, true, true;
      if range == 2 {
        second := CopyBits(true, true, true, from, before);
      } else if range == 3 {
        second := CopyBits(true, true, true, from, before);
        third := CopyBits(true, true, true, from, before);
      } else if range == 4 {
        second := CopyBits(true, false, true, from, before);
        third := CopyBits(true, true, true, from, before);
      } else if range == 5 {
        second := CopyBits(true, false, false, from, before);
        third := CopyBits(true, true, true, from, before);
        fourth := CopyBits(true, true, true, from, before);
      } else if range == 6 {
        second := CopyBits(true, true, true, from, before);
        third := CopyBits(true, true, true, from, before);
        fourth := CopyBits(true, true, true, from, before);
      } else if range == 10 {
        second := CopyBits(false, true, false, from, before);
        third := CopyBits(true, true, true, from, before);
      } else if range == 11 {
        second := CopyBits(false, true, true, from, before);
        third := CopyBits(true, true, true, from, before);
        fourth := CopyBits(true, true, true, from, before);
      }
      ok := second && third && fourth;
      WhatWasCopied(from, before);
    }
  }

  /** The `n` code units read from position `i` on. */
  function Taken(t: Bytes, i: nat, n: nat): (w: Bytes)
    ensures |w| == n
    ensures i + n <= |t| ==> w == t[i..i + n]
  {
    if n == 0 then [] else Taken(t, i, n - 1) + [Peek(t, i + n - 1)]
  }
}
