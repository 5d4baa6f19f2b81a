/**
 * The text forms of a JSON Pointer (libs/rapidjson/rapidjson/pointer.h:805-1040): RFC 6901 sections 3
 * to 6, as functions, and the proof that parsing undoes printing.
 *
 * Main results: ParsedPointerRoundTrip and ParsedFragmentRoundTrip for whatever was parsed, and
 * ParsedPointerInTree for what Create and Get do with it.
 */
module PointerText {
  import opened JsonText
  import opened PointerTree
  import opened JsonString
  import opened JsonNumber
  import JsonDocument
  import Utf8

  const SOLIDUS: byte := 0x2F
  const TILDE: byte := 0x7E
  const PERCENT: byte := 0x25
  const HASH: byte := 0x23

  /** Everything but the unreserved characters of section 2.3 of RFC 3986. */
  predicate NeedPercentEncode(c: byte) {
    !(0x30 <= c <= 0x39 || 0x41 <= c <= 0x5A || 0x61 <= c <= 0x7A || c == 0x2D || c == 0x2E || c == 0x5F || c == 0x7E)
  }

  // ---------------------------------------------------------------- the index of a name

  const TWO_TO_32: nat := 0x1_0000_0000

  /** Decimal value in 32 bits with the wrap test of the source, which starts at `n`. */
  function IndexFrom(name: Bytes, j: nat, n: nat): (index: nat)
    requires j <= |name| && forall k :: 0 <= k < |name| ==> IsDigit(name[k])
    requires n < TWO_TO_32
    ensures index < TWO_TO_32
    decreases |name| - j
  {
    if j == |name| then
      n
    else
      var m := (n * 10 + DigitValue(name[j])) % TWO_TO_32;
      if m < n then INVALID_INDEX else IndexFrom(name, j + 1, m)
  }

  predicate AllDigits(name: Bytes) {
    forall k :: 0 <= k < |name| ==> IsDigit(name[k])
  }

  /** A name that RFC 6901 section 4 reads as an array index. */
  predicate IsNumeric(name: Bytes) {
    name != [] && AllDigits(name) && (|name| > 1 ==> name[0] != ZERO)
  }

  /** A number without leading zeros is an index; the index is a function of the name alone. */
  function IndexOf(name: Bytes): nat {
    if IsNumeric(name) then IndexFrom(name, 0, 0) else INVALID_INDEX
  }

  // ---------------------------------------------------------------- percent encoding

  /** `%XY` stands at `i`. */
  predicate IsTriplet(s: Bytes, i: nat) {
    i + 3 <= |s| && s[i] == PERCENT && IsHexDigit(s[i + 1]) && IsHexDigit(s[i + 2])
  }

  function TripletByte(s: Bytes, i: nat): byte
    requires IsTriplet(s, i)
  {
    HexValue(s[i + 1]) * 16 + HexValue(s[i + 2])
  }

  /** The bytes of the triplets that follow one another from `i` on: what a decoding stream yields. */
  function Triplets(s: Bytes, i: nat): (w: Bytes)
    requires i <= |s|
    ensures i + 3 * |w| <= |s|
    decreases |s| - i
  {
    if IsTriplet(s, i) then [TripletByte(s, i)] + Triplets(s, i + 3) else []
  }

  function Triplet(c: byte): Bytes {
    [PERCENT, HexDigit(c / 16), HexDigit(c % 16)]
  }

  function PercentEncode(w: Bytes): (e: Bytes)
    ensures |e| == 3 * |w|
  {
    if w == [] then [] else Triplet(w[0]) + PercentEncode(w[1..])
  }

  // ---------------------------------------------------------------- parsing

  datatype Error =
    | TokenMustBeginWithSolidus
    | InvalidEscape
    | InvalidPercentEncoding
    | CharacterMustPercentEncode

  /** One round of the loop over a name: what it appends, and where it goes on. */
  datatype Round =
    | Append(bytes: Bytes, next: nat)
    | Reject(error: Error, offset: nat)

  /** The character `c`, whose source ends at `i`: `~` and the digit after it are one character. */
  function Unescape(s: Bytes, c: byte, i: nat): (r: Round)
    requires i <= |s|
    ensures r.Append? ==> |r.bytes| == 1 && i <= r.next <= |s|
  {
    if c != TILDE then Append([c], i)
    else if i == |s| then Reject(InvalidEscape, i)
    else if s[i] == 0x30 then Append([TILDE], i + 1)
    else if s[i] == 0x31 then Append([SOLIDUS], i + 1)
    else Reject(InvalidEscape, i)
  }

  function NextRound(s: Bytes, i: nat, uri: bool): (r: Round)
    requires i < |s|
    ensures r.Append? ==> 0 < |r.bytes| && i + |r.bytes| <= r.next <= |s|
    ensures r.Append? && |r.bytes| > 1 ==> i + 3 * |r.bytes| == r.next
  {
    var c := s[i];
    if uri && c == PERCENT then
      var w := Triplets(s, i);
      var n := Utf8.CharLength(w, 0);
      if n == 0 then Reject(InvalidPercentEncoding, i)
      else if n == 1 then Unescape(s, w[0], i + 3)
      else Append(w[..n], i + 3 * n)
    else if uri && NeedPercentEncode(c) then
      Reject(CharacterMustPercentEncode, i)
    else
      Unescape(s, c, i + 1)
  }

  datatype ParsedName =
    | Name(bytes: Bytes, next: nat)
    | BadName(error: Error, offset: nat)

  function Then(w: Bytes, p: ParsedName): ParsedName {
    if p.Name? then Name(w + p.bytes, p.next) else p
  }

  /** The rest of a name, up to the next solidus or the end. */
  function NameFrom(s: Bytes, i: nat, uri: bool): (p: ParsedName)
    requires i <= |s|
    ensures p.Name? ==> i + |p.bytes| <= p.next <= |s| && (p.next < |s| ==> s[p.next] == SOLIDUS)
    decreases |s| - i
  {
    if i == |s| || s[i] == SOLIDUS then
      Name([], i)
    else
      match NextRound(s, i, uri)
      case Append(w, next) => Then(w, NameFrom(s, next, uri))
      case Reject(error, offset) => BadName(error, offset)
  }

  datatype Parsed =
    | Tokens(tokens: seq<Token>)
    | Failed(error: Error, offset: nat)

  function TokenOf(name: Bytes): Token {
    Token(name, IndexOf(name))
  }

  /** The tokens from the solidus at `i` on. */
  function TokensFrom(s: Bytes, i: nat, uri: bool): (p: Parsed)
    requires i <= |s| && (i < |s| ==> s[i] == SOLIDUS)
    decreases |s| - i
  {
    if i == |s| then
      Tokens([])
    else
      match NameFrom(s, i + 1, uri)
      case Name(name, next) => AfterToken(TokenOf(name), TokensFrom(s, next, uri))
      case BadName(error, offset) => Failed(error, offset)
  }

  function AfterToken(t: Token, p: Parsed): Parsed {
    if p.Tokens? then Tokens([t] + p.tokens) else p
  }

  function ParsePointer(s: Bytes): Parsed {
    var uri := Peek(s, 0) == HASH;
    var i := if uri then 1 else 0;
    if i != |s| && s[i] != SOLIDUS then Failed(TokenMustBeginWithSolidus, i) else TokensFrom(s, i, uri)
  }

  // ---------------------------------------------------------------- printing

  datatype Text =
    | Text(bytes: Bytes)
    | NoText

  function Following(w: Bytes, t: Text): Text {
    if t.Text? then Text(w + t.bytes) else NoText
  }

  /** One round of the loop over a name: the text of the character at `j`. */
  datatype Printed =
    | Printed(text: Bytes, next: nat)
    | Unprintable

  function PrintNext(name: Bytes, j: nat, uri: bool): (r: Printed)
    requires j < |name|
    ensures r.Printed? ==> |r.text| > 0 && j < r.next <= |name|
  {
    var c := name[j];
    if c == TILDE then Printed([TILDE, 0x30], j + 1)
    else if c == SOLIDUS then Printed([TILDE, 0x31], j + 1)
    else if uri && NeedPercentEncode(c) then
      var n := Utf8.CharLength(name, j);
      if n == 0 then Unprintable else Printed(PercentEncode(name[j..j + n]), j + n)
    else Printed([c], j + 1)
  }

  function NameText(name: Bytes, j: nat, uri: bool): Text
    requires j <= |name|
    decreases |name| - j
  {
    if j == |name| then
      Text([])
    else
      match PrintNext(name, j, uri)
      case Printed(w, next) => Following(w, NameText(name, next, uri))
      case Unprintable => NoText
  }

  /** The text of the tokens from the `k`-th on. */
  function TokensText(ts: seq<Token>, k: nat, uri: bool): Text
    requires k <= |ts|
    decreases |ts| - k
  {
    if k == |ts| then
      Text([])
    else
      var name := NameText(ts[k].name, 0, uri);
      if name.NoText? then NoText else Following([SOLIDUS] + name.bytes, TokensText(ts, k + 1, uri))
  }

  function StringifyTokens(ts: seq<Token>, uri: bool): Text {
    Following(if uri then [HASH] else [], TokensText(ts, 0, uri))
  }

  // ---------------------------------------------------------------- parsing undoes percent encoding

  lemma TripletIsRead(s: Bytes, i: nat, c: byte)
    requires Occurs(Triplet(c), s, i)
    ensures IsTriplet(s, i) && TripletByte(s, i) == c
  {
    OccursAt(Triplet(c), s, i, 0);
    OccursAt(Triplet(c), s, i, 1);
    OccursAt(Triplet(c), s, i, 2);
    HexDigitIsRead(c / 16);
    HexDigitIsRead(c % 16);
  }

  /** The decoding stream yields the encoded bytes first. */
  lemma {:induction false} TripletsAreRead(s: Bytes, i: nat, w: Bytes)
    requires Occurs(PercentEncode(w), s, i)
    ensures w <= Triplets(s, i)
    decreases |w|
  {
    if w != [] {
      OccursSplit(Triplet(w[0]), PercentEncode(w[1..]), s, i);
      TripletIsRead(s, i, w[0]);
      TripletsAreRead(s, i + 3, w[1..]);
      assert w == [w[0]] + w[1..];
    }
  }

  lemma PrefixChar(w: Bytes, t: Bytes)
    requires Utf8.IsChar(w) && w <= t
    ensures Utf8.CharLength(t, 0) == |w| && t[..|w|] == w
  {
    assert t[0..|w|] == w;
    Utf8.CharLengthFinds(t, 0, |w|);
  }

  /** A round of parsing reads what a round of printing wrote. */
  lemma RoundIsRead(name: Bytes, j: nat, uri: bool, s: Bytes, i: nat)
    requires j < |name|
    requires var r := PrintNext(name, j, uri); r.Printed? && Occurs(r.text, s, i)
    ensures var r := PrintNext(name, j, uri);
            i < |s| && s[i] != SOLIDUS && NextRound(s, i, uri) == Append(name[j..r.next], i + |r.text|)
  {
    var r := PrintNext(name, j, uri);
    OccursAt(r.text, s, i, 0);
    var c := name[j];
    if c == TILDE || c == SOLIDUS {
      OccursAt(r.text, s, i, 1);
    } else if uri && NeedPercentEncode(c) {
      PercentIsRead(name[j..r.next], s, i);
      assert PercentEncode(name[j..r.next])[0] == PERCENT;
      assert c == name[j..r.next][0];
    }
  }

  lemma PercentIsRead(w: Bytes, s: Bytes, i: nat)
    requires Utf8.IsChar(w) && w[0] != TILDE && Occurs(PercentEncode(w), s, i)
    ensures i < |s| && s[i] == PERCENT && NextRound(s, i, true) == Append(w, i + 3 * |w|)
  {
    OccursAt(PercentEncode(w), s, i, 0);
    TripletsAreRead(s, i, w);
    PrefixChar(w, Triplets(s, i));
  }

  lemma NameByRound(s: Bytes, i: nat, uri: bool, w: Bytes, next: nat)
    requires i < |s| && s[i] != SOLIDUS && NextRound(s, i, uri) == Append(w, next)
    ensures NameFrom(s, i, uri) == Then(w, NameFrom(s, next, uri))
  {
  }

  lemma TextByRound(name: Bytes, j: nat, uri: bool, w: Bytes, next: nat)
    requires j < |name| && PrintNext(name, j, uri) == Printed(w, next)
    ensures NameText(name, j, uri) == Following(w, NameText(name, next, uri))
  {
  }

  /** A printed name reads back, when a solidus or the end follows. */
  lemma {:induction false} NameIsRead(name: Bytes, j: nat, uri: bool, s: Bytes, i: nat)
    requires j <= |name|
    requires NameText(name, j, uri).Text? && Occurs(NameText(name, j, uri).bytes, s, i)
    requires var end := i + |NameText(name, j, uri).bytes|; end == |s| || s[end] == SOLIDUS
    ensures NameFrom(s, i, uri) == Name(name[j..], i + |NameText(name, j, uri).bytes|)
    decreases |name| - j
  {
    hide NextRound, PrintNext, NameFrom;
    if j == |name| {
      NameEnds(s, i, uri);
    } else {
      var r := PrintNext(name, j, uri);
      TextByRound(name, j, uri, r.text, r.next);
      var rest := NameText(name, r.next, uri).bytes;
      OccursSplit(r.text, rest, s, i);
      RoundIsRead(name, j, uri, s, i);
      NameByRound(s, i, uri, name[j..r.next], i + |r.text|);
      NameIsRead(name, r.next, uri, s, i + |r.text|);
      assert name[j..] == name[j..r.next] + name[r.next..];
    }
  }

  lemma NameEnds(s: Bytes, i: nat, uri: bool)
    requires i <= |s| && (i == |s| || s[i] == SOLIDUS)
    ensures NameFrom(s, i, uri) == Name([], i)
  {
  }

  /** The tokens of a pointer that came from parsing: their indexes follow from their names. */
  predicate IsParsed(ts: seq<Token>) {
    forall k :: 0 <= k < |ts| ==> ts[k] == TokenOf(ts[k].name)
  }

  lemma {:induction false} ParsingGivesParsed(s: Bytes, i: nat, uri: bool)
    requires i <= |s| && (i < |s| ==> s[i] == SOLIDUS)
    ensures TokensFrom(s, i, uri).Tokens? ==> IsParsed(TokensFrom(s, i, uri).tokens)
    decreases |s| - i
  {
    if i < |s| {
      var name := NameFrom(s, i + 1, uri);
      if name.Name? {
        ParsingGivesParsed(s, name.next, uri);
      }
    }
  }

  lemma NoTokensLeft(s: Bytes, uri: bool)
    ensures TokensFrom(s, |s|, uri) == Tokens([])
  {
  }

  lemma TokensByName(s: Bytes, i: nat, uri: bool)
    requires i < |s| && s[i] == SOLIDUS && NameFrom(s, i + 1, uri).Name?
    ensures var name := NameFrom(s, i + 1, uri);
            TokensFrom(s, i, uri) == AfterToken(TokenOf(name.bytes), TokensFrom(s, name.next, uri))
  {
    hide NameFrom, IndexOf;
  }

  lemma {:induction false} TokensAreRead(ts: seq<Token>, k: nat, uri: bool, s: Bytes, i: nat)
    requires k <= |ts| && IsParsed(ts)
    requires TokensText(ts, k, uri).Text? && Occurs(TokensText(ts, k, uri).bytes, s, i)
    requires i + |TokensText(ts, k, uri).bytes| == |s|
    ensures i < |s| ==> s[i] == SOLIDUS
    ensures TokensFrom(s, i, uri) == Tokens(ts[k..])
    decreases |ts| - k
  {
    hide NameText, NameFrom, IndexOf, TokensFrom, Occurs;
    if k == |ts| {
      NoTokensLeft(s, uri);
    } else {
      var name := NameText(ts[k].name, 0, uri).bytes;
      var rest := TokensText(ts, k + 1, uri).bytes;
      OccursSplit([SOLIDUS] + name, rest, s, i);
      OccursSplit([SOLIDUS], name, s, i);
      OccursAt([SOLIDUS], s, i, 0);
      TokensAreRead(ts, k + 1, uri, s, i + 1 + |name|);
      NameIsRead(ts[k].name, 0, uri, s, i + 1);
      TokensByName(s, i, uri);
      assert ts[k..] == [ts[k]] + ts[k + 1..];
    }
  }

  lemma TextStarts(ts: seq<Token>, uri: bool)
    requires TokensText(ts, 0, uri).Text?
    ensures var w := TokensText(ts, 0, uri).bytes; w == [] || w[0] == SOLIDUS
  {
    hide NameText;
  }

  /** Main result: the plain form of every parsed pointer parses back to it. */
  lemma PlainRoundTrip(ts: seq<Token>)
    requires IsParsed(ts)
    ensures StringifyTokens(ts, false).Text? && ParsePointer(StringifyTokens(ts, false).bytes) == Tokens(ts)
  {
    hide TokensText, TokensFrom;
    PlainTextExists(ts, 0);
    TextStarts(ts, false);
    var s := StringifyTokens(ts, false).bytes;
    assert s == TokensText(ts, 0, false).bytes && s[0..|s|] == s;
    TokensAreRead(ts, 0, false, s, 0);
  }

  lemma {:induction false} PlainTextExists(ts: seq<Token>, k: nat)
    requires k <= |ts|
    ensures TokensText(ts, k, false).Text?
    decreases |ts| - k
  {
    hide NameText;
    if k < |ts| {
      PlainNameExists(ts[k].name, 0);
      PlainTextExists(ts, k + 1);
    }
  }

  lemma {:induction false} PlainNameExists(name: Bytes, j: nat)
    requires j <= |name|
    ensures NameText(name, j, false).Text?
    decreases |name| - j
  {
    if j < |name| {
      PlainNameExists(name, j + 1);
    }
  }

  /** Main result: so does its URI fragment form, if it has one. */
  lemma FragmentRoundTrip(ts: seq<Token>)
    requires IsParsed(ts) && StringifyTokens(ts, true).Text?
    ensures ParsePointer(StringifyTokens(ts, true).bytes) == Tokens(ts)
  {
    hide TokensText, TokensFrom;
    TextStarts(ts, true);
    var rest := TokensText(ts, 0, true).bytes;
    var s := StringifyTokens(ts, true).bytes;
    assert s == [HASH] + rest && s[0..|s|] == s;
    OccursSplit([HASH], rest, s, 0);
    TokensAreRead(ts, 0, true, s, 1);
  }

  /** It has one exactly when every name is well-formed UTF-8. */
  lemma {:induction false} FragmentIsForUtf8(ts: seq<Token>, k: nat)
    requires k <= |ts|
    ensures TokensText(ts, k, true).Text? <==> forall m :: k <= m < |ts| ==> Utf8.WellFormed(ts[m].name, 0)
    decreases |ts| - k
  {
    hide NameText, Utf8.WellFormed;
    if k < |ts| {
      FragmentNameIsForUtf8(ts[k].name, 0);
      FragmentIsForUtf8(ts, k + 1);
    }
  }

  lemma {:induction false} FragmentNameIsForUtf8(name: Bytes, j: nat)
    requires j <= |name|
    ensures NameText(name, j, true).Text? <==> Utf8.WellFormed(name, j)
    decreases |name| - j
  {
    if j < |name| {
      StepIsChar(name, j);
      var r := PrintNext(name, j, true);
      hide PrintNext;
      if r.Printed? {
        FragmentNameIsForUtf8(name, r.next);
      }
    }
  }

  lemma StepIsChar(name: Bytes, j: nat)
    requires j < |name|
    ensures var r := PrintNext(name, j, true);
            && (r.Printed? <==> Utf8.CharLength(name, j) > 0)
            && (r.Printed? ==> r.next == j + Utf8.CharLength(name, j))
  {
    if name[j] < 0x80 {
      assert Utf8.CharLength(name, j) == 1;
    }
  }

  // ---------------------------------------------------------------- pointers that were parsed

  lemma DashIsNoIndex()
    ensures TokenOf(DASH).index == INVALID_INDEX
  {
    assert !IsDigit(DASH[0]);
  }

  /** What parsing yields has the indexes of its names, and none for "-". */
  lemma ParsedTokens(s: Bytes)
    requires ParsePointer(s).Tokens?
    ensures IsParsed(ParsePointer(s).tokens) && DashHasNoIndex(ParsePointer(s).tokens)
  {
    var uri := Peek(s, 0) == HASH;
    ParsingGivesParsed(s, if uri then 1 else 0, uri);
    DashIsNoIndex();
  }

  /** Main result: the plain form of whatever was parsed parses to the same pointer. */
  lemma ParsedPointerRoundTrip(s: Bytes)
    requires ParsePointer(s).Tokens?
    ensures var plain := StringifyTokens(ParsePointer(s).tokens, false);
            plain.Text? && ParsePointer(plain.bytes) == ParsePointer(s)
  {
    ParsedTokens(s);
    PlainRoundTrip(ParsePointer(s).tokens);
  }

  predicate NamesWellFormed(ts: seq<Token>) {
    forall m :: 0 <= m < |ts| ==> Utf8.WellFormed(ts[m].name, 0)
  }

  /** Main result: so does the fragment form, which exists exactly when the names are well-formed UTF-8. */
  lemma ParsedFragmentRoundTrip(s: Bytes)
    requires ParsePointer(s).Tokens?
    ensures var fragment := StringifyTokens(ParsePointer(s).tokens, true);
            && (fragment.Text? <==> NamesWellFormed(ParsePointer(s).tokens))
            && (fragment.Text? ==> ParsePointer(fragment.bytes) == ParsePointer(s))
  {
    var ts := ParsePointer(s).tokens;
    ParsedTokens(s);
    FragmentIsForUtf8(ts, 0);
    if NamesWellFormed(ts) {
      FragmentRoundTrip(ts);
    }
  }

  /**
   * Main result: in any tree, Create with a parsed pointer says "already exists" exactly when Get finds the
   * node, and Get after Create finds the very node that Create returned exactly when no "-" met an array.
   */
  lemma ParsedPointerInTree(s: Bytes, v: JsonDocument.Value)
    requires ParsePointer(s).Tokens?
    ensures var ts := ParsePointer(s).tokens;
            && (CreateFrom(v, ts).existed <==> GetFrom(v, ts).Found?)
            && (GetFrom(CreateFrom(v, ts).root, ts) == Found(CreateFrom(v, ts).path) <==> !SomeDashMeetsArray(v, ts))
  {
    var ts := ParsePointer(s).tokens;
    ParsedTokens(s);
    ExistsMeansFound(v, ts);
    if GetFrom(v, ts).Found? {
      FoundWithoutDash(v, ts);
    }
    GetAfterCreate(v, ts);
    NothingAfterDash(v, ts);
  }

  // ---------------------------------------------------------------- sizes

  function Solidi(s: Bytes, i: nat): (n: nat)
    requires i <= |s|
    decreases |s| - i
  {
    if i == |s| then 0 else Solidi(s, i + 1) + if s[i] == SOLIDUS then 1 else 0
  }

  /** Main result: one token for every solidus of the text. */
  lemma {:induction false} OneTokenPerSolidus(s: Bytes, i: nat, uri: bool)
    requires i <= |s| && (i < |s| ==> s[i] == SOLIDUS)
    ensures TokensFrom(s, i, uri).Tokens? ==> |TokensFrom(s, i, uri).tokens| == Solidi(s, i)
    decreases |s| - i
  {
    hide NameFrom;
    if i < |s| {
      var name := NameFrom(s, i + 1, uri);
      if name.Name? {
        NoSolidusInName(s, i + 1, uri);
        OneTokenPerSolidus(s, name.next, uri);
      }
    }
  }

  lemma {:induction false} NoSolidusInName(s: Bytes, i: nat, uri: bool)
    requires i <= |s|
    ensures NameFrom(s, i, uri).Name? ==> Solidi(s, i) == Solidi(s, NameFrom(s, i, uri).next)
    decreases |s| - i
  {
    if i < |s| && s[i] != SOLIDUS {
      var r := NextRound(s, i, uri);
      NoSolidusInRound(s, i, uri);
      hide NextRound;
      if r.Append? {
        NoSolidusInName(s, r.next, uri);
      }
    }
  }

  lemma NoSolidusInRound(s: Bytes, i: nat, uri: bool)
    requires i < |s| && s[i] != SOLIDUS
    ensures NextRound(s, i, uri).Append? ==> Solidi(s, i) == Solidi(s, NextRound(s, i, uri).next)
  {
    var r := NextRound(s, i, uri);
    if r.Append? {
      if uri && s[i] == PERCENT {
        var n := Utf8.CharLength(Triplets(s, i), 0);
        NoSolidusInTriplets(s, i, n);
      }
    }
  }

  lemma {:induction false} NoSolidusInTriplets(s: Bytes, i: nat, n: nat)
    requires i <= |s| && n <= |Triplets(s, i)|
    ensures Solidi(s, i) == Solidi(s, i + 3 * n)
    decreases n
  {
    if n > 0 {
      assert Solidi(s, i + 1) == Solidi(s, i + 2) == Solidi(s, i + 3);
      NoSolidusInTriplets(s, i + 3, n - 1);
    }
  }

  /** An index below 2^32 is the decimal value of its name. */
  lemma {:induction false} IndexIsValue(name: Bytes, j: nat)
    requires j <= |name| && AllDigits(name) && Value(name, 0, |name|) < TWO_TO_32
    ensures Value(name, 0, j) <= Value(name, 0, |name|)
    ensures IndexFrom(name, j, Value(name, 0, j)) == Value(name, 0, |name|)
    decreases |name| - j
  {
    if j < |name| {
      hide Value, IndexFrom;
      IndexIsValue(name, j + 1);
      ValueNext(name, j);
      RemainderIs(Value(name, 0, j + 1), 0, Value(name, 0, j + 1));
      IndexNext(name, j, Value(name, 0, j));
    }
  }

  lemma ValueNext(name: Bytes, j: nat)
    requires j < |name| && AllDigits(name)
    ensures Value(name, 0, j + 1) == Value(name, 0, j) * 10 + DigitValue(name[j])
  {
  }

  /** What an index ought to be: the value of the name, or invalid when it does not fit 32 bits. */
  function IntendedIndex(name: Bytes): nat
    requires IsNumeric(name)
  {
    if Value(name, 0, |name|) < TWO_TO_32 then Value(name, 0, |name|) else INVALID_INDEX
  }

  /** The digit at `k` makes the value modulo 2^32 smaller. */
  predicate Drops(name: Bytes, k: nat) {
    AllDigits(name) && k < |name| && Value(name, 0, k + 1) % TWO_TO_32 < Value(name, 0, k) % TWO_TO_32
  }

  /** One round of the loop. */
  lemma IndexNext(name: Bytes, j: nat, n: nat)
    requires j < |name| && AllDigits(name) && n < TWO_TO_32
    ensures var m := (n * 10 + DigitValue(name[j])) % TWO_TO_32;
            IndexFrom(name, j, n) == if m < n then INVALID_INDEX else IndexFrom(name, j + 1, m)
  {
  }

  lemma RemainderIs(x: nat, q: nat, r: nat)
    requires x == TWO_TO_32 * q + r && r < TWO_TO_32
    ensures x % TWO_TO_32 == r
  {
  }

  lemma WrappedNext(v: nat, d: nat)
    ensures (v % TWO_TO_32 * 10 + d) % TWO_TO_32 == (v * 10 + d) % TWO_TO_32
  {
    var q, r := v / TWO_TO_32, v % TWO_TO_32;
    var e, m := (r * 10 + d) / TWO_TO_32, (r * 10 + d) % TWO_TO_32;
    RemainderIs(v * 10 + d, q * 10 + e, m);
  }

  /** The loop carries the value modulo 2^32 until a digit makes it drop. */
  lemma {:induction false} IndexIsValueUntilDrop(name: Bytes, j: nat)
    requires j <= |name| && AllDigits(name)
    ensures IndexFrom(name, j, Value(name, 0, j) % TWO_TO_32)
         == if exists k :: j <= k && Drops(name, k) then INVALID_INDEX else Value(name, 0, |name|) % TWO_TO_32
    decreases |name| - j
  {
    if j < |name| {
      hide Value, IndexFrom;
      ValueNext(name, j);
      WrappedNext(Value(name, 0, j), DigitValue(name[j]));
      IndexNext(name, j, Value(name, 0, j) % TWO_TO_32);
      if !Drops(name, j) {
        IndexIsValueUntilDrop(name, j + 1);
        assert forall k :: j <= k && Drops(name, k) ==> j + 1 <= k;
      }
    }
  }

  /** The wrap test gives the intended index exactly for the names that fit, drop, or end on the invalid index. */
  lemma IndexIsRightExactlyWhen(name: Bytes)
    requires IsNumeric(name)
    ensures IndexOf(name) == IntendedIndex(name) <==>
            (Value(name, 0, |name|) < TWO_TO_32
             || Value(name, 0, |name|) % TWO_TO_32 == INVALID_INDEX
             || exists k :: Drops(name, k))
  {
    if Value(name, 0, |name|) < TWO_TO_32 {
      IndexIsValue(name, 0);
    } else {
      IndexIsValueUntilDrop(name, 0);
      assert (exists k :: 0 <= k && Drops(name, k)) <==> exists k :: Drops(name, k);
    }
  }

  /** After `j` digits of value `v` the loop has met no drop. */
  ghost predicate NoDropYet(name: Bytes, j: nat, v: nat) {
    && j <= |name| && AllDigits(name) && Value(name, 0, j) == v
    && IndexFrom(name, 0, 0) == IndexFrom(name, j, v % TWO_TO_32)
  }

  lemma RoundWithoutDrop(name: Bytes, j: nat, v: nat)
    requires NoDropYet(name, j, v) && j < |name| && name[j] == ZERO
    requires v % TWO_TO_32 <= v * 10 % TWO_TO_32
    ensures NoDropYet(name, j + 1, v * 10)
  {
    hide Value, IndexFrom;
    ValueNext(name, j);
    WrappedNext(v, 0);
    IndexNext(name, j, v % TWO_TO_32);
  }

  lemma RoundThatFits(name: Bytes, j: nat, v: nat)
    requires NoDropYet(name, j, v) && j < |name| && name[j] == ZERO && v * 10 < TWO_TO_32
    ensures NoDropYet(name, j + 1, v * 10)
  {
    RoundWithoutDrop(name, j, v);
  }

  lemma FiveAndFourZeros(name: Bytes)
    requires |name| == 10 && name[0] == 0x35 && forall k :: 1 <= k < 10 ==> name[k] == ZERO
    ensures NoDropYet(name, 5, 50000)
  {
    assert Value(name, 0, 1) == 5;
    IndexNext(name, 0, 0);
    assert NoDropYet(name, 1, 5);
    hide NoDropYet, Value, IndexFrom, AllDigits;
    RoundThatFits(name, 1, 5);
    RoundThatFits(name, 2, 50);
    RoundThatFits(name, 3, 500);
    RoundThatFits(name, 4, 5000);
  }

  lemma FiveAndNineZeros(name: Bytes)
    requires |name| == 10 && name[0] == 0x35 && forall k :: 1 <= k < 10 ==> name[k] == ZERO
    ensures NoDropYet(name, 10, 5000000000)
  {
    hide NoDropYet, Value, IndexFrom, AllDigits;
    FiveAndFourZeros(name);
    RoundThatFits(name, 5, 50000);
    RoundThatFits(name, 6, 500000);
    RoundThatFits(name, 7, 5000000);
    RoundThatFits(name, 8, 50000000);
    RoundWithoutDrop(name, 9, 500000000);
  }

  /** 5000000000 does not fit, but its wrapped value does not drop either: the name gets the index 705032704. */
  lemma WrapTestMisses(name: Bytes)
    requires |name| == 10 && name[0] == 0x35 && forall k :: 1 <= k < 10 ==> name[k] == ZERO
    ensures IsNumeric(name) && IntendedIndex(name) == INVALID_INDEX && IndexOf(name) == 705032704
  {
    FiveAndNineZeros(name);
    hide Value;
    assert IndexFrom(name, 10, 705032704) == 705032704;
  }

  // ---------------------------------------------------------------- the pointer object

  /** A token as it is stored: its name is a place in the name buffer. */
  datatype Stored = Stored(at: nat, length: nat, index: nat)

  /** `t` stands in the buffer `b` below `limit`, with its terminator. */
  predicate Stands(b: Bytes, d: Stored, t: Token, limit: nat) {
    && d.at + d.length < limit <= |b| && b[d.at + d.length] == 0
    && t == Token(b[d.at..d.at + d.length], d.index)
  }

  predicate AllStand(b: Bytes, ds: seq<Stored>, ts: seq<Token>, limit: nat) {
    |ts| <= |ds| && forall k :: 0 <= k < |ts| ==> Stands(b, ds[k], ts[k], limit)
  }

  lemma StandStill(b: Bytes, b': Bytes, ds: seq<Stored>, ts: seq<Token>, limit: nat, limit': nat)
    requires AllStand(b, ds, ts, limit)
    requires limit <= limit' <= |b| == |b'| && b[..limit] == b'[..limit]
    ensures AllStand(b', ds, ts, limit')
  {
    forall k | 0 <= k < |ts|
      ensures Stands(b', ds[k], ts[k], limit')
    {
      assert Stands(b, ds[k], ts[k], limit);
      var from, to := ds[k].at, ds[k].at + ds[k].length;
      assert b[..limit][from..to] == b[from..to];
      assert b'[..limit][from..to] == b'[from..to];
      assert b[..limit][to] == b'[..limit][to];
    }
  }

  lemma OneMoreStands(b: Bytes, ds: seq<Stored>, ts: seq<Token>, limit: nat, d: Stored, t: Token)
    requires AllStand(b, ds, ts, limit) && |ts| < |ds| && Stands(b, d, t, limit)
    ensures AllStand(b, ds[|ts| := d], ts + [t], limit)
  {
    var ds', ts' := ds[|ts| := d], ts + [t];
    forall k | 0 <= k < |ts'|
      ensures Stands(b, ds'[k], ts'[k], limit)
    {
      if k < |ts| {
        assert Stands(b, ds[k], ts[k], limit);
      }
    }
  }

  /** What parsing yields when `done` tokens are finished and `rest` is still to come. */
  function Finishing(done: seq<Token>, rest: Parsed): Parsed {
    if rest.Tokens? then Tokens(done + rest.tokens) else rest
  }

  lemma NameParsed(s: Bytes, i: nat, uri: bool, done: seq<Token>, name: Bytes, next: nat)
    requires i < |s| && s[i] == SOLIDUS && NameFrom(s, i + 1, uri) == Name(name, next)
    ensures Finishing(done, TokensFrom(s, i, uri)) == Finishing(done + [TokenOf(name)], TokensFrom(s, next, uri))
    ensures Solidi(s, i) == Solidi(s, next) + 1
  {
    hide NameFrom;
    NoSolidusInName(s, i + 1, uri);
    var rest := TokensFrom(s, next, uri);
    if rest.Tokens? {
      assert done + ([TokenOf(name)] + rest.tokens) == done + [TokenOf(name)] + rest.tokens;
    }
  }

  class Pointer {
    var nameBuffer: array<byte>
    var tokens: array<Stored>
    var tokenCount: nat
    var parseError: Parsed

    constructor ()
      ensures fresh(tokens) && fresh(nameBuffer) && tokens.Length == 0
    {
      nameBuffer := new byte[0];
      tokens := new Stored[0];
      tokenCount := 0;
      parseError := Tokens([]);
    }

    /** Append characters to the current name, which started at `start`. */
    method PutAll(w: Bytes, name: nat)
      requires name + |w| <= nameBuffer.Length
      modifies nameBuffer
      ensures nameBuffer[..] == old(nameBuffer[..name]) + w + old(nameBuffer[name + |w|..])
    {
      var k := 0;
      while k < |w|
        invariant k <= |w|
        invariant nameBuffer[..name] == old(nameBuffer[..name])
        invariant nameBuffer[name..name + k] == w[..k]
        invariant nameBuffer[name + |w|..] == old(nameBuffer[name + |w|..])
      {
        nameBuffer[name + k] := w[k];
        assert nameBuffer[name..name + k + 1] == nameBuffer[name..name + k] + [w[k]];
        k := k + 1;
      }
      assert nameBuffer[..] == nameBuffer[..name] + nameBuffer[name..name + |w|] + nameBuffer[name + |w|..];
    }

    /** Decode and validate one percent-encoded UTF-8 character into the buffer. */
    method ParsePercent(s: Bytes, i: nat, name: nat) returns (ok: bool, len: nat)
      requires i < |s| && name < i && |s| == nameBuffer.Length
      modifies nameBuffer
      ensures len == Utf8.CharLength(Triplets(s, i), 0) && (ok <==> len > 0)
      ensures nameBuffer[..name] == old(nameBuffer[..name])
      ensures ok ==> name + len < i + 3 * len && nameBuffer[name..name + len] == Triplets(s, i)[..len]
    {
      hide Utf8.CharLength;
      var input := Triplets(s, i);
      if input == [] {
        PutAll([0], name);
        NoCharInEmpty();
        return false, 0;
      }
      var stream := new Utf8.ByteStream(input, 0);
      ok := stream.Validate();
      PutAll(stream.copied, name);
      len := if ok then |stream.copied| else 0;
    }

    /**
     * One round of the loop over a name. The characters go to the buffer at `name`, which lags behind
     * the source, so that even a rejected percent sequence cannot reach the end of the buffer.
     */
    method ParseRound(s: Bytes, i: nat, uri: bool, name: nat) returns (ok: bool, r: Round)
      requires i < |s| && name < i && |s| == nameBuffer.Length
      modifies nameBuffer
      ensures r == NextRound(s, i, uri) && ok == r.Append?
      ensures nameBuffer[..name] == old(nameBuffer[..name])
      ensures ok ==> name + |r.bytes| < r.next && nameBuffer[name..name + |r.bytes|] == r.bytes
    {
      hide Utf8.CharLength, Triplets;
      var c, i := s[i], i;
      if uri {
        if c == PERCENT {
          var len;
          ok, len := ParsePercent(s, i, name);
          if !ok {
            return false, Reject(InvalidPercentEncoding, i);
          }
          if len > 1 {
            return true, Append(nameBuffer[name..name + len], i + 3 * len);
          }
          c := nameBuffer[name];
          assert c == nameBuffer[name..name + len][0];
          i := i + 2;
        } else if NeedPercentEncode(c) {
          return false, Reject(CharacterMustPercentEncode, i);
        }
      }
      i := i + 1;
      if c == TILDE {
        if i == |s| {
          return false, Reject(InvalidEscape, i);
        }
        c := s[i];
        if c == 0x30 {
          c := TILDE;
        } else if c == 0x31 {
          c := SOLIDUS;
        } else {
          return false, Reject(InvalidEscape, i);
        }
        i := i + 1;
      }
      nameBuffer[name] := c;
      return true, Append([c], i);
    }

    /** Writing behind a name extends it and leaves the buffer before it alone. */
    static lemma NameGrows(before: Bytes, after: Bytes, start: nat, name: nat, end: nat)
      requires start <= name <= end <= |before| == |after| && before[..name] == after[..name]
      ensures after[..start] == before[..start]
      ensures after[start..end] == before[start..name] + after[name..end]
    {
      assert before[..start] == before[..name][..start] && after[..start] == after[..name][..start];
      assert before[start..name] == before[..name][start..] && after[start..name] == after[..name][start..];
    }

    /** The loop over one name. */
    method ParseName(s: Bytes, i: nat, uri: bool, start: nat)
      returns (next: nat, name: nat, isNumber: bool, p: ParsedName)
      requires i <= |s| && start < i && |s| == nameBuffer.Length
      modifies nameBuffer
      ensures p == NameFrom(s, i, uri)
      ensures nameBuffer[..start] == old(nameBuffer[..start])
      ensures p.Name? ==> next == p.next && name == start + |p.bytes| && name < next
      ensures p.Name? ==> nameBuffer[start..name] == p.bytes && (isNumber <==> AllDigits(p.bytes))
    {
      hide NextRound, NameFrom, AllDigits, Then;
      NoDigitsYet();
      ThenNothing(NameFrom(s, i, uri));
      next, name, isNumber := i, start, true;
      var chars: Bytes := [];
      while next < |s| && s[next] != SOLIDUS
        invariant i <= next <= |s| && name == start + |chars| && name < next
        invariant nameBuffer[..start] == old(nameBuffer[..start]) && nameBuffer[start..name] == chars
        invariant isNumber <==> AllDigits(chars)
        invariant Then(chars, NameFrom(s, next, uri)) == NameFrom(s, i, uri)
        decreases |s| - next
      {
        ghost var before := nameBuffer[..];
        var ok, r := ParseRound(s, next, uri, name);
        NameRejected(s, next, uri);
        if !ok {
          ThenFails(chars, r.error, r.offset);
          p := BadName(r.error, r.offset);
          return;
        }
        NameByRound(s, next, uri, r.bytes, r.next);
        ThenTwice(chars, r.bytes, NameFrom(s, r.next, uri));
        RoundDigits(s, next, uri, chars);
        NameGrows(before, nameBuffer[..], start, name, name + |r.bytes|);
        isNumber := isNumber && |r.bytes| == 1 && IsDigit(r.bytes[0]);
        chars := chars + r.bytes;
        name := name + |r.bytes|;
        next := r.next;
      }
      NameEnds(s, next, uri);
      ThenEnds(chars, next);
      p := Name(chars, next);
    }

    /** The index of the name at `start`: all digits, no leading zero, and the wrap test. */
    method ToIndex(start: nat, length: nat, allDigits: bool) returns (index: nat)
      requires start + length <= nameBuffer.Length
      requires allDigits <==> AllDigits(nameBuffer[start..start + length])
      ensures index == IndexOf(nameBuffer[start..start + length])
    {
      ghost var name := nameBuffer[start..start + length];
      var isNumber := allDigits;
      if length == 0 {
        isNumber := false;
      }
      if isNumber && length > 1 && nameBuffer[start] == ZERO {
        isNumber := false;
      }
      var n := 0;
      if isNumber {
        var j := 0;
        while j < length
          invariant j <= length && n < TWO_TO_32
          invariant IndexFrom(name, j, n) == IndexFrom(name, 0, 0)
        {
          assert name[j] == nameBuffer[start + j];
          var m := (n * 10 + DigitValue(nameBuffer[start + j])) % TWO_TO_32;
          if m < n {
            return INVALID_INDEX;
          }
          n := m;
          j := j + 1;
        }
      }
      index := if isNumber then n else INVALID_INDEX;
    }

    /** Terminate the name that stands at `start`, and store its token. */
    method StoreToken(token: nat, start: nat, end: nat, isNumber: bool, ghost done: seq<Token>)
      requires token == |done| < tokens.Length && start <= end < nameBuffer.Length
      requires AllStand(nameBuffer[..], tokens[..], done, start)
      requires isNumber <==> AllDigits(nameBuffer[start..end])
      modifies nameBuffer, tokens
      ensures AllStand(nameBuffer[..], tokens[..], done + [TokenOf(old(nameBuffer[start..end]))], end + 1)
    {
      hide AllStand, IndexOf, AllDigits;
      ghost var before := nameBuffer[..];
      ghost var name := nameBuffer[start..end];
      nameBuffer[end] := 0;
      assert nameBuffer[..start] == before[..start];
      assert nameBuffer[start..end] == name;
      var index := ToIndex(start, end - start, isNumber);
      StandStill(before, nameBuffer[..], tokens[..], done, start, end + 1);
      OneMoreStands(nameBuffer[..], tokens[..], done, end + 1, Stored(start, end - start, index), TokenOf(name));
      tokens[token] := Stored(start, end - start, index);
    }

    method CountSolidi(s: Bytes) returns (n: nat)
      ensures n == Solidi(s, 0)
    {
      n := 0;
      var k := 0;
      while k < |s|
        invariant k <= |s| && n + Solidi(s, k) == Solidi(s, 0)
      {
        if s[k] == SOLIDUS {
          n := n + 1;
        }
        k := k + 1;
      }
    }

    /** Give up: no tokens and no names. */
    method Fail(error: Error, offset: nat)
      modifies this
      ensures parseError == Failed(error, offset) && tokenCount == 0
    {
      nameBuffer := new byte[0];
      tokens := new Stored[0];
      tokenCount := 0;
      parseError := Failed(error, offset);
    }

    /**
     * Main result: the tokens of the text, their names in a buffer no longer than the text, one token
     * allocated for every solidus; every access to the two arrays is within their bounds.
     */
    method Parse(s: Bytes) returns (ok: bool)
      requires tokens.Length == 0
      modifies this
      ensures ok == ParsePointer(s).Tokens?
      ensures ok ==> AllStand(nameBuffer[..], tokens[..], ParsePointer(s).tokens, nameBuffer.Length)
      ensures ok ==> |ParsePointer(s).tokens| == tokenCount == tokens.Length == Solidi(s, 0)
      ensures ok ==> nameBuffer.Length == |s|
      ensures !ok ==> parseError == ParsePointer(s) && tokenCount == 0
    {
      hide NameFrom, TokensFrom, IndexOf, AllStand, Finishing, Solidi, AllDigits;
      tokenCount := CountSolidi(s);
      tokens := new Stored[tokenCount](_ => Stored(0, 0, 0));
      nameBuffer := new byte[|s|](_ => 0);
      var i := 0;
      var uri := false;
      if Peek(s, 0) == HASH {
        SolidiFrom(s);
      }
      if Peek(s, i) == HASH {
        uri := true;
        i := i + 1;
      }
      if i != |s| && s[i] != SOLIDUS {
        Fail(TokenMustBeginWithSolidus, i);
        return false;
      }
      ghost var done: seq<Token> := [];
      ghost var whole := TokensFrom(s, i, uri);
      NothingStands(nameBuffer[..], tokens[..]);
      NothingFinished(whole);
      var token: nat, name: nat := 0, 0;
      while i < |s|
        invariant i <= |s| && (i < |s| ==> s[i] == SOLIDUS) && name <= i
        invariant fresh(tokens) && fresh(nameBuffer) && nameBuffer.Length == |s|
        invariant tokenCount == tokens.Length == Solidi(s, 0) == token + Solidi(s, i) && token == |done|
        invariant AllStand(nameBuffer[..], tokens[..], done, name)
        invariant Finishing(done, TokensFrom(s, i, uri)) == whole
        decreases |s| - i
      {
        var start := name;
        ghost var before := nameBuffer[..];
        var next, end, isNumber, p := ParseName(s, i + 1, uri, start);
        if p.BadName? {
          NameBad(s, i, uri, done);
          Fail(p.error, p.offset);
          return false;
        }
        assert nameBuffer[..start] == before[..start];
        StandStill(before, nameBuffer[..], tokens[..], done, start, start);
        NameParsed(s, i, uri, done, p.bytes, next);
        StoreToken(token, start, end, isNumber, done);
        done := done + [TokenOf(p.bytes)];
        token := token + 1;
        name := end + 1;
        i := next;
      }
      AllFinished(s, uri, done);
      StandStill(nameBuffer[..], nameBuffer[..], tokens[..], done, name, nameBuffer.Length);
      parseError := Tokens([]);
      ok := true;
    }

    /** The percent-encoding stream. */
    method PutTriplets(w: Bytes) returns (text: Bytes)
      ensures text == PercentEncode(w)
    {
      text := [];
      var k := 0;
      assert w[0..] == w;
      while k < |w|
        invariant k <= |w| && text + PercentEncode(w[k..]) == PercentEncode(w)
      {
        assert w[k..][1..] == w[k + 1..];
        assert text + Triplet(w[k]) + PercentEncode(w[k + 1..]) == text + PercentEncode(w[k..]);
        text := text + Triplet(w[k]);
        k := k + 1;
      }
    }

    /** One round of the loop over a name: the character at `j`. */
    method StringifyNext(name: Bytes, j: nat, uri: bool) returns (ok: bool, text: Bytes, next: nat)
      requires j < |name|
      ensures PrintNext(name, j, uri) == if ok then Printed(text, next) else Unprintable
    {
      var c := name[j];
      ok, text, next := true, [], j;
      if c == TILDE {
        text := text + [TILDE];
        text := text + [0x30];
      } else if c == SOLIDUS {
        text := text + [TILDE];
        text := text + [0x31];
      } else if uri && NeedPercentEncode(c) {
        var source := new Utf8.ByteStream(name, j);
        ok := source.Validate();
        if !ok {
          return;
        }
        text := PutTriplets(source.copied);
        assert source.copied == name[j..source.at];
        next := source.at - 1;
      } else {
        text := text + [c];
      }
      next := next + 1;
    }

    method StringifyName(name: Bytes, uri: bool) returns (ok: bool, os: Bytes)
      ensures NameText(name, 0, uri) == if ok then Text(os) else NoText
    {
      hide PrintNext;
      ok, os := true, [];
      var j := 0;
      FollowingNothing(NameText(name, 0, uri));
      while j < |name|
        invariant j <= |name| && Following(os, NameText(name, j, uri)) == NameText(name, 0, uri)
      {
        var text, next;
        ok, text, next := StringifyNext(name, j, uri);
        if !ok {
          return;
        }
        TextByRound(name, j, uri, text, next);
        FollowingTwice(os, text, NameText(name, next, uri));
        os := os + text;
        j := next;
      }
    }

    /** The text of the stored tokens. */
    method Stringify(uri: bool, ghost ts: seq<Token>) returns (ok: bool, os: Bytes)
      requires |ts| == tokenCount <= tokens.Length
      requires AllStand(nameBuffer[..], tokens[..], ts, nameBuffer.Length)
      ensures StringifyTokens(ts, uri) == if ok then Text(os) else NoText
    {
      hide NameText, AllStand, Stands;
      ok, os := true, if uri then [HASH] else [];
      var k := 0;
      while k < tokenCount
        invariant k <= tokenCount && Following(os, TokensText(ts, k, uri)) == StringifyTokens(ts, uri)
      {
        StandsAt(nameBuffer[..], tokens[..], ts, nameBuffer.Length, k);
        os := os + [SOLIDUS];
        var t := tokens[k];
        var text;
        ok, text := StringifyName(nameBuffer[t.at..t.at + t.length], uri);
        if !ok {
          return;
        }
        FollowingTwice(os[..|os| - 1], [SOLIDUS] + text, TokensText(ts, k + 1, uri));
        assert os + text == os[..|os| - 1] + ([SOLIDUS] + text);
        os := os + text;
        k := k + 1;
      }
    }
  }

  lemma SolidiFrom(s: Bytes)
    requires s == [] || s[0] != SOLIDUS
    ensures s != [] ==> Solidi(s, 0) == Solidi(s, 1)
  {
  }

  lemma StandsAt(b: Bytes, ds: seq<Stored>, ts: seq<Token>, limit: nat, k: nat)
    requires AllStand(b, ds, ts, limit) && k < |ts|
    ensures ds[k].at + ds[k].length <= |b| && ts[k].name == b[ds[k].at..ds[k].at + ds[k].length]
  {
    assert Stands(b, ds[k], ts[k], limit);
  }

  lemma FollowingNothing(t: Text)
    ensures Following([], t) == t
  {
    if t.Text? {
      assert [] + t.bytes == t.bytes;
    }
  }

  lemma FollowingTwice(a: Bytes, b: Bytes, t: Text)
    ensures Following(a, Following(b, t)) == Following(a + b, t)
  {
    if t.Text? {
      assert a + (b + t.bytes) == a + b + t.bytes;
    }
  }

  lemma NothingStands(b: Bytes, ds: seq<Stored>)
    ensures AllStand(b, ds, [], 0)
  {
  }

  lemma NothingFinished(rest: Parsed)
    ensures Finishing([], rest) == rest
  {
    if rest.Tokens? {
      assert [] + rest.tokens == rest.tokens;
    }
  }

  lemma AllFinished(s: Bytes, uri: bool, done: seq<Token>)
    ensures Solidi(s, |s|) == 0 && Finishing(done, TokensFrom(s, |s|, uri)) == Tokens(done)
  {
    assert done + [] == done;
  }

  lemma NameBad(s: Bytes, i: nat, uri: bool, done: seq<Token>)
    requires i < |s| && s[i] == SOLIDUS && NameFrom(s, i + 1, uri).BadName?
    ensures var p := NameFrom(s, i + 1, uri);
            Finishing(done, TokensFrom(s, i, uri)) == Failed(p.error, p.offset)
  {
    hide NameFrom;
  }

  lemma NameRejected(s: Bytes, i: nat, uri: bool)
    requires i < |s| && s[i] != SOLIDUS
    ensures var r := NextRound(s, i, uri); r.Reject? ==> NameFrom(s, i, uri) == BadName(r.error, r.offset)
  {
    hide NextRound;
  }

  lemma ThenNothing(p: ParsedName)
    ensures Then([], p) == p
  {
    if p.Name? {
      assert [] + p.bytes == p.bytes;
    }
  }

  lemma ThenEnds(w: Bytes, next: nat)
    ensures Then(w, Name([], next)) == Name(w, next)
  {
    assert w + [] == w;
  }

  lemma ThenFails(w: Bytes, error: Error, offset: nat)
    ensures Then(w, BadName(error, offset)) == BadName(error, offset)
  {
  }

  lemma ThenTwice(a: Bytes, b: Bytes, p: ParsedName)
    ensures Then(a, Then(b, p)) == Then(a + b, p)
  {
    if p.Name? {
      assert a + (b + p.bytes) == a + b + p.bytes;
    }
  }

  /** Several bytes in one round are never digits. */
  lemma RoundDigits(s: Bytes, i: nat, uri: bool, chars: Bytes)
    requires i < |s| && NextRound(s, i, uri).Append?
    ensures var w := NextRound(s, i, uri).bytes;
            AllDigits(chars + w) <==> AllDigits(chars) && |w| == 1 && IsDigit(w[0])
  {
    var w := NextRound(s, i, uri).bytes;
    if AllDigits(chars + w) {
      forall k | 0 <= k < |chars| ensures IsDigit(chars[k]) { assert (chars + w)[k] == chars[k]; }
      assert (chars + w)[|chars|] == w[0];
    }
  }

  lemma NoDigitsYet()
    ensures AllDigits([])
  {
  }

  lemma NoCharInEmpty()
    ensures Utf8.CharLength([], 0) == 0
  {
  }
}
