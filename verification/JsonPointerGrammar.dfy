/**
 * The grammar of JSON Pointers, plain (section 3 of RFC 6901) and as URI fragments (section 6, with the unreserved
 * characters of section 2.3 of RFC 3986), stated without reference to the parser: a reference token is a list of
 * parts, each with its spelling and its meaning.
 *
 * Main results: the parser accepts exactly these texts, with the names that they mean (PointerIsParsed,
 * ParsedIsPointer); and the text that is printed for a pointer is the shortest of its kind (StringifyIsShortest).
 *
 * The source departs from section 6 in the order of the steps: it splits the text at each solidus before it decodes
 * percent encoding, so that an encoded solidus is part of a name (EncodedSolidusIsName). And a tilde that begins an
 * escape may be percent-encoded where the digit behind it may not.
 */
module PointerGrammar {
  import opened JsonText
  import opened JsonDocument
  import opened PointerText
  import opened PointerTree
  import opened StringGrammar
  import N = NumberGrammar
  import JsonNumber
  import JsonString
  import Utf8

  /** One percent-encoded byte, with its two digits. */
  datatype Octet = Octet(value: byte, high: byte, low: byte)

  /** `Escape` is a tilde, percent-encoded if `tilde` is not empty, and the digit behind it. */
  datatype NamePart =
    | Literal(c: byte)
    | Escape(tilde: seq<Octet>, digit: byte)
    | Encoded(octets: seq<Octet>)

  predicate IsUnreserved(c: byte) {
    var x := c as char;
    'A' <= x <= 'Z' || 'a' <= x <= 'z' || '0' <= x <= '9' || x == '-' || x == '.' || x == '_' || x == '~'
  }

  predicate OctetsOk(os: seq<Octet>) {
    forall k :: 0 <= k < |os| ==> OctetOk(os[k])
  }

  predicate OctetOk(o: Octet) {
    IsDigitFor(o.high, o.value / 16) && IsDigitFor(o.low, o.value % 16)
  }

  function ValuesOf(os: seq<Octet>): (w: Bytes)
    ensures |w| == |os|
  {
    seq(|os|, k requires 0 <= k < |os| => os[k].value)
  }

  function OctetSpelling(o: Octet): Bytes {
    ['%' as int, o.high, o.low]
  }

  function OctetsSpelling(os: seq<Octet>): (w: Bytes)
    ensures |w| == 3 * |os|
  {
    if os == [] then [] else OctetSpelling(os[0]) + OctetsSpelling(os[1..])
  }

  predicate NamePartOk(p: NamePart, uri: bool) {
    match p
    case Literal(c) => c as int != '/' as int && c as int != '~' as int && (uri ==> IsUnreserved(c))
    case Escape(tilde, digit) =>
      && (tilde == [] || (uri && OctetsOk(tilde) && ValuesOf(tilde) == ['~' as int]))
      && (digit as int == '0' as int || digit as int == '1' as int)
    case Encoded(octets) => uri && OctetsOk(octets) && Utf8.IsChar(ValuesOf(octets)) && ValuesOf(octets) != ['~' as int]
  }

  function NamePartSpelling(p: NamePart): Bytes {
    match p
    case Literal(c) => [c]
    case Escape(tilde, digit) => (if tilde == [] then ['~' as int] else OctetsSpelling(tilde)) + [digit]
    case Encoded(octets) => OctetsSpelling(octets)
  }

  function NamePartMeaning(p: NamePart): Bytes {
    match p
    case Literal(c) => [c]
    case Escape(_, digit) => if digit as int == '0' as int then ['~' as int] else ['/' as int]
    case Encoded(octets) => ValuesOf(octets)
  }

  predicate NameOk(ps: seq<NamePart>, uri: bool) {
    forall k :: 0 <= k < |ps| ==> NamePartOk(ps[k], uri)
  }

  function NameSpelling(ps: seq<NamePart>): Bytes {
    if ps == [] then [] else NamePartSpelling(ps[0]) + NameSpelling(ps[1..])
  }

  function NameMeaning(ps: seq<NamePart>): Bytes {
    if ps == [] then [] else NamePartMeaning(ps[0]) + NameMeaning(ps[1..])
  }

  predicate NamesOk(names: seq<seq<NamePart>>, uri: bool) {
    forall k :: 0 <= k < |names| ==> NameOk(names[k], uri)
  }

  function NamesSpelling(names: seq<seq<NamePart>>): Bytes {
    if names == [] then [] else ['/' as int] + NameSpelling(names[0]) + NamesSpelling(names[1..])
  }

  /** A whole pointer: the empty one has no names. */
  function PointerSpelling(names: seq<seq<NamePart>>, uri: bool): Bytes {
    (if uri then ['#' as int] else []) + NamesSpelling(names)
  }

  function TokensOf(names: seq<seq<NamePart>>): (ts: seq<Token>)
    ensures |ts| == |names|
  {
    seq(|names|, k requires 0 <= k < |names| => TokenOf(NameMeaning(names[k])))
  }

  // ---------------------------------------------------------------- every pointer is parsed

  lemma SameUnreserved(c: byte)
    ensures IsUnreserved(c) <==> !NeedPercentEncode(c)
  {
  }

  lemma OctetIsRead(s: Bytes, i: nat, o: Octet)
    requires OctetOk(o) && Occurs(OctetSpelling(o), s, i)
    ensures IsTriplet(s, i) && TripletByte(s, i) == o.value
  {
    hide IsDigitFor;
    OccursAt(OctetSpelling(o), s, i, 0);
    OccursAt(OctetSpelling(o), s, i, 1);
    OccursAt(OctetSpelling(o), s, i, 2);
    DigitIsRead(o.high, o.value / 16);
    DigitIsRead(o.low, o.value % 16);
  }

  lemma {:induction false} OctetsAreRead(s: Bytes, i: nat, os: seq<Octet>)
    requires OctetsOk(os) && Occurs(OctetsSpelling(os), s, i)
    ensures ValuesOf(os) <= Triplets(s, i)
    decreases |os|
  {
    hide IsTriplet, TripletByte, OctetOk;
    if os != [] {
      OccursSplit(OctetSpelling(os[0]), OctetsSpelling(os[1..]), s, i);
      OctetIsRead(s, i, os[0]);
      OctetsAreRead(s, i + 3, os[1..]);
      assert ValuesOf(os) == [os[0].value] + ValuesOf(os[1..]);
    }
  }

  /** Encoded octets that are one character are decoded to it; a tilde goes on as an escape. */
  lemma EncodedIsRead(s: Bytes, i: nat, os: seq<Octet>)
    requires OctetsOk(os) && Utf8.IsChar(ValuesOf(os)) && Occurs(OctetsSpelling(os), s, i)
    ensures i < |s| && s[i] == PERCENT
    ensures NextRound(s, i, true)
         == if |os| == 1 then Unescape(s, os[0].value, i + 3) else Append(ValuesOf(os), i + 3 * |os|)
  {
    hide Triplets;
    var w := ValuesOf(os);
    OctetsAreRead(s, i, os);
    OccursAt(OctetsSpelling(os), s, i, 0);
    PrefixChar(w, Triplets(s, i));
    hide Utf8.CharLength, Utf8.IsChar;
    assert w[0] == Triplets(s, i)[0];
  }

  lemma {:induction false} NamePartIsRead(p: NamePart, s: Bytes, i: nat, uri: bool)
    requires NamePartOk(p, uri) && Occurs(NamePartSpelling(p), s, i)
    ensures i < |s| && s[i] != SOLIDUS
    ensures NextRound(s, i, uri) == Append(NamePartMeaning(p), i + |NamePartSpelling(p)|)
  {
    match p
    case Literal(c) =>
      OccursAt([c], s, i, 0);
      SameUnreserved(c);
      hide IsUnreserved, NeedPercentEncode, Triplets;
      assert uri ==> c != PERCENT by { PercentIsReserved(); }
    case Escape(tilde, digit) =>
      EscapeIsRead(tilde, digit, s, i, uri);
    case Encoded(octets) =>
      EncodedIsRead(s, i, octets);
      hide OctetsSpelling, OctetOk, NextRound, Utf8.IsChar;
      assert |octets| == 1 ==> ValuesOf(octets) == [octets[0].value];
  }

  lemma PercentIsReserved()
    ensures !IsUnreserved(PERCENT)
  {
  }

  lemma EscapeIsRead(tilde: seq<Octet>, digit: byte, s: Bytes, i: nat, uri: bool)
    requires NamePartOk(Escape(tilde, digit), uri) && Occurs(NamePartSpelling(Escape(tilde, digit)), s, i)
    ensures i < |s| && s[i] != SOLIDUS
    ensures NextRound(s, i, uri)
         == Append(NamePartMeaning(Escape(tilde, digit)), i + |NamePartSpelling(Escape(tilde, digit))|)
  {
    hide Triplets, Utf8.CharLength, OctetOk;
    var first: Bytes := if tilde == [] then ['~' as int] else OctetsSpelling(tilde);
    OccursSplit(first, [digit], s, i);
    OccursAt([digit], s, i + |first|, 0);
    if tilde == [] {
      OccursAt(first, s, i, 0);
    } else {
      assert ValuesOf(tilde)[0] == tilde[0].value;
      EncodedIsRead(s, i, tilde);
      hide NextRound;
    }
  }

  lemma NameStops(s: Bytes, i: nat, uri: bool)
    requires i <= |s| && (i == |s| || s[i] == SOLIDUS)
    ensures NameFrom(s, i, uri) == Name([], i)
  {
  }

  /** A name of the grammar, with a solidus or the end behind it, is parsed to its meaning. */
  lemma {:induction false} NameIsParsed(ps: seq<NamePart>, s: Bytes, i: nat, uri: bool)
    requires NameOk(ps, uri) && Occurs(NameSpelling(ps), s, i)
    requires i + |NameSpelling(ps)| == |s| || Peek(s, i + |NameSpelling(ps)|) == SOLIDUS
    ensures NameFrom(s, i, uri) == Name(NameMeaning(ps), i + |NameSpelling(ps)|)
    decreases |ps|
  {
    hide NameFrom, NextRound, NamePartOk, NamePartSpelling, NamePartMeaning;
    if ps == [] {
      NameStops(s, i, uri);
    } else {
      var w, rest := NamePartSpelling(ps[0]), NameSpelling(ps[1..]);
      OccursSplit(w, rest, s, i);
      NamePartIsRead(ps[0], s, i, uri);
      NameIsParsed(ps[1..], s, i + |w|, uri);
      NameByRound(s, i, uri, NamePartMeaning(ps[0]), i + |w|);
    }
  }

  lemma TokensBegin(names: seq<seq<NamePart>>)
    requires names != []
    ensures TokensOf(names) == [TokenOf(NameMeaning(names[0]))] + TokensOf(names[1..])
  {
    hide TokenOf, NameMeaning;
  }

  lemma NamesStart(names: seq<seq<NamePart>>)
    ensures NamesSpelling(names) == [] || NamesSpelling(names)[0] == SOLIDUS
  {
    hide NameSpelling;
  }

  lemma {:induction false} NamesAreParsed(names: seq<seq<NamePart>>, s: Bytes, i: nat, uri: bool)
    requires NamesOk(names, uri) && Occurs(NamesSpelling(names), s, i) && i + |NamesSpelling(names)| == |s|
    ensures i < |s| ==> s[i] == SOLIDUS
    ensures TokensFrom(s, i, uri) == Tokens(TokensOf(names))
    decreases |names|
  {
    hide NameFrom, NameOk, NameSpelling, NameMeaning, TokenOf, TokensFrom, Occurs;
    if names == [] {
      NoTokensLeft(s, uri);
    } else {
      var solidus: Bytes := ['/' as int];
      var w, rest := NameSpelling(names[0]), NamesSpelling(names[1..]);
      OccursSplit(solidus + w, rest, s, i);
      OccursSplit(solidus, w, s, i);
      OccursAt(solidus, s, i, 0);
      NamesStart(names[1..]);
      if rest != [] {
        OccursAt(rest, s, i + 1 + |w|, 0);
      }
      NamesAreParsed(names[1..], s, i + 1 + |w|, uri);
      NameIsParsed(names[0], s, i + 1, uri);
      TokensByName(s, i, uri);
      TokensBegin(names);
    }
  }

  /** Main result: every pointer of the grammar is parsed to the names that it means. */
  lemma PointerIsParsed(names: seq<seq<NamePart>>, uri: bool)
    requires NamesOk(names, uri)
    ensures ParsePointer(PointerSpelling(names, uri)) == Tokens(TokensOf(names))
  {
    hide NamesSpelling, NamesOk, TokensFrom, TokensOf;
    var s, rest := PointerSpelling(names, uri), NamesSpelling(names);
    NamesStart(names);
    assert s[0..|s|] == s;
    if uri {
      OccursSplit(['#' as int], rest, s, 0);
      NamesAreParsed(names, s, 1, uri);
    } else {
      assert s == rest;
      NamesAreParsed(names, s, 0, uri);
    }
  }

  // ---------------------------------------------------------------- and nothing else is

  /** The first `n` octets that the decoding stream yields. */
  lemma {:induction false} OctetsStand(s: Bytes, i: nat, n: nat) returns (os: seq<Octet>)
    requires i <= |s| && n <= |Triplets(s, i)|
    ensures OctetsOk(os) && ValuesOf(os) == Triplets(s, i)[..n] && |os| == n && Occurs(OctetsSpelling(os), s, i)
    decreases n
  {
    hide TripletByte, OctetOk, JsonString.IsHexDigit;
    if n == 0 {
      os := [];
    } else {
      var o := OctetStands(s, i);
      var rest := OctetsStand(s, i + 3, n - 1);
      os := [o] + rest;
      assert os[1..] == rest;
      OccursJoined(OctetSpelling(o), OctetsSpelling(rest), s, i);
      hide Occurs, OctetsSpelling, OctetSpelling;
      assert Triplets(s, i)[..n] == [o.value] + Triplets(s, i + 3)[..n - 1];
    }
  }

  lemma OctetStands(s: Bytes, i: nat) returns (o: Octet)
    requires IsTriplet(s, i)
    ensures OctetOk(o) && o.value == TripletByte(s, i) && Occurs(OctetSpelling(o), s, i)
  {
    hide IsDigitFor, JsonString.HexValue, JsonString.IsHexDigit;
    o := Octet(TripletByte(s, i), s[i + 1], s[i + 2]);
    HexDigitIsFor(s[i + 1]);
    HexDigitIsFor(s[i + 2]);
    Nibble(JsonString.HexValue(s[i + 1]), JsonString.HexValue(s[i + 2]));
    assert s[i..i + 3] == OctetSpelling(o);
  }

  lemma NamePartOfRead(s: Bytes, i: nat, uri: bool) returns (p: NamePart)
    requires i < |s| && s[i] != SOLIDUS && NextRound(s, i, uri).Append?
    ensures NamePartOk(p, uri) && Occurs(NamePartSpelling(p), s, i)
    ensures NextRound(s, i, uri) == Append(NamePartMeaning(p), i + |NamePartSpelling(p)|)
  {
    var c := s[i];
    if uri && c == PERCENT {
      p := EncodedOfRead(s, i);
    } else {
      SameUnreserved(c);
      hide Triplets, IsUnreserved, NeedPercentEncode;
      if c == TILDE {
        p := Escape([], s[i + 1]);
        assert s[i..i + 2] == [TILDE, s[i + 1]];
      } else {
        p := Literal(c);
      }
    }
  }

  lemma EncodedOfRead(s: Bytes, i: nat) returns (p: NamePart)
    requires i < |s| && s[i] == PERCENT && NextRound(s, i, true).Append?
    ensures NamePartOk(p, true) && Occurs(NamePartSpelling(p), s, i)
    ensures NextRound(s, i, true) == Append(NamePartMeaning(p), i + |NamePartSpelling(p)|)
  {
    hide Triplets, Utf8.CharLength;
    var w := Triplets(s, i);
    var n := Utf8.CharLength(w, 0);
    var os := OctetsStand(s, i, n);
    assert w[0..n] == w[..n];
    EncodedIsRead(s, i, os);
    if ValuesOf(os) == [TILDE] {
      assert os[0].value == TILDE;
      p := Escape(os, s[i + 3]);
      OccursJoined(OctetsSpelling(os), [s[i + 3]], s, i);
    } else {
      p := Encoded(os);
      hide NextRound, Occurs, OctetsSpelling, OctetOk, Utf8.IsChar;
      if n == 1 {
        assert ValuesOf(os) == [os[0].value];
      }
    }
  }

  lemma NameGoesOn(s: Bytes, i: nat, uri: bool)
    requires i < |s| && s[i] != SOLIDUS && NameFrom(s, i, uri).Name?
    ensures NextRound(s, i, uri).Append? && NameFrom(s, NextRound(s, i, uri).next, uri).Name?
  {
    hide NextRound;
  }

  /** Whatever is parsed as a name is one of the grammar. */
  lemma {:induction false} NameOfRead(s: Bytes, i: nat, uri: bool) returns (ps: seq<NamePart>)
    requires i <= |s| && NameFrom(s, i, uri).Name?
    ensures NameOk(ps, uri) && Occurs(NameSpelling(ps), s, i)
    ensures NameFrom(s, i, uri) == Name(NameMeaning(ps), i + |NameSpelling(ps)|)
    decreases |s| - i
  {
    hide NextRound, NamePartOk, NamePartSpelling, NamePartMeaning, NameFrom;
    if i == |s| || s[i] == SOLIDUS {
      ps := [];
      NameStops(s, i, uri);
    } else {
      NameGoesOn(s, i, uri);
      var p := NamePartOfRead(s, i, uri);
      var rest := NameOfRead(s, i + |NamePartSpelling(p)|, uri);
      ps := [p] + rest;
      assert ps[1..] == rest;
      OccursJoined(NamePartSpelling(p), NameSpelling(rest), s, i);
      hide Occurs;
      NameByRound(s, i, uri, NamePartMeaning(p), i + |NamePartSpelling(p)|);
    }
  }

  lemma {:induction false} NamesOfRead(s: Bytes, i: nat, uri: bool) returns (names: seq<seq<NamePart>>)
    requires i <= |s| && (i < |s| ==> s[i] == SOLIDUS) && TokensFrom(s, i, uri).Tokens?
    ensures NamesOk(names, uri) && s[i..] == NamesSpelling(names)
    ensures TokensFrom(s, i, uri) == Tokens(TokensOf(names))
    decreases |s| - i
  {
    hide NameFrom, NameOk, NameSpelling, NameMeaning, TokenOf;
    if i == |s| {
      names := [];
    } else {
      var name := NameOfRead(s, i + 1, uri);
      var next := i + 1 + |NameSpelling(name)|;
      var rest := NamesOfRead(s, next, uri);
      names := [name] + rest;
      assert names[1..] == rest;
      TokensBegin(names);
      TokensByName(s, i, uri);
      NamesFollow(s, i, NameSpelling(name), next);
    }
  }

  lemma NamesFollow(s: Bytes, i: nat, w: Bytes, next: nat)
    requires i < |s| && s[i] == SOLIDUS && Occurs(w, s, i + 1) && next == i + 1 + |w|
    ensures s[i..] == [SOLIDUS] + w + s[next..]
  {
    assert s[i..] == [s[i]] + s[i + 1..next] + s[next..];
  }

  /** Main result: whatever is parsed is a pointer of the grammar, a fragment exactly when it begins with "#". */
  lemma ParsedIsPointer(s: Bytes) returns (names: seq<seq<NamePart>>)
    requires ParsePointer(s).Tokens?
    ensures var uri := Peek(s, 0) == HASH;
            NamesOk(names, uri) && s == PointerSpelling(names, uri) && ParsePointer(s) == Tokens(TokensOf(names))
  {
    hide NamesSpelling, NamesOk, TokensFrom, TokensOf;
    if Peek(s, 0) == HASH {
      names := NamesOfRead(s, 1, true);
      assert s == [s[0]] + s[1..];
    } else {
      names := NamesOfRead(s, 0, false);
      assert s == s[0..];
    }
  }

  /** An encoded solidus does not separate names. */
  lemma EncodedSolidusIsName()
    ensures ParsePointer(['#' as int, '/' as int, 'a' as int, '%' as int, '2' as int, 'F' as int, 'b' as int])
         == Tokens([TokenOf(['a' as int, '/' as int, 'b' as int])])
  {
    hide ParsePointer, TokenOf;
    var a, slash, b := Literal('a' as int), Encoded([Octet(0x2F, '2' as int, 'F' as int)]), Literal('b' as int);
    var name := [a, slash, b];
    assert ValuesOf(slash.octets) == [0x2F];
    assert OctetsSpelling(slash.octets) == ['%' as int, '2' as int, 'F' as int] by { assert slash.octets[1..] == []; }
    hide ValuesOf, OctetsSpelling;
    assert NameMeaning([b]) == [b.c] && NameSpelling([b]) == [b.c] by { assert [b][1..] == []; }
    assert name[1..] == [slash, b] && [slash, b][1..] == [b];
    assert NameMeaning([slash, b]) == [0x2F] + [b.c];
    assert NameSpelling([slash, b]) == ['%' as int, '2' as int, 'F' as int] + [b.c];
    assert NameMeaning(name) == [a.c] + ([0x2F] + [b.c]);
    assert NameSpelling(name) == [a.c] + (['%' as int, '2' as int, 'F' as int] + [b.c]);
    hide NameMeaning, NameSpelling;
    var names: seq<seq<NamePart>> := [name];
    assert names[1..] == [];
    PointerIsParsed(names, true);
    assert NamesSpelling(names) == ['/' as int] + NameSpelling(name);
    assert PointerSpelling(names, true)
        == ['#' as int, '/' as int, 'a' as int, '%' as int, '2' as int, 'F' as int, 'b' as int];
    assert TokensOf(names) == [TokenOf(NameMeaning(name))];
    assert NameMeaning(name) == ['a' as int, '/' as int, 'b' as int];
  }

  // ---------------------------------------------------------------- the printed text is the shortest

  lemma EncodedIsNotShorter(w: Bytes, name: Bytes, j: nat)
    requires Utf8.IsChar(w) && w[0] != TILDE && Occurs(w, name, j)
    ensures PrintNext(name, j, true).Printed? && PrintNext(name, j, true).next == j + |w|
    ensures |PrintNext(name, j, true).text| <= 3 * |w|
  {
    OccursAt(w, name, j, 0);
    Utf8.CharLengthFinds(name, j, |w|);
    hide Utf8.CharLength, PercentEncode;
    if |w| > 1 {
      assert w[0] >= 0x80;
    }
  }

  lemma NamePartIsNotShorter(p: NamePart, uri: bool, name: Bytes, j: nat)
    requires NamePartOk(p, uri) && Occurs(NamePartMeaning(p), name, j)
    ensures |NamePartMeaning(p)| > 0 && PrintNext(name, j, uri).Printed?
    ensures PrintNext(name, j, uri).next == j + |NamePartMeaning(p)|
    ensures |PrintNext(name, j, uri).text| <= |NamePartSpelling(p)|
  {
    match p
    case Literal(c) =>
      OccursAt([c], name, j, 0);
      SameUnreserved(c);
      hide IsUnreserved, NeedPercentEncode, Utf8.CharLength;
    case Escape(tilde, _) =>
      OccursAt(NamePartMeaning(p), name, j, 0);
      hide OctetOk, Utf8.CharLength;
      assert |ValuesOf(tilde)| == |tilde|;
    case Encoded(octets) =>
      var w := ValuesOf(octets);
      assert |w| == 1 ==> w == [w[0]];
      assert |w| > 1 ==> w[0] >= 0x80;
      EncodedIsNotShorter(w, name, j);
      hide PrintNext, OctetOk, Utf8.IsChar, OctetsSpelling;
  }

  /** The rest of a name, from its position `j` on. */
  lemma {:induction false} NameIsShortest(ps: seq<NamePart>, uri: bool, name: Bytes, j: nat)
    requires NameOk(ps, uri) && j <= |name| && name[j..] == NameMeaning(ps)
    ensures NameText(name, j, uri).Text? && |NameText(name, j, uri).bytes| <= |NameSpelling(ps)|
    decreases |ps|
  {
    hide PrintNext, NamePartOk, NamePartSpelling, NamePartMeaning;
    if ps != [] {
      var m := NamePartMeaning(ps[0]);
      PartBegins(m, NameMeaning(ps[1..]), name, j);
      NamePartIsNotShorter(ps[0], uri, name, j);
      NameIsShortest(ps[1..], uri, name, j + |m|);
      TextByRound(name, j, uri, PrintNext(name, j, uri).text, j + |m|);
    }
  }

  lemma PartBegins(a: Bytes, b: Bytes, name: Bytes, j: nat)
    requires j <= |name| && name[j..] == a + b
    ensures Occurs(a, name, j) && name[j + |a|..] == b
  {
    assert name[j..][..|a|] == a && name[j..][|a|..] == b;
  }

  lemma {:induction false} NamesAreShortest(names: seq<seq<NamePart>>, uri: bool, ts: seq<Token>, k: nat)
    requires NamesOk(names, uri) && k <= |ts| && ts[k..] == TokensOf(names)
    ensures TokensText(ts, k, uri).Text? && |TokensText(ts, k, uri).bytes| <= |NamesSpelling(names)|
    decreases |names|
  {
    hide NameText, NameOk, NameSpelling, NameMeaning, IndexOf;
    if names != [] {
      TokensBegin(names);
      assert ts[k] == ts[k..][0] == TokenOf(NameMeaning(names[0]));
      assert ts[k + 1..] == ts[k..][1..] == TokensOf(names[1..]);
      hide TokensOf;
      NameIsShortest(names[0], uri, ts[k].name, 0);
      NamesAreShortest(names[1..], uri, ts, k + 1);
    }
  }

  /** Main result: the pointer that a text means can be printed in the same form, and no longer than the text. */
  lemma StringifyIsShortest(s: Bytes)
    requires ParsePointer(s).Tokens?
    ensures StringifyTokens(ParsePointer(s).tokens, Peek(s, 0) == HASH).Text?
    ensures |StringifyTokens(ParsePointer(s).tokens, Peek(s, 0) == HASH).bytes| <= |s|
  {
    hide ParsePointer, NamesSpelling, NamesOk, TokensText, TokensOf;
    var names := ParsedIsPointer(s);
    var ts := TokensOf(names);
    assert ts[0..] == ts;
    NamesAreShortest(names, Peek(s, 0) == HASH, ts, 0);
  }

  // ---------------------------------------------------------------- what a pointer refers to

  /** A reference token leads from a value to its child at position `c` (section 4 of RFC 6901). */
  predicate Leads(v: Value, name: Bytes, c: nat) {
    match v
    case ObjectValue(members) =>
      c < |members| && members[c].name == name && forall k :: 0 <= k < c ==> members[k].name != name
    case ArrayValue(elements) =>
      c < |elements| && name != [] && N.AllDigits(name) && (name[0] == N.ZERO ==> |name| == 1) && N.Decimal(name) == c
    case _ => false
  }

  /** All tokens, from the root on. */
  predicate LeadsTo(v: Value, names: seq<Bytes>, p: Path)
    decreases |names|
  {
    && |p| == |names|
    && (names != [] ==>
          HasChild(v, p[0]) && Leads(v, names[0], p[0]) && LeadsTo(Child(v, p[0]), names[1..], p[1..]))
  }

  function NamesOf(ts: seq<Token>): seq<Bytes> {
    seq(|ts|, k requires 0 <= k < |ts| => ts[k].name)
  }

  /** Positions fit the 32-bit SizeType, and no array is longer than its largest index. */
  predicate SizesFit(v: Value) {
    match v
    case ArrayValue(elements) =>
      |elements| <= INVALID_INDEX && forall k :: 0 <= k < |elements| ==> SizesFit(elements[k])
    case ObjectValue(members) => forall k :: 0 <= k < |members| ==> SizesFit(members[k].value)
    case _ => true
  }

  /** The wrap test gave every numeric name its value, or no index if that does not fit. */
  predicate IndexesRight(ts: seq<Token>) {
    forall k :: 0 <= k < |ts| && IsNumeric(ts[k].name) ==> ts[k].index == IntendedIndex(ts[k].name)
  }

  lemma SameNumeric(name: Bytes)
    ensures IsNumeric(name) <==> name != [] && N.AllDigits(name) && (name[0] == N.ZERO ==> |name| == 1)
  {
    assert N.AllDigits(name) <==> AllDigits(name);
  }

  lemma SameValue(name: Bytes)
    requires N.AllDigits(name) && AllDigits(name)
    ensures JsonNumber.Value(name, 0, |name|) == N.Decimal(name)
  {
    assert name[0..|name|] == name;
    N.ValueIsDecimal(name, name, 0);
  }

  lemma StepFollowsName(v: Value, t: Token, c: nat)
    requires SizesFit(v) && t.index == IndexOf(t.name)
    requires IsNumeric(t.name) ==> t.index == IntendedIndex(t.name)
    ensures GetStep(v, t) == c <==> Leads(v, t.name, c)
  {
    SameNumeric(t.name);
    if v.ArrayValue? && IsNumeric(t.name) {
      SameValue(t.name);
    }
    hide N.Decimal, JsonNumber.Value, IndexFrom, IsNumeric, SizesFit;
    assert v.ArrayValue? ==> |v.elements| <= INVALID_INDEX by { ArrayFits(v); }
  }

  lemma ArrayFits(v: Value)
    requires SizesFit(v)
    ensures v.ArrayValue? ==> |v.elements| <= INVALID_INDEX
  {
  }

  lemma ChildFits(v: Value, c: nat)
    requires SizesFit(v) && HasChild(v, c)
    ensures SizesFit(Child(v, c))
  {
  }

  /**
   * Main result: Get with a parsed pointer finds exactly the node that its names lead to, if the wrap test gave each
   * numeric name its index.
   */
  lemma {:induction false} GetFollowsNames(v: Value, ts: seq<Token>, p: Path)
    requires SizesFit(v) && IsParsed(ts) && IndexesRight(ts)
    ensures GetFrom(v, ts) == Found(p) <==> LeadsTo(v, NamesOf(ts), p)
    decreases |ts|
  {
    hide GetStep, Leads, SizesFit, IsNumeric, IndexOf, IntendedIndex;
    if ts != [] {
      var rest := ts[1..];
      assert NamesOf(ts)[1..] == NamesOf(rest);
      var c := GetStep(v, ts[0]);
      if p != [] {
        StepFollowsName(v, ts[0], p[0]);
        if c != -1 && c == p[0] {
          ChildFits(v, c);
          GetFollowsNames(Child(v, c), rest, p[1..]);
          assert p == [c] + p[1..];
        }
      }
    }
  }
}
