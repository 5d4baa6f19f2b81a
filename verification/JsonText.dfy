/**
 * Code units and read positions shared by the models of the JSON library.
 *
 * A text is the sequence of its code units without the terminating NUL; reading at or past its end
 * yields NUL, as a read of the terminator does (libs/rapidjson/rapidjson/stream.h:152-169).
 */
module JsonText {
  type byte = x: int | 0 <= x < 256

  type Bytes = seq<byte>

  const QUOTE: byte := 0x22
  const COMMA: byte := 0x2C
  const COLON: byte := 0x3A
  const BACKSLASH: byte := 0x5C
  const LEFT_BRACKET: byte := 0x5B
  const RIGHT_BRACKET: byte := 0x5D
  const LEFT_BRACE: byte := 0x7B
  const RIGHT_BRACE: byte := 0x7D

  function Peek(t: Bytes, i: nat): byte {
    if i < |t| then t[i] else 0
  }

  /** The code units `w` stand in `t` at position `i`. */
  predicate Occurs(w: Bytes, t: Bytes, i: nat) {
    i + |w| <= |t| && t[i..i + |w|] == w
  }

  lemma OccursAt(w: Bytes, t: Bytes, i: nat, k: nat)
    requires Occurs(w, t, i) && k < |w|
    ensures Peek(t, i + k) == w[k]
  {
    assert t[i..i + |w|][k] == t[i + k];
  }

  lemma OccursSplit(u: Bytes, v: Bytes, t: Bytes, i: nat)
    requires Occurs(u + v, t, i)
    ensures Occurs(u, t, i) && Occurs(v, t, i + |u|)
  {
    var w := t[i..i + |u + v|];
    assert t[i..i + |u|] == w[..|u|] == u;
    assert t[i + |u|..i + |u| + |v|] == w[|u|..] == v;
  }

  lemma OccursJoined(u: Bytes, v: Bytes, t: Bytes, i: nat)
    requires Occurs(u, t, i) && Occurs(v, t, i + |u|)
    ensures Occurs(u + v, t, i)
  {
    assert t[i..i + |u + v|] == t[i..i + |u|] + t[i + |u|..i + |u| + |v|];
  }
}
