/** Texts put together from pieces, the way format strings do it. */
module Texts {
  import opened Messages

  /** The text `part` stands at position `a`. */
  predicate StandsAt(s: Bytes, a: nat, part: Bytes) {
    a + |part| <= |s| && s[a..a + |part|] == part
  }

  /** A text put together from pieces. */
  datatype Text = End | Piece(first: Bytes, rest: Text)

  function Flat(t: Text): Bytes {
    match t
    case End => ""
    case Piece(p, rest) => p + Flat(rest)
  }

  /** The pieces stand one after the other from position `a`. */
  ghost predicate Stands(s: Bytes, a: nat, t: Text)
    decreases t
  {
    match t
    case End => a <= |s|
    case Piece(p, rest) => StandsAt(s, a, p) && Stands(s, a + |p|, rest)
  }

  lemma {:induction false} FlatStands(pre: Bytes, t: Text, post: Bytes)
    ensures Stands(pre + Flat(t) + post, |pre|, t)
    decreases t
  {
    match t
    case End =>
    case Piece(p, rest) =>
      FlatStands(pre + p, rest, post);
      assert pre + (p + Flat(rest)) + post == pre + p + Flat(rest) + post;
  }

  /** A header line in pieces. */
  function HeaderText(key: Bytes, value: Bytes, rest: Text): Text {
    Piece(key, Piece(": ", Piece(value, Piece("\r\n", rest))))
  }
}
