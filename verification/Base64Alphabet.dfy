/** The byte tables of the Base64 codec: three alphabets and their decoding tables. */
module Base64Alphabet {

  /** A Java byte, read as unsigned. */
  type byte = bv8

  /** The option bits that the codec looks at, apart from ENCODE and the GZIP pair. */
  datatype Options = Options(urlSafe: bool, ordered: bool, breakLines: bool) {
    /** URL_SAFE wins when both dialect bits are set. */
    function Dialect(): Dialect {
      if urlSafe then UrlSafe else if ordered then Ordered else Standard
    }
  }

  datatype Dialect = Standard | UrlSafe | Ordered

  /** What a decoding table says of a byte: 0..63, or one of the markers -1, -5 and -9. */
  datatype Symbol = Sextet(value: byte) | Equals | Blank | Illegal {
    /** The table entry after `& 0xFF`. */
    function Raw(): byte {
      match this
      case Sextet(v) => v
      case Equals => 0xFF
      case Blank => 0xFB
      case Illegal => 0xF7
    }
  }

  const EQUALS_SIGN: byte := 61
  const NEW_LINE: byte := 10
  const MAX_LINE_LENGTH := 76

  function Alphabet(d: Dialect, i: byte): byte
    requires i < 64
  {
    match d
    case Ordered =>
      if i == 0 then 45
      else if i < 11 then 47 + i
      else if i < 37 then 54 + i
      else if i == 37 then 95
      else 59 + i
    case _ =>
      if i < 26 then 65 + i
      else if i < 52 then 71 + i
      else if i < 62 then i - 4
      else if i == 62 then (if d == UrlSafe then 45 else 43)
      else if d == UrlSafe then 95 else 47
  }

  function Decodabet(d: Dialect, c: byte): Symbol {
    if c == 9 || c == 10 || c == 13 || c == 32 then Blank
    else if c == EQUALS_SIGN then Equals
    else match d
      case Ordered =>
        if c == 45 then Sextet(0)
        else if 48 <= c <= 57 then Sextet(c - 47)
        else if 65 <= c <= 90 then Sextet(c - 54)
        else if c == 95 then Sextet(37)
        else if 97 <= c <= 122 then Sextet(c - 59)
        else Illegal
      case _ =>
        if c == (if d == UrlSafe then 45 else 43) then Sextet(62)
        else if c == (if d == UrlSafe then 95 else 47) then Sextet(63)
        else if 48 <= c <= 57 then Sextet(c + 4)
        else if 65 <= c <= 90 then Sextet(c - 65)
        else if 97 <= c <= 122 then Sextet(c - 71)
        else Illegal
  }

  /** Each decoding table inverts its alphabet; alphabet bytes are ASCII and neither blank nor '='. */
  lemma {:induction false} AlphabetThenDecodabet(d: Dialect, i: byte)
    requires i < 64
    ensures Decodabet(d, Alphabet(d, i)) == Sextet(i)
    ensures Alphabet(d, i) < 0x80
    ensures Alphabet(d, i) != EQUALS_SIGN && Alphabet(d, i) != NEW_LINE
  {
  }

  /** A byte decodes to a sextet only if it is that sextet's own letter. */
  lemma {:induction false} DecodabetThenAlphabet(d: Dialect, c: byte)
    requires Decodabet(d, c).Sextet?
    ensures Decodabet(d, c).value < 64
    ensures Alphabet(d, Decodabet(d, c).value) == c
  {
  }

  /** The ordered alphabet is strictly increasing in unsigned byte order. */
  lemma {:induction false} OrderedAlphabetIncreases(i: byte, j: byte)
    requires i < 64 && j < 64
    ensures Alphabet(Ordered, i) < Alphabet(Ordered, j) <==> i < j
  {
  }
}
