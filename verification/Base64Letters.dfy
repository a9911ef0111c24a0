/** The alphabets as they are written down, and the text of a byte string in terms of them. */
module Base64Letters {
  import opened Base64Alphabet
  import opened Base64Quartet
  import opened Base64Spec
  import opened Base64Length

  const UPPER := "ABCDEFGHI" + "JKLMNOPQR" + "STUVWXYZ"
  const LOWER := "abcdefghi" + "jklmnopqr" + "stuvwxyz"
  const DIGITS := "0123456789"

  /**
   * The 64 letters that the option bits choose: section 4 of RFC 3548, the ordered alphabet, or
   * section 3 of RFC 3548.
   */
  function Letters(o: Options): (s: string)
    ensures |s| == 64
  {
    if o.urlSafe then UPPER + LOWER + DIGITS + "-_"
    else if o.ordered then "-" + DIGITS + UPPER + "_" + LOWER
    else UPPER + LOWER + DIGITS + "+/"
  }

  lemma {:induction false} UpperIs(k: nat)
    requires k < 26
    ensures |UPPER| == 26 && UPPER[k] as int == 65 + k
  {
    Piece("ABCDEFGHI", "JKLMNOPQR", "STUVWXYZ", k);
  }

  lemma {:induction false} LowerIs(k: nat)
    requires k < 26
    ensures |LOWER| == 26 && LOWER[k] as int == 97 + k
  {
    Piece("abcdefghi", "jklmnopqr", "stuvwxyz", k);
  }

  lemma {:induction false} DigitIs(k: nat)
    requires k < 10
    ensures |DIGITS| == 10 && DIGITS[k] as int == 48 + k
  {
  }

  lemma {:induction false} Piece(a: string, b: string, c: string, k: nat)
    requires |a| == 9 && |b| == 9 && |c| == 8 && k < 26
    ensures (a + b + c)[k] == if k < 9 then a[k] else if k < 18 then b[k - 9] else c[k - 18]
  {
  }

  /** The character at a place of a text in five parts. */
  lemma {:induction false} Part(a: string, b: string, c: string, d: string, k: nat)
    requires k < |a| + |b| + |c| + |d|
    ensures (a + b + c + d)[k] ==
            if k < |a| then a[k]
            else if k < |a| + |b| then b[k - |a|]
            else if k < |a| + |b| + |c| then c[k - |a| - |b|]
            else d[k - |a| - |b| - |c|]
  {
  }

  /** The character for a sextet, by the options alone. */
  lemma {:induction false} LetterCode(o: Options, k: nat)
    requires k < 64
    ensures Letters(o)[k] as int ==
            if o.urlSafe || !o.ordered then
              if k < 26 then 65 + k
              else if k < 52 then 71 + k
              else if k < 62 then k - 4
              else if k == 62 then (if o.urlSafe then 45 else 43)
              else if o.urlSafe then 95 else 47
            else if k == 0 then 45
            else if k < 11 then 47 + k
            else if k < 37 then 54 + k
            else if k == 37 then 95
            else 59 + k
  {
    hide UPPER, LOWER, DIGITS;
    UpperIs(0); LowerIs(0); DigitIs(0);
    if o.urlSafe || !o.ordered {
      Part(UPPER, LOWER, DIGITS, if o.urlSafe then "-_" else "+/", k);
      if k < 26 { UpperIs(k); } else if k < 52 { LowerIs(k - 26); } else if k < 62 { DigitIs(k - 52); }
    } else {
      Part("-" + DIGITS, UPPER, "_", LOWER, k);
      if 0 < k < 11 { DigitIs(k - 1); }
      if 11 <= k < 37 { UpperIs(k - 11); }
      if k >= 38 { LowerIs(k - 38); }
    }
  }

  /** The encoding table is the alphabet that the options choose. */
  lemma {:induction false} AlphabetIsWritten(o: Options, i: byte)
    requires i < 64
    ensures Alphabet(o.Dialect(), i) as int == Letters(o)[i as int] as int
  {
    hide Letters;
    LetterCode(o, i as int);
  }

  predicate IsBlank(c: byte) { c == 9 || c == 10 || c == 13 || c == 32 }

  predicate IsLetter(o: Options, c: byte) { (c as int as char) in Letters(o) }

  /** Neither a letter of the alphabet that the options choose, nor padding, nor blank. */
  predicate IsIllegal(o: Options, c: byte) { !IsLetter(o, c) && c != 61 && !IsBlank(c) }

  /** The decoding table knows the alphabet's letters by their places, padding, and four blanks; no other byte. */
  lemma {:induction false} DecodabetIsWritten(o: Options, c: byte)
    ensures match Decodabet(o.Dialect(), c)
            case Sextet(v) => v < 64 && Letters(o)[v as int] as int == c as int && IsLetter(o, c)
            case Equals => c == 61
            case Blank => IsBlank(c)
            case Illegal => IsIllegal(o, c)
  {
    hide Letters, Alphabet;
    if Decodabet(o.Dialect(), c).Sextet? {
      var v := Decodabet(o.Dialect(), c).value;
      DecodabetThenAlphabet(o.Dialect(), c);
      AlphabetIsWritten(o, v);
      assert Letters(o)[v as int] == c as int as char;
    }
    if IsLetter(o, c) {
      var k :| 0 <= k < 64 && Letters(o)[k] == c as int as char;
      PlaceOf(o, k, c);
    }
  }

  lemma {:induction false} PlaceOf(o: Options, k: nat, c: byte)
    requires k < 64 && Letters(o)[k] as int == c as int
    ensures Decodabet(o.Dialect(), c) == Sextet(k as byte)
  {
    hide Letters, Alphabet, Decodabet;
    var i := ByteOf(k);
    AlphabetIsWritten(o, i);
    SameByte(Alphabet(o.Dialect(), i), c);
    AlphabetThenDecodabet(o.Dialect(), i);
  }

  lemma {:induction false} ByteOf(k: nat) returns (i: byte)
    requires k < 64
    ensures i == k as byte && i < 64 && i as int == k
  {
    i := k as byte;
  }

  lemma {:induction false} SameByte(x: byte, y: byte)
    requires x as int == y as int
    ensures x == y
  {
  }

  // ---------- the text of a byte string ----------

  function BitValue(b: bool): nat { if b then 1 else 0 }

  /** The number that six bits spell. */
  function SixBits(s: seq<bool>): (n: nat)
    requires |s| == 6
    ensures n < 64
  {
    32 * BitValue(s[0]) + 16 * BitValue(s[1]) + 8 * BitValue(s[2]) + 4 * BitValue(s[3]) + 2 * BitValue(s[4])
    + BitValue(s[5])
  }

  /** A letter for each six bits. */
  function Spell(o: Options, bits: seq<bool>): string {
    if |bits| < 6 then "" else [Letters(o)[SixBits(bits[..6])]] + Spell(o, bits[6..])
  }

  /** The bits six by six, filled up with zeros, and padding up to a multiple of four. */
  function Reference(o: Options, data: seq<byte>): string {
    var n := |data| % 3;
    Spell(o, Bits(data) + if n == 1 then Zeros(4) else if n == 2 then Zeros(2) else [])
    + if n == 1 then "==" else if n == 2 then "=" else ""
  }

  function Chars(text: seq<byte>): (s: string)
    ensures |s| == |text|
  {
    seq(|text|, i requires 0 <= i < |text| => text[i] as int as char)
  }

  lemma {:induction false} SpellConcat(o: Options, a: seq<bool>, b: seq<bool>)
    requires |a| % 6 == 0
    ensures Spell(o, a + b) == Spell(o, a) + Spell(o, b)
  {
    hide Letters, SixBits;
    if a == [] {
      assert a + b == b;
    } else {
      SpellConcat(o, a[6..], b);
      assert (a + b)[..6] == a[..6] && (a + b)[6..] == a[6..] + b;
    }
  }

  /** Bits of a letter's sextet spell the letter. */
  lemma {:induction false} SpellLetter(o: Options, c: byte)
    requires Decodabet(o.Dialect(), c).Sextet?
    ensures |LetterBits(o.Dialect(), c)| == 6 && Spell(o, LetterBits(o.Dialect(), c)) == [c as int as char]
  {
    hide Letters, Decodabet, SixBits, ByteBits;
    DecodabetIsWritten(o, c);
    var v := Decodabet(o.Dialect(), c).value;
    var bits := ByteBits(v)[2..];
    SixBitsOf(v);
    assert bits[..6] == bits && bits[6..] == [];
  }

  lemma {:induction false} SixBitsOf(v: byte)
    requires v < 64
    ensures SixBits(ByteBits(v)[2..]) == v as int
  {
    hide ByteBits, BitValue;
    SliceBits(v);
    var (a, b, c, d, e, f) := (v & 0x20, v & 0x10, v & 8, v & 4, v & 2, v & 1);
    OneBit(v, 0x20); OneBit(v, 0x10); OneBit(v, 8); OneBit(v, 4); OneBit(v, 2); OneBit(v, 1);
    SumOfParts(v);
    SumOfBits(a, b, c, d, e, f);
    BitAsInt(a, 0x20); BitAsInt(b, 0x10); BitAsInt(c, 8); BitAsInt(d, 4); BitAsInt(e, 2); BitAsInt(f, 1);
  }

  lemma {:induction false} SumOfParts(v: byte)
    requires v < 64
    ensures v == (v & 0x20) + (v & 0x10) + (v & 8) + (v & 4) + (v & 2) + (v & 1)
  {
  }

  lemma {:induction false} BitAsInt(x: byte, m: byte)
    requires x == 0 || x == m
    requires m == 0x20 || m == 0x10 || m == 8 || m == 4 || m == 2 || m == 1
    ensures x as int == m as int * BitValue(x != 0)
  {
  }

  lemma {:induction false} OneBit(v: byte, m: byte)
    requires m == 0x20 || m == 0x10 || m == 8 || m == 4 || m == 2 || m == 1
    ensures v & m == 0 || v & m == m
  {
  }

  lemma {:induction false} SumOfBits(a: byte, b: byte, c: byte, d: byte, e: byte, f: byte)
    requires (a == 0 || a == 0x20) && (b == 0 || b == 0x10) && (c == 0 || c == 8)
    requires (d == 0 || d == 4) && (e == 0 || e == 2) && (f == 0 || f == 1)
    ensures (a + b + c + d + e + f) as int == a as int + b as int + c as int + d as int + e as int + f as int
  {
  }

  lemma {:induction false} SpellText(o: Options, e: seq<byte>)
    requires forall k | 0 <= k < |e| :: Decodabet(o.Dialect(), e[k]).Sextet?
    ensures |TextBits(o.Dialect(), e)| % 6 == 0 && Spell(o, TextBits(o.Dialect(), e)) == Chars(e)
  {
    hide Letters, Decodabet, SixBits, LetterBits, Spell;
    if e == [] {
      NothingSpelled(o);
    } else {
      var (n, d) := (|e| - 1, o.Dialect());
      SpellText(o, e[..n]);
      SpellLetter(o, e[n]);
      SpellConcat(o, TextBits(d, e[..n]), LetterBits(d, e[n]));
      assert Chars(e) == Chars(e[..n]) + [e[n] as int as char];
    }
  }

  lemma {:induction false} NothingSpelled(o: Options)
    ensures Spell(o, []) == ""
  {
  }

  lemma {:induction false} EmitLetters(o: Options, data: seq<byte>)
    requires |data| % 3 == 0 && !o.breakLines
    ensures forall k | 0 <= k < |Emit(o, data, 0).text| :: Decodabet(o.Dialect(), Emit(o, data, 0).text[k]).Sextet?
  {
    hide Block, Decodabet;
    if data != [] {
      EmitLetters(o, data[..|data| - 3]);
      BlockLetters(o.Dialect(), data[|data| - 3..]);
    }
  }

  /** Without line breaks, letters and then the padding of an unfinished group. */
  lemma {:induction false} LettersThenPadding(o: Options, data: seq<byte>) returns (e: seq<byte>, pad: seq<byte>)
    requires !o.breakLines
    ensures Encode(o, data) == e + pad && forall k | 0 <= k < |e| :: Decodabet(o.Dialect(), e[k]).Sextet?
    ensures pad == if |data| % 3 == 1 then [61, 61] else if |data| % 3 == 2 then [61] else []
  {
    hide Block, Decodabet, Emit;
    var (text, r) := (Emit(o, Whole(data), 0).text, Rest(data));
    EmitLetters(o, Whole(data));
    if r == [] {
      e, pad := text, [];
      assert text + Padded(o, r) == text + [];
    } else {
      BlockLetters(o.Dialect(), r);
      var q := Block(o.Dialect(), r);
      e, pad := text + q[..|r| + 1], q[|r| + 1..];
      assert q == q[..|r| + 1] + pad;
    }
  }

  lemma {:induction false} PaddingHasNoBits(d: Dialect, e: seq<byte>, pad: seq<byte>)
    requires forall k | 0 <= k < |pad| :: pad[k] == 61
    ensures TextBits(d, e + pad) == TextBits(d, e)
  {
    hide Decodabet;
    if pad == [] {
      assert e + pad == e;
    } else {
      PaddingHasNoBits(d, e, pad[..|pad| - 1]);
      assert (e + pad)[..|e + pad| - 1] == e + pad[..|pad| - 1];
      MarkersDecode(d);
    }
  }

  /**
   * The meaning of an encoding: but for line breaks it is the letters that the bits spell six by six in
   * the alphabet that the options choose, and padding up to a multiple of four.
   */
  lemma {:induction false} EncodeIsReference(o: Options, data: seq<byte>)
    ensures Chars(Joined(Encode(o, data))) == Reference(o, data)
  {
    hide Encode, Joined, TextBits, Bits, Spell, Decodabet, Letters;
    var plain := o.(breakLines := false);
    BreakingInsertsNewlines(o, data);
    var e, pad := LettersThenPadding(plain, data);
    EncodeRegroupsBits(plain, data);
    PaddingHasNoBits(plain.Dialect(), e, pad);
    SpellText(plain, e);
    SameLetters(o, plain, Bits(data) + Zeros(PadBits(|data|)));
    assert Chars(e + pad) == Chars(e) + Chars(pad);
    assert Chars(pad) == if |data| % 3 == 1 then "==" else if |data| % 3 == 2 then "=" else "";
    assert Zeros(0) == [];
  }

  lemma {:induction false} SameLetters(o: Options, p: Options, bits: seq<bool>)
    requires o.urlSafe == p.urlSafe && o.ordered == p.ordered
    ensures Spell(o, bits) == Spell(p, bits)
  {
    hide SixBits;
    if |bits| >= 6 { SameLetters(o, p, bits[6..]); }
  }
}
