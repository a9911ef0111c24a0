/** The bits that a decoded text stands for. */
module Base64Meaning {
  import opened Wrappers
  import opened Arithmetic
  import opened Base64Alphabet
  import opened Base64Quartet
  import opened Base64Spec
  import opened Base64Length
  import opened Base64RoundTrip
  import opened Base64Letters
  import opened Base64Texts
  import Base64Codec

  // ---------- one quartet ----------

  lemma {:induction false} FirstByte(r0: byte, r1: byte)
    requires r0 < 64 && r1 < 64
    ensures ByteBits((r0 << 2) | (r1 >> 4)) == ByteBits(r0)[2..] + ByteBits(r1)[2..4]
  {
    hide ByteBits;
    SliceBits(r0); SliceBits(r1);
    FirstByteBitwise(r0, r1, (r0 << 2) | (r1 >> 4));
    BitsOf((r0 << 2) | (r1 >> 4)); MiddleBits(r1);
  }

  lemma {:induction false} FirstByteBitwise(r0: byte, r1: byte, b: byte)
    requires b == (r0 << 2) | (r1 >> 4) && r0 < 64 && r1 < 64
    ensures (b & 0x80 != 0 <==> r0 & 0x20 != 0) && (b & 0x40 != 0 <==> r0 & 0x10 != 0)
    ensures b & 0x20 != 0 <==> r0 & 8 != 0
    ensures (b & 0x10 != 0 <==> r0 & 4 != 0) && (b & 8 != 0 <==> r0 & 2 != 0) && (b & 4 != 0 <==> r0 & 1 != 0)
    ensures (b & 2 != 0 <==> r1 & 0x20 != 0) && (b & 1 != 0 <==> r1 & 0x10 != 0)
  {
  }

  lemma {:induction false} SecondByte(r1: byte, r2: byte)
    requires r2 < 64
    ensures ByteBits((r1 << 4) | (r2 >> 2)) == ByteBits(r1)[4..] + ByteBits(r2)[2..6]
  {
    SecondByteOf(r1, r2, (r1 << 4) | (r2 >> 2));
  }

  lemma {:induction false} SecondByteOf(r1: byte, r2: byte, b: byte)
    requires b == (r1 << 4) | (r2 >> 2) && r2 < 64
    ensures ByteBits(b) == ByteBits(r1)[4..] + ByteBits(r2)[2..6]
  {
    hide ByteBits;
    SecondByteBitwise(r1, r2, b);
    LastFour(r1); MiddleBits(r2); BitsOf(b);
  }

  lemma {:induction false} LastFour(b: byte)
    ensures ByteBits(b)[4..] == [b & 8 != 0, b & 4 != 0, b & 2 != 0, b & 1 != 0]
  {
  }

  lemma {:induction false} SecondByteBitwise(r1: byte, r2: byte, b: byte)
    requires b == (r1 << 4) | (r2 >> 2) && r2 < 64
    ensures (b & 0x80 != 0 <==> r1 & 8 != 0) && (b & 0x40 != 0 <==> r1 & 4 != 0) && (b & 0x20 != 0 <==> r1 & 2 != 0)
    ensures (b & 0x10 != 0 <==> r1 & 1 != 0) && (b & 8 != 0 <==> r2 & 0x20 != 0) && (b & 4 != 0 <==> r2 & 0x10 != 0)
    ensures (b & 2 != 0 <==> r2 & 8 != 0) && (b & 1 != 0 <==> r2 & 4 != 0)
  {
  }

  lemma {:induction false} ThirdByte(r2: byte, r3: byte)
    requires r3 < 64
    ensures ByteBits((r2 << 6) | r3) == ByteBits(r2)[6..] + ByteBits(r3)[2..]
  {
    ThirdByteOf(r2, r3, (r2 << 6) | r3);
  }

  lemma {:induction false} ThirdByteOf(r2: byte, r3: byte, b: byte)
    requires b == (r2 << 6) | r3 && r3 < 64
    ensures ByteBits(b) == ByteBits(r2)[6..] + ByteBits(r3)[2..]
  {
    hide ByteBits;
    ThirdByteBitwise(r2, r3, b);
    BitsOf(b); LastTwo(r2); LastSix(r3);
  }

  lemma {:induction false} LastTwo(b: byte)
    ensures ByteBits(b)[6..] == [b & 2 != 0, b & 1 != 0]
  {
  }

  lemma {:induction false} LastSix(b: byte)
    ensures ByteBits(b)[2..]
            == [b & 0x20 != 0, b & 0x10 != 0, b & 8 != 0, b & 4 != 0, b & 2 != 0, b & 1 != 0]
  {
  }

  lemma {:induction false} ThirdByteBitwise(r2: byte, r3: byte, b: byte)
    requires b == (r2 << 6) | r3 && r3 < 64
    ensures (b & 0x80 != 0 <==> r2 & 2 != 0) && (b & 0x40 != 0 <==> r2 & 1 != 0) && (b & 0x20 != 0 <==> r3 & 0x20 != 0)
    ensures (b & 0x10 != 0 <==> r3 & 0x10 != 0) && (b & 8 != 0 <==> r3 & 8 != 0) && (b & 4 != 0 <==> r3 & 4 != 0)
    ensures (b & 2 != 0 <==> r3 & 2 != 0) && (b & 1 != 0 <==> r3 & 1 != 0)
  {
  }

  lemma {:induction false} BitsOf(b: byte)
    ensures ByteBits(b) == [b & 0x80 != 0, b & 0x40 != 0, b & 0x20 != 0, b & 0x10 != 0,
                            b & 8 != 0, b & 4 != 0, b & 2 != 0, b & 1 != 0]
  {
  }

  lemma {:induction false} MiddleBits(b: byte)
    ensures ByteBits(b)[2..4] == [b & 0x20 != 0, b & 0x10 != 0]
    ensures ByteBits(b)[2..6] == [b & 0x20 != 0, b & 0x10 != 0, b & 8 != 0, b & 4 != 0]
  {
  }

  /** A quartet decodes to the first whole bytes of the bits of its letters. */
  lemma {:induction false} UnblockSpells(d: Dialect, q: seq<byte>)
    requires |q| == 4 && forall k | 0 <= k < Looked(q) :: Decodabet(d, q[k]).Sextet?
    ensures var n := Looked(q);
            && |TextBits(d, q[..n])| == 6 * n
            && Bits(Unblock(d, q)) == TextBits(d, q[..n])[..8 * (n - 1)]
  {
    hide Decodabet, OutBuff, Bytes, ByteBits, Bits, TextBits, LetterBits, Unblock;
    var n := Looked(q);
    DecodabetThenAlphabet(d, q[0]); DecodabetThenAlphabet(d, q[1]);
    var (r0, r1) := (Decodabet(d, q[0]).value, Decodabet(d, q[1]).value);
    SextetBits(d, q[0]); SextetBits(d, q[1]);
    if n > 2 { DecodabetThenAlphabet(d, q[2]); SextetBits(d, q[2]); }
    if n > 3 { DecodabetThenAlphabet(d, q[3]); SextetBits(d, q[3]); }
    var r2 := if n > 2 then Decodabet(d, q[2]).value else 0;
    var r3 := if n > 3 then Decodabet(d, q[3]).value else 0;
    UnblockLetters(d, q, r0, r1, r2, r3);
    BytesOfSextets(r0, r1, r2, r3);
    FirstByte(r0, r1); SecondByte(r1, r2); ThirdByte(r2, r3);
    FewLetters(d, q, n);
    var out := Unblock(d, q);
    FewBytes(out);
    TakeBytes(ByteBits(r0), ByteBits(r1), ByteBits(r2), ByteBits(r3));
  }

  lemma {:induction false} SextetBits(d: Dialect, c: byte)
    requires Decodabet(d, c).Sextet?
    ensures LetterBits(d, c) == ByteBits(Decodabet(d, c).value)[2..]
  {
  }

  lemma {:induction false} FewLetters(d: Dialect, q: seq<byte>, n: nat)
    requires |q| == 4 && 2 <= n <= 4
    ensures TextBits(d, q[..n]) == LetterBits(d, q[0]) + LetterBits(d, q[1])
            + (if n > 2 then LetterBits(d, q[2]) else []) + (if n > 3 then LetterBits(d, q[3]) else [])
  {
    hide LetterBits;
    assert q[..4][..3] == q[..3] && q[..3][..2] == q[..2] && q[..2][..1] == q[..1] && q[..1][..0] == [];
    assert TextBits(d, q[..1]) == LetterBits(d, q[0]);
    assert TextBits(d, q[..2]) == LetterBits(d, q[0]) + LetterBits(d, q[1]);
    assert n > 2 ==> TextBits(d, q[..3]) == LetterBits(d, q[0]) + LetterBits(d, q[1]) + LetterBits(d, q[2]);
  }

  lemma {:induction false} TakeBytes(a: seq<bool>, b: seq<bool>, c: seq<bool>, e: seq<bool>)
    requires |a| == |b| == |c| == |e| == 8
    ensures (a[2..] + b[2..])[..8] == a[2..] + b[2..4]
    ensures (a[2..] + b[2..] + c[2..])[..16] == a[2..] + b[2..4] + (b[4..] + c[2..6])
    ensures a[2..] + b[2..] + c[2..] + e[2..] == a[2..] + b[2..4] + (b[4..] + c[2..6]) + (c[6..] + e[2..])
  {
  }

  // ---------- whole texts ----------

  /** Whole quartets of letters decode to exactly their bits. */
  lemma {:induction false} LettersDecode(o: Options, room: int, sig: seq<byte>, off: int)
    requires |sig| % 4 == 0 && forall k | 0 <= k < |sig| :: IsLetter(o, sig[k])
    requires 3 * (|sig| / 4) <= room
    ensures var st := DecodeRun(o.Dialect(), room, sig, off);
            && st.Decoding? && st.b4 == [] && |st.out| == 3 * (|sig| / 4)
            && Bits(st.out) == TextBits(o.Dialect(), sig)
  {
    hide IsLetter, Decodabet, DecodeRun, Unblock, TextBits, Bits, Letters;
    var d := o.Dialect();
    if sig == [] {
      EmptyRun(d, room, off);
      NoBitsAtAll(d);
    } else {
      var n := |sig| - 4;
      var (front, q) := (sig[..n], sig[n..]);
      LettersDecode(o, room, front, off);
      var out := DecodeRun(d, room, front, off).out;
      QuartetOfLetters(o, q);
      RunFourLetters(d, room, front, q, off, out);
      UnblockSpells(d, q);
      BitsConcat(out, Unblock(d, q));
      TextBitsConcat(d, front, q);
      assert front + q == sig && q[..4] == q;
      assert TextBits(d, q)[..24] == TextBits(d, q);
    }
  }

  lemma {:induction false} NoBitsAtAll(d: Dialect)
    ensures Bits([]) == [] && TextBits(d, []) == []
  {
  }

  lemma {:induction false} QuartetOfLetters(o: Options, q: seq<byte>)
    requires |q| == 4 && forall k | 0 <= k < 4 :: IsLetter(o, q[k])
    ensures forall k | 0 <= k < 4 :: Decodabet(o.Dialect(), q[k]).Sextet? && q[k] != EQUALS_SIGN
    ensures Looked(q) == 4
  {
    hide Letters, Decodabet;
    forall k | 0 <= k < 4 ensures Decodabet(o.Dialect(), q[k]).Sextet? && q[k] != EQUALS_SIGN {
      LetterIsSextet(o, q[k]);
    }
  }

  lemma {:induction false} LetterIsSextet(o: Options, c: byte)
    requires IsLetter(o, c)
    ensures Decodabet(o.Dialect(), c).Sextet? && c != EQUALS_SIGN && !IsBlank(c)
  {
    hide Letters, Decodabet;
    var k :| 0 <= k < 64 && Letters(o)[k] == c as int as char;
    PlaceOf(o, k, c);
    DecodabetThenAlphabet(o.Dialect(), c);
    AlphabetThenDecodabet(o.Dialect(), Decodabet(o.Dialect(), c).value);
    NoBlankLetter(o.Dialect(), c);
  }

  lemma {:induction false} NoBlankLetter(d: Dialect, c: byte)
    ensures Decodabet(d, c).Sextet? ==> !IsBlank(c)
  {
  }

  /** Letters behind the last whole quartet wait for more. */
  lemma {:induction false} LettersWait(o: Options, room: int, sig: seq<byte>, off: int, tail: seq<byte>)
    requires DecodeRun(o.Dialect(), room, sig, off).Decoding? && DecodeRun(o.Dialect(), room, sig, off).b4 == []
    requires |tail| < 4 && forall k | 0 <= k < |tail| :: IsLetter(o, tail[k])
    ensures DecodeRun(o.Dialect(), room, sig + tail, off)
            == Decoding(DecodeRun(o.Dialect(), room, sig, off).out, tail)
  {
    hide IsLetter, DecodeRun, Decodabet, IsBlank;
    if tail == [] {
      assert sig + tail == sig;
    } else {
      var n := |tail| - 1;
      LettersWait(o, room, sig, off, tail[..n]);
      LetterIsSextet(o, tail[n]);
      var out := DecodeRun(o.Dialect(), room, sig, off).out;
      CollectLetter(o.Dialect(), room, sig + tail[..n], tail[n], off, out, tail[..n]);
      assert sig + tail[..n] + [tail[n]] == sig + tail && tail[..n] + [tail[n]] == tail;
    }
  }

  /** The signs that pad letters to whole quartets. */
  function Padding(letters: nat): seq<byte> {
    if letters % 4 == 2 then [61, 61] else if letters % 4 == 3 then [61] else []
  }

  /** Letters and, if they need it, their padding decode to the first whole bytes of the letters' bits. */
  lemma {:induction false} PaddedLettersDecode(o: Options, room: int, letters: seq<byte>, off: int)
    requires (forall k | 0 <= k < |letters| :: IsLetter(o, letters[k])) && |letters| % 4 >= 2
    requires 3 * (|letters| / 4 + 1) <= room
    ensures var st := DecodeRun(o.Dialect(), room, letters + Padding(|letters|), off);
            && st.Finished?
            && Bits(st.out) == Prefix(TextBits(o.Dialect(), letters), InBytes(|letters|))
  {
    hide IsLetter, Decodabet, DecodeRun, Unblock, TextBits, Bits, IsBlank;
    var (d, n) := (o.Dialect(), 4 * (|letters| / 4));
    var (front, tail) := (letters[..n], letters[n..]);
    LettersDecode(o, room, front, off);
    var (out, q) := (DecodeRun(d, room, front, off).out, tail + Padding(|letters|));
    PaddedQuartet(o, tail);
    assert Padding(|tail|) == Padding(|letters|);
    RunFourLetters(d, room, front, q, off, out);
    UnblockSpells(d, q);
    assert q[..|tail|] == tail;
    BitsConcat(out, Unblock(d, q));
    TextBitsConcat(d, front, tail);
    assert front + q == letters + Padding(|letters|) && front + tail == letters;
    WholeBits(o, front);
    PrefixOfConcat(TextBits(d, front), TextBits(d, tail), 8 * (|tail| - 1));
    WholeBytes(|letters|);
  }

  /** The bits of n letters that make whole bytes. */
  function InBytes(n: nat): nat { 8 * (3 * n / 4) }

  /** The bits of n letters that are in whole quartets. */
  function InQuartets(n: nat): nat { 24 * (n / 4) }

  /** The first n elements, or all of them. */
  function Prefix(bits: seq<bool>, n: nat): seq<bool> { if n <= |bits| then bits[..n] else bits }

  lemma {:induction false} PrefixOfConcat(a: seq<bool>, b: seq<bool>, n: nat)
    requires n <= |b|
    ensures Prefix(a + b, |a| + n) == a + b[..n]
  {
  }

  lemma {:induction false} WholeBytes(n: nat)
    requires n % 4 >= 2
    ensures InBytes(n) == 24 * (n / 4) + 8 * (n % 4 - 1)
  {
    var (q, r) := (n / 4, n % 4);
    assert 3 * n == 4 * (3 * q) + 3 * r;
    Quarter(3 * q, 3 * r);
  }

  lemma {:induction false} Quarter(k: nat, r: nat)
    requires 6 <= r <= 9
    ensures (4 * k + r) / 4 == k + if r < 8 then 1 else 2
  {
  }

  lemma {:induction false} WholeBits(o: Options, sig: seq<byte>)
    requires forall k | 0 <= k < |sig| :: IsLetter(o, sig[k])
    ensures |TextBits(o.Dialect(), sig)| == 6 * |sig|
  {
    hide IsLetter, Decodabet, IsBlank, LetterBits;
    if sig != [] {
      var n := |sig| - 1;
      WholeBits(o, sig[..n]);
      LetterIsSextet(o, sig[n]);
      SpellLetter(o, sig[n]);
    }
  }

  lemma {:induction false} PaddedQuartet(o: Options, tail: seq<byte>)
    requires 2 <= |tail| <= 3 && forall k | 0 <= k < |tail| :: IsLetter(o, tail[k])
    ensures var (q, d) := (tail + Padding(|tail|), o.Dialect());
            && |q| == 4 && Looked(q) == |tail| && q[3] == EQUALS_SIGN
            && (forall k | 0 <= k < 4 :: Decodabet(d, q[k]).Sextet? || Decodabet(d, q[k]).Equals?)
            && forall k | 0 <= k < |tail| :: Decodabet(d, q[k]).Sextet?
  {
    hide IsLetter, Decodabet, IsBlank;
    MarkersDecode(o.Dialect());
    forall k | 0 <= k < |tail| ensures Decodabet(o.Dialect(), tail[k]).Sextet? && tail[k] != EQUALS_SIGN {
      LetterIsSextet(o, tail[k]);
    }
  }

  // ---------- the bits of letters ----------

  /** The lowest bits of a number, the most significant first. */
  function LowBits(n: nat, count: nat): (r: seq<bool>)
    ensures |r| == count
  {
    if count == 0 then [] else LowBits(n / 2, count - 1) + [n % 2 == 1]
  }

  /** A number below 64 in six bits. */
  function SixOf(n: nat): (r: seq<bool>)
    ensures |r| == 6
  {
    LowBits(n, 6)
  }

  /** The place of a character in a text. */
  function PlaceIn(s: string, c: char): (k: nat)
    ensures k <= |s| && (k < |s| ==> s[k] == c) && forall j | 0 <= j < k :: s[j] != c
  {
    if s == "" || s[0] == c then 0 else 1 + PlaceIn(s[1..], c)
  }

  /** The places of letters in the alphabet that the options choose, in six bits each. */
  function WrittenBits(o: Options, letters: seq<byte>): seq<bool> {
    if letters == [] then []
    else
      var n := |letters| - 1;
      WrittenBits(o, letters[..n]) + SixOf(PlaceIn(Letters(o), letters[n] as int as char))
  }

  function NumberOf(s: seq<bool>): nat {
    if s == [] then 0 else 2 * NumberOf(s[..|s| - 1]) + BitValue(s[|s| - 1])
  }

  lemma {:induction false} LowBitsOfNumber(s: seq<bool>)
    ensures LowBits(NumberOf(s), |s|) == s
  {
    hide BitValue, LowBits;
    if s == [] {
      NoLowBits(NumberOf(s));
    } else {
      var (front, last) := (s[..|s| - 1], s[|s| - 1]);
      LowBitsOfNumber(front);
      LowBitsSnoc(NumberOf(front), last, |front|);
      assert front + [last] == s;
    }
  }

  lemma {:induction false} NoLowBits(n: nat)
    ensures LowBits(n, 0) == []
  {
  }

  lemma {:induction false} LowBitsSnoc(n: nat, bit: bool, count: nat)
    ensures LowBits(2 * n + BitValue(bit), count + 1) == LowBits(n, count) + [bit]
  {
    var m := 2 * n + BitValue(bit);
    assert m / 2 == n && m % 2 == BitValue(bit);
  }

  lemma {:induction false} SixOfSixBits(s: seq<bool>)
    requires |s| == 6
    ensures SixOf(SixBits(s)) == s
  {
    hide LowBits, NumberOf;
    LowBitsOfNumber(s);
    SixNumber(s);
  }

  lemma {:induction false} SixNumber(s: seq<bool>)
    requires |s| == 6
    ensures NumberOf(s) == SixBits(s)
  {
    hide BitValue, NumberOf;
    assert NumberOf(s[..0]) == 0 by { NoNumber(); assert s[..0] == []; }
    NumberSnoc(s, 1); NumberSnoc(s, 2); NumberSnoc(s, 3); NumberSnoc(s, 4); NumberSnoc(s, 5); NumberSnoc(s, 6);
    assert s[..6] == s;
  }

  lemma {:induction false} NoNumber()
    ensures NumberOf([]) == 0
  {
  }

  lemma {:induction false} NumberSnoc(s: seq<bool>, n: nat)
    requires 0 < n <= |s|
    ensures NumberOf(s[..n]) == 2 * NumberOf(s[..n - 1]) + BitValue(s[n - 1])
  {
    hide BitValue;
    assert s[..n][..n - 1] == s[..n - 1];
  }

  lemma {:induction false} WrittenLetter(o: Options, c: byte)
    requires IsLetter(o, c)
    ensures LetterBits(o.Dialect(), c) == SixOf(PlaceIn(Letters(o), c as int as char))
  {
    hide Letters, Decodabet, SixOf, SixBits, ByteBits, PlaceIn, IsBlank;
    LetterIsSextet(o, c);
    var k := PlaceIn(Letters(o), c as int as char);
    PlaceOf(o, k, c);
    var v := ByteOf(k);
    SixBitsOf(v);
    SixOfSixBits(ByteBits(v)[2..]);
  }

  lemma {:induction false} TextBitsAreWritten(o: Options, letters: seq<byte>)
    requires forall k | 0 <= k < |letters| :: IsLetter(o, letters[k])
    ensures TextBits(o.Dialect(), letters) == WrittenBits(o, letters)
  {
    hide IsLetter, LetterBits, SixOf, PlaceIn;
    if letters != [] {
      var n := |letters| - 1;
      TextBitsAreWritten(o, letters[..n]);
      WrittenLetter(o, letters[n]);
    }
  }

  /**
   * A text of letters decodes to their bits, blanks aside: in whole quartets, a rest being dropped;
   * or, when padding follows that completes a quartet, in whole bytes, whatever comes after it.
   */
  lemma {:induction false} TextSpellsBytes(o: Options, source: seq<byte>, off: nat, len: nat, m: nat,
                                           letters: seq<byte>)
    requires off + len <= |source| && 4 <= len && len * 3 < 0x8000_0000 && m <= len
    requires forall k | 0 <= k < |letters| :: IsLetter(o, letters[k])
    ensures Significant(source[off..off + len]) == letters ==>
              var r := Decode(o, source, off, len);
              r.Success? && Bits(r.value) == Prefix(WrittenBits(o, letters), InQuartets(|letters|))
    ensures |letters| % 4 >= 2 && Significant(source[off..off + m]) == letters + Padding(|letters|) ==>
              var r := Decode(o, source, off, len);
              r.Success? && Bits(r.value) == Prefix(WrittenBits(o, letters), InBytes(|letters|))
  {
    hide IsLetter, DecodeRun, TextBits, Bits, Room, Significant, WrittenBits;
    DecodeIsRun(o, source, off, len);
    RoomOf(len);
    TextBitsAreWritten(o, letters);
    var (text, d, room) := (source[off..off + len], o.Dialect(), Room(len));
    if Significant(text) == letters {
      SignificantLength(text);
      SkipBlanks(o, room, text, off, off);
      UnpaddedLettersDecode(o, room, letters, off);
    }
    if |letters| % 4 >= 2 && Significant(source[off..off + m]) == letters + Padding(|letters|) {
      var part := source[off..off + m];
      assert part == text[..m];
      SignificantLength(part);
      SkipBlanks(o, room, part, off, off);
      PaddedLettersDecode(o, room, letters, off);
      Base64Codec.RunStops(d, room, text, off, m);
    }
  }

  lemma {:induction false} UnpaddedLettersDecode(o: Options, room: int, letters: seq<byte>, off: int)
    requires forall k | 0 <= k < |letters| :: IsLetter(o, letters[k])
    requires 3 * (|letters| / 4) <= room
    ensures var st := DecodeRun(o.Dialect(), room, letters, off);
            st.Decoding? && Bits(st.out) == Prefix(TextBits(o.Dialect(), letters), InQuartets(|letters|))
  {
    hide IsLetter, DecodeRun, TextBits, Bits;
    var (d, n) := (o.Dialect(), 4 * (|letters| / 4));
    var (front, tail) := (letters[..n], letters[n..]);
    LettersDecode(o, room, front, off);
    LettersWait(o, room, front, off, tail);
    assert front + tail == letters;
    TextBitsConcat(d, front, tail);
    WholeBits(o, front);
    PrefixOfConcat(TextBits(d, front), TextBits(d, tail), 0);
  }

  // ---------- any quartet ----------

  /** What the decoding table holds for a byte, as a byte: a place, or the marker for padding, blanks and all else. */
  function Entry(o: Options, c: byte): byte {
    if c == 61 then 255
    else if IsBlank(c) then 251
    else
      var k := PlaceIn(Letters(o), c as int as char);
      if k < 64 then k as byte else 247
  }

  lemma {:induction false} RawIsEntry(o: Options, c: byte)
    ensures Decodabet(o.Dialect(), c).Raw() == Entry(o, c)
  {
    hide Letters, Decodabet, PlaceIn;
    DecodabetIsWritten(o, c);
    if IsBlank(c) { BlankSymbol(o.Dialect(), c); }
    MarkersDecode(o.Dialect());
    var k := PlaceIn(Letters(o), c as int as char);
    if k < 64 {
      assert IsLetter(o, c);
      LetterIsSextet(o, c);
      PlaceOf(o, k, c);
    }
  }

  /** Any quartet, well-formed or not: how many bytes it makes, and how they mix the table's entries. */
  lemma {:induction false} UnblockEntries(o: Options, q: seq<byte>)
    requires |q| == 4
    ensures var n := if q[2] == 61 then 1 else if q[3] == 61 then 2 else 3;
            var (e0, e1) := (Entry(o, q[0]), Entry(o, q[1]));
            var (e2, e3) := (if n > 1 then Entry(o, q[2]) else 0, if n > 2 then Entry(o, q[3]) else 0);
            Unblock(o.Dialect(), q)
            == [(e0 << 2) | (e1 >> 4), (e1 << 4) | (e2 >> 2), (e2 << 6) | e3][..n]
  {
    hide Decodabet, Entry, Unblock;
    RawIsEntry(o, q[0]); RawIsEntry(o, q[1]); RawIsEntry(o, q[2]); RawIsEntry(o, q[3]);
    var n := Looked(q);
    var (r0, r1) := (Entry(o, q[0]), Entry(o, q[1]));
    var (r2, r3) := (if n > 2 then Entry(o, q[2]) else 0, if n > 3 then Entry(o, q[3]) else 0);
    UnblockMix(o.Dialect(), q, r0, r1, r2, r3);
  }

  lemma {:induction false} UnblockMix(d: Dialect, q: seq<byte>, r0: byte, r1: byte, r2: byte, r3: byte)
    requires |q| == 4 && Decodabet(d, q[0]).Raw() == r0 && Decodabet(d, q[1]).Raw() == r1
    requires r2 == (if Looked(q) > 2 then Decodabet(d, q[2]).Raw() else 0)
    requires r3 == (if Looked(q) > 3 then Decodabet(d, q[3]).Raw() else 0)
    ensures Unblock(d, q)
            == [(r0 << 2) | (r1 >> 4), (r1 << 4) | (r2 >> 2), (r2 << 6) | r3][..Looked(q) - 1]
  {
    hide Decodabet, OutBuff, Bytes, Unblock;
    UnblockLetters(d, q, r0, r1, r2, r3);
    BytesOfSextets(r0, r1, r2, r3);
  }

  lemma {:induction false} SignificantLength(text: seq<byte>)
    ensures |Significant(text)| <= |text|
  {
    if text != [] { SignificantLength(text[..|text| - 1]); }
  }
}
