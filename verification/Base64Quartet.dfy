/** Three bytes to four letters and back: the arithmetic core of the codec. */
module Base64Quartet {
  import opened Base64Alphabet

  // ---------- bit buffers ----------

  /** The 24-bit buffer of three bytes; the shift by 24 drops a Java byte's sign extension. */
  function InBuff(b0: byte, b1: byte, b2: byte): bv32 {
    (((b0 as bv32) << 24) >> 8) | (((b1 as bv32) << 24) >> 16) | (((b2 as bv32) << 24) >> 24)
  }

  /** The four 6-bit groups of a buffer, high end first. */
  function Sextets(w: bv32): (byte, byte, byte, byte) {
    (((w >> 18) & 0xFF) as byte, ((w >> 12) & 0x3F) as byte, ((w >> 6) & 0x3F) as byte, (w & 0x3F) as byte)
  }

  /** Four table entries side by side, six bits apart; entries wider than six bits overlap. */
  function OutBuff(r0: byte, r1: byte, r2: byte, r3: byte): bv32 {
    ((r0 as bv32) << 18) | ((r1 as bv32) << 12) | ((r2 as bv32) << 6) | (r3 as bv32)
  }

  /** The three low bytes of a buffer, high end first; `(byte)` cuts off the rest. */
  function Bytes(w: bv32): (byte, byte, byte) {
    (((w >> 16) & 0xFF) as byte, ((w >> 8) & 0xFF) as byte, (w & 0xFF) as byte)
  }

  lemma {:induction false} SextetsOfBytes(b0: byte, b1: byte, b2: byte)
    ensures Sextets(InBuff(b0, b1, b2))
            == (b0 >> 2, ((b0 << 4) & 0x30) | (b1 >> 4), ((b1 << 2) & 0x3C) | (b2 >> 6), b2 & 0x3F)
    ensures InBuff(b0, b1, b2) >> 18 < 64
  {
  }

  lemma {:induction false} BytesOfSextets(r0: byte, r1: byte, r2: byte, r3: byte)
    ensures Bytes(OutBuff(r0, r1, r2, r3)) == ((r0 << 2) | (r1 >> 4), (r1 << 4) | (r2 >> 2), (r2 << 6) | r3)
  {
  }

  /** Splitting three bytes into sextets and joining the first n+1 of them gives back the first n bytes. */
  lemma {:induction false} Rejoin(b0: byte, b1: byte, b2: byte)
    ensures var (s0, s1, s2, s3) := Sextets(InBuff(b0, b1, b2));
            && s0 < 64 && s1 < 64 && s2 < 64 && s3 < 64
            && Bytes(OutBuff(s0, s1, s2, s3)) == (b0, b1, b2)
            && Bytes(OutBuff(s0, s1, s2, 0)).0 == b0 && Bytes(OutBuff(s0, s1, s2, 0)).1 == b1
            && Bytes(OutBuff(s0, s1, 0, 0)).0 == b0
  {
    hide Sextets, InBuff, Bytes, OutBuff;
    SextetsOfBytes(b0, b1, b2);
    var (s0, s1, s2, s3) := Sextets(InBuff(b0, b1, b2));
    BytesOfSextets(s0, s1, s2, s3);
    BytesOfSextets(s0, s1, s2, 0);
    BytesOfSextets(s0, s1, 0, 0);
  }

  // ---------- quartets ----------

  /** The n-th byte of a group, zero when missing. */
  function Nth(s: seq<byte>, n: nat): byte { if n < |s| then s[n] else 0 }

  /** A sextet's letter. */
  function Letter(d: Dialect, v: byte): byte { Alphabet(d, v & 0x3F) }

  /** The four letters for one to three bytes. */
  function Block(d: Dialect, s: seq<byte>): (q: seq<byte>)
    requires 1 <= |s| <= 3
    ensures |q| == 4
  {
    var (s0, s1, s2, s3) := Sextets(InBuff(Nth(s, 0), Nth(s, 1), Nth(s, 2)));
    [ Letter(d, s0),
      Letter(d, s1),
      if |s| > 1 then Letter(d, s2) else EQUALS_SIGN,
      if |s| > 2 then Letter(d, s3) else EQUALS_SIGN ]
  }

  /** The branches of quartet encoding. */
  lemma {:induction false} BlockCases(d: Dialect, s: seq<byte>, q: seq<byte>)
    requires 1 <= |s| <= 3 && q == Block(d, s)
    ensures var (s0, s1, s2, s3) := Sextets(InBuff(s[0], if |s| > 1 then s[1] else 0, if |s| > 2 then s[2] else 0));
            && q[0] == Letter(d, s0) && q[1] == Letter(d, s1)
            && q[2] == (if |s| > 1 then Letter(d, s2) else EQUALS_SIGN)
            && q[3] == (if |s| > 2 then Letter(d, s3) else EQUALS_SIGN)
  {
    hide Letter, Sextets, InBuff;
  }

  /** How many letters of a quartet are looked up in the decoding table. */
  function Looked(q: seq<byte>): (n: nat)
    requires |q| == 4
    ensures 2 <= n <= 4
  {
    if q[2] == EQUALS_SIGN then 2 else if q[3] == EQUALS_SIGN then 3 else 4
  }

  predicate Ascii(s: seq<byte>) { forall k | 0 <= k < |s| :: s[k] < 0x80 }

  /** The one to three bytes a quartet decodes to. Table markers take part as `entry & 0xFF`. */
  function Unblock(d: Dialect, q: seq<byte>): (s: seq<byte>)
    requires |q| == 4
    ensures |s| == Looked(q) - 1
  {
    var n := Looked(q);
    var (b0, b1, b2) := Bytes(OutBuff(Decodabet(d, q[0]).Raw(), Decodabet(d, q[1]).Raw(),
                                      if n > 2 then Decodabet(d, q[2]).Raw() else 0,
                                      if n > 3 then Decodabet(d, q[3]).Raw() else 0));
    [b0, b1, b2][..n - 1]
  }

  lemma {:induction false} LetterDecodes(d: Dialect, v: byte)
    requires v < 64
    ensures Decodabet(d, Letter(d, v)) == Sextet(v)
    ensures Letter(d, v) < 0x80 && Letter(d, v) != EQUALS_SIGN && Letter(d, v) != NEW_LINE
  {
    assert v & 0x3F == v;
    AlphabetThenDecodabet(d, v);
  }

  lemma {:induction false} MarkersDecode(d: Dialect)
    ensures Decodabet(d, EQUALS_SIGN) == Equals && Decodabet(d, NEW_LINE) == Blank
  {
  }

  /** One quartet round trip, full or padded; '=' marks exactly the missing bytes. */
  lemma {:induction false} UnblockBlock(d: Dialect, s: seq<byte>)
    requires 1 <= |s| <= 3
    ensures Unblock(d, Block(d, s)) == s
  {
    hide Letter, Alphabet, Decodabet, Sextets, InBuff, OutBuff, Bytes, Block, Unblock;
    var (b0, b1, b2, n, q) := (Nth(s, 0), Nth(s, 1), Nth(s, 2), |s|, Block(d, s));
    Rejoin(b0, b1, b2);
    var (s0, s1, s2, s3) := Sextets(InBuff(b0, b1, b2));
    BlockCases(d, s, q);
    LetterDecodes(d, s0); LetterDecodes(d, s1); LetterDecodes(d, s2); LetterDecodes(d, s3);
    UnblockLetters(d, q, s0, s1, if n > 1 then s2 else 0, if n > 2 then s3 else 0);
    assert [b0, b1, b2][..n] == s;
  }

  /** Unblocking, from the sextets that the letters looked up stand for. */
  lemma {:induction false} UnblockLetters(d: Dialect, q: seq<byte>, r0: byte, r1: byte, r2: byte, r3: byte)
    requires |q| == 4 && Decodabet(d, q[0]).Raw() == r0 && Decodabet(d, q[1]).Raw() == r1
    requires r2 == (if Looked(q) > 2 then Decodabet(d, q[2]).Raw() else 0)
    requires r3 == (if Looked(q) > 3 then Decodabet(d, q[3]).Raw() else 0)
    ensures var (b0, b1, b2) := Bytes(OutBuff(r0, r1, r2, r3)); Unblock(d, q) == [b0, b1, b2][..Looked(q) - 1]
  {
    hide Decodabet, OutBuff, Bytes;
  }

  /** Every letter of a quartet decodes to a sextet or is a padding sign, and no letter is blank. */
  lemma {:induction false} BlockLetters(d: Dialect, s: seq<byte>)
    requires 1 <= |s| <= 3
    ensures Ascii(Block(d, s))
    ensures var q := Block(d, s);
            forall k | 0 <= k < 4 ::
              && q[k] != NEW_LINE
              && if k <= |s| then Decodabet(d, q[k]).Sextet? && q[k] != EQUALS_SIGN else q[k] == EQUALS_SIGN
    ensures Decodabet(d, EQUALS_SIGN) == Equals && Decodabet(d, NEW_LINE) == Blank
  {
    hide Letter, Alphabet, Decodabet, Sextets, InBuff;
    Rejoin(Nth(s, 0), Nth(s, 1), Nth(s, 2));
    MarkersDecode(d);
    var (s0, s1, s2, s3) := Sextets(InBuff(Nth(s, 0), Nth(s, 1), Nth(s, 2)));
    LetterDecodes(d, s0); LetterDecodes(d, s1); LetterDecodes(d, s2); LetterDecodes(d, s3);
  }

  // ---------- bit strings ----------

  /** The bits of a byte, high bit first. */
  function ByteBits(b: byte): (r: seq<bool>)
    ensures |r| == 8
  {
    [b & 0x80 != 0, b & 0x40 != 0, b & 0x20 != 0, b & 0x10 != 0, b & 8 != 0, b & 4 != 0, b & 2 != 0, b & 1 != 0]
  }

  /** The bits a letter stands for: six for a sextet, none for anything else. */
  function LetterBits(d: Dialect, c: byte): (r: seq<bool>) {
    match Decodabet(d, c)
    case Sextet(v) => ByteBits(v)[2..]
    case _ => []
  }

  /** The bit string of a byte string. */
  function Bits(s: seq<byte>): (r: seq<bool>) {
    if s == [] then [] else Bits(s[..|s| - 1]) + ByteBits(s[|s| - 1])
  }

  /** The bit string that a Base64 text stands for. */
  function TextBits(d: Dialect, e: seq<byte>): seq<bool> {
    if e == [] then [] else TextBits(d, e[..|e| - 1]) + LetterBits(d, e[|e| - 1])
  }

  function Zeros(n: nat): seq<bool> { seq(n, _ => false) }

  /** Bits missing to bring n bytes up to a multiple of six bits. */
  function PadBits(n: nat): nat {
    if n % 3 == 1 then 4 else if n % 3 == 2 then 2 else 0
  }

  lemma {:induction false} TextBitsConcat(d: Dialect, a: seq<byte>, b: seq<byte>)
    ensures TextBits(d, a + b) == TextBits(d, a) + TextBits(d, b)
  {
    hide LetterBits;
    if b == [] {
      assert a + b == a;
    } else {
      TextBitsConcat(d, a, b[..|b| - 1]);
      assert (a + b)[..|a + b| - 1] == a + b[..|b| - 1];
    }
  }

  lemma {:induction false} BitsConcat(a: seq<byte>, b: seq<byte>)
    ensures Bits(a + b) == Bits(a) + Bits(b)
  {
    hide Bits;
    if b == [] {
      NoBits();
      assert a + b == a;
    } else {
      var n := |b| - 1;
      BitsConcat(a, b[..n]);
      BitsSnoc(b[..n], b[n]);
      BitsSnoc(a + b[..n], b[n]);
      assert b[..n] + [b[n]] == b && a + b[..n] + [b[n]] == a + b;
    }
  }

  lemma {:induction false} NoBits()
    ensures Bits([]) == []
  {
  }

  lemma {:induction false} BitsSnoc(s: seq<byte>, b: byte)
    ensures Bits(s + [b]) == Bits(s) + ByteBits(b)
  {
    hide ByteBits;
    assert (s + [b])[..|s + [b]| - 1] == s;
  }

  lemma {:induction false} SliceBits(b: byte)
    ensures var r := ByteBits(b);
            && r[..2] == [b & 0x80 != 0, b & 0x40 != 0]
            && r[..4] == [b & 0x80 != 0, b & 0x40 != 0, b & 0x20 != 0, b & 0x10 != 0]
            && r[..6] == [b & 0x80 != 0, b & 0x40 != 0, b & 0x20 != 0, b & 0x10 != 0, b & 8 != 0, b & 4 != 0]
            && r[2..] == [b & 0x20 != 0, b & 0x10 != 0, b & 8 != 0, b & 4 != 0, b & 2 != 0, b & 1 != 0]
            && r[4..] == [b & 8 != 0, b & 4 != 0, b & 2 != 0, b & 1 != 0]
            && r[6..] == [b & 2 != 0, b & 1 != 0]
  {
  }

  lemma {:induction false} FirstSextetBits(x: byte)
    ensures ByteBits(x >> 2)[2..] == ByteBits(x)[..6]
  {
    hide ByteBits;
    SliceBits(x >> 2); SliceBits(x);
    FirstBitwise(x, x >> 2);
  }

  lemma {:induction false} FirstBitwise(x: byte, v: byte)
    requires v == x >> 2
    ensures (v & 0x20 != 0 <==> x & 0x80 != 0) && (v & 0x10 != 0 <==> x & 0x40 != 0) && (v & 8 != 0 <==> x & 0x20 != 0)
    ensures (v & 4 != 0 <==> x & 0x10 != 0) && (v & 2 != 0 <==> x & 8 != 0) && (v & 1 != 0 <==> x & 4 != 0)
  {
  }

  lemma {:induction false} SecondSextetBits(x: byte, y: byte)
    ensures ByteBits(((x << 4) & 0x30) | (y >> 4))[2..] == ByteBits(x)[6..] + ByteBits(y)[..4]
  {
    hide ByteBits;
    var v := ((x << 4) & 0x30) | (y >> 4);
    SliceBits(v); SliceBits(x); SliceBits(y);
    SecondBitwise(x, y, v);
  }

  lemma {:induction false} SecondBitwise(x: byte, y: byte, v: byte)
    requires v == ((x << 4) & 0x30) | (y >> 4)
    ensures (v & 0x20 != 0 <==> x & 2 != 0) && (v & 0x10 != 0 <==> x & 1 != 0) && (v & 8 != 0 <==> y & 0x80 != 0)
    ensures (v & 4 != 0 <==> y & 0x40 != 0) && (v & 2 != 0 <==> y & 0x20 != 0) && (v & 1 != 0 <==> y & 0x10 != 0)
  {
  }

  lemma {:induction false} ThirdSextetBits(y: byte, z: byte)
    ensures ByteBits(((y << 2) & 0x3C) | (z >> 6))[2..] == ByteBits(y)[4..] + ByteBits(z)[..2]
  {
    hide ByteBits;
    var v := ((y << 2) & 0x3C) | (z >> 6);
    SliceBits(v); SliceBits(y); SliceBits(z);
    ThirdBitwise(y, z, v);
  }

  lemma {:induction false} ThirdBitwise(y: byte, z: byte, v: byte)
    requires v == ((y << 2) & 0x3C) | (z >> 6)
    ensures (v & 0x20 != 0 <==> y & 8 != 0) && (v & 0x10 != 0 <==> y & 4 != 0) && (v & 8 != 0 <==> y & 2 != 0)
    ensures (v & 4 != 0 <==> y & 1 != 0) && (v & 2 != 0 <==> z & 0x80 != 0) && (v & 1 != 0 <==> z & 0x40 != 0)
  {
  }

  lemma {:induction false} FourthSextetBits(z: byte)
    ensures ByteBits(z & 0x3F)[2..] == ByteBits(z)[2..]
  {
    hide ByteBits;
    SliceBits(z & 0x3F); SliceBits(z);
    FourthBitwise(z, z & 0x3F);
  }

  lemma {:induction false} FourthBitwise(z: byte, v: byte)
    requires v == z & 0x3F
    ensures (v & 0x20 != 0 <==> z & 0x20 != 0) && (v & 0x10 != 0 <==> z & 0x10 != 0) && (v & 8 != 0 <==> z & 8 != 0)
    ensures (v & 4 != 0 <==> z & 4 != 0) && (v & 2 != 0 <==> z & 2 != 0) && (v & 1 != 0 <==> z & 1 != 0)
  {
  }

  lemma {:induction false} ZeroBits()
    ensures ByteBits(0) == Zeros(8)
  {
  }

  lemma {:induction false} FewBytes(s: seq<byte>)
    requires 1 <= |s| <= 3
    ensures |s| == 1 ==> Bits(s) == ByteBits(s[0])
    ensures |s| == 2 ==> Bits(s) == ByteBits(s[0]) + ByteBits(s[1])
    ensures |s| == 3 ==> Bits(s) == ByteBits(s[0]) + ByteBits(s[1]) + ByteBits(s[2])
  {
    hide ByteBits;
    assert Bits(s[..1]) == ByteBits(s[0]) by { assert s[..1][..0] == []; }
    assert s == s[..|s|];
    if |s| > 1 {
      assert s[..2][..1] == s[..1];
      assert Bits(s[..2]) == ByteBits(s[0]) + ByteBits(s[1]);
    }
  }

  lemma {:induction false} FourLetters(d: Dialect, q: seq<byte>)
    requires |q| == 4
    ensures TextBits(d, q) == LetterBits(d, q[0]) + LetterBits(d, q[1]) + LetterBits(d, q[2]) + LetterBits(d, q[3])
  {
    hide LetterBits;
    assert q[..3][..2] == q[..2] && q[..2][..1] == q[..1] && q[..1][..0] == [];
    assert TextBits(d, q[..1]) == LetterBits(d, q[0]);
    assert TextBits(d, q[..2]) == LetterBits(d, q[0]) + LetterBits(d, q[1]);
    assert TextBits(d, q[..3]) == LetterBits(d, q[0]) + LetterBits(d, q[1]) + LetterBits(d, q[2]);
  }

  /** A quartet regroups the bits of its bytes six at a time, zero-padded at the end. */
  lemma {:induction false} BlockRegroupsBits(d: Dialect, s: seq<byte>)
    requires 1 <= |s| <= 3
    ensures TextBits(d, Block(d, s)) == Bits(s) + Zeros(PadBits(|s|))
  {
    hide Letter, Alphabet, Decodabet, Sextets, InBuff, ByteBits, Bits, TextBits;
    var (b0, b1, b2) := (Nth(s, 0), Nth(s, 1), Nth(s, 2));
    var (s0, s1, s2, s3) := Sextets(InBuff(b0, b1, b2));
    FourLetters(d, Block(d, s));
    LetterBitsOf(d, b0, b1, b2);
    MarkersDecode(d);
    ZeroBits();
    FewBytes(s);
    RegroupTail(ByteBits(b0), ByteBits(b1), ByteBits(b2));
    assert Bits(s) + Zeros(0) == Bits(s);
  }

  lemma {:induction false} LetterBitsOf(d: Dialect, b0: byte, b1: byte, b2: byte)
    ensures var (s0, s1, s2, s3) := Sextets(InBuff(b0, b1, b2));
            && LetterBits(d, Letter(d, s0)) == ByteBits(b0)[..6]
            && LetterBits(d, Letter(d, s1)) == ByteBits(b0)[6..] + ByteBits(b1)[..4]
            && LetterBits(d, Letter(d, s2)) == ByteBits(b1)[4..] + ByteBits(b2)[..2]
            && LetterBits(d, Letter(d, s3)) == ByteBits(b2)[2..]
  {
    hide Letter, Alphabet, Decodabet, Sextets, InBuff, ByteBits;
    Rejoin(b0, b1, b2);
    SextetsOfBytes(b0, b1, b2);
    var (s0, s1, s2, s3) := Sextets(InBuff(b0, b1, b2));
    LetterDecodes(d, s0); LetterDecodes(d, s1); LetterDecodes(d, s2); LetterDecodes(d, s3);
    FirstSextetBits(b0); SecondSextetBits(b0, b1); ThirdSextetBits(b1, b2); FourthSextetBits(b2);
  }

  lemma {:induction false} RegroupTail(x: seq<bool>, y: seq<bool>, z: seq<bool>)
    requires |x| == |y| == |z| == 8
    ensures x[..6] + (x[6..] + y[..4]) + (y[4..] + z[..2]) + z[2..] == x + y + z
    ensures z == Zeros(8) ==> x[..6] + (x[6..] + y[..4]) + (y[4..] + z[..2]) == x + y + Zeros(2)
    ensures y == Zeros(8) ==> x[..6] + (x[6..] + y[..4]) == x + Zeros(4)
  {
  }
}
