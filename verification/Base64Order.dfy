/** The ordered dialect sorts encodings as their byte strings sort. */
module Base64Order {
  import opened Arithmetic
  import opened Base64Alphabet
  import opened Base64Quartet
  import opened Base64Spec
  import opened Base64Cons

  /** Strict lexicographic order of unsigned bytes; a proper prefix comes first. */
  predicate Less(a: seq<byte>, b: seq<byte>) {
    b != [] && (a == [] || a[0] < b[0] || (a[0] == b[0] && Less(a[1..], b[1..])))
  }

  /** Comparing two strings that start with parts of equal length. */
  lemma {:induction false} LessConcat(a: seq<byte>, b: seq<byte>, x: seq<byte>, y: seq<byte>)
    requires |a| == |b|
    ensures Less(a + x, b + y) <==> Less(a, b) || (a == b && Less(x, y))
    ensures !Less(a, a)
  {
    if a == [] {
      assert a + x == x && b + y == y;
    } else {
      LessConcat(a[1..], b[1..], x, y);
      assert (a + x)[1..] == a[1..] + x && (b + y)[1..] == b[1..] + y;
      assert a == [a[0]] + a[1..] && b == [b[0]] + b[1..];
      LessIrreflexive(a);
    }
  }

  lemma {:induction false} LessIrreflexive(a: seq<byte>)
    ensures !Less(a, a)
  {
    if a != [] { LessIrreflexive(a[1..]); }
  }

  predicate Less4(a0: byte, a1: byte, a2: byte, a3: byte, b0: byte, b1: byte, b2: byte, b3: byte) {
    a0 < b0 || (a0 == b0 && (a1 < b1 || (a1 == b1 && (a2 < b2 || (a2 == b2 && a3 < b3)))))
  }

  lemma {:induction false} Less4IsLess(a: seq<byte>, b: seq<byte>)
    requires |a| == |b| == 4
    ensures Less(a, b) <==> Less4(a[0], a[1], a[2], a[3], b[0], b[1], b[2], b[3])
  {
    assert a[1..][1..] == a[2..] && a[2..][1..] == a[3..] && a[3..][1..] == [];
    assert b[1..][1..] == b[2..] && b[2..][1..] == b[3..] && b[3..][1..] == [];
    assert Less(a[3..], b[3..]) <==> a[3] < b[3];
    assert Less(a[2..], b[2..]) <==> a[2] < b[2] || (a[2] == b[2] && Less(a[3..], b[3..]));
  }

  lemma {:induction false} Less3IsLess(a: seq<byte>, b: seq<byte>)
    requires 1 <= |a| == |b| <= 3
    ensures Less(a, b) <==> Less4(Nth(a, 0), Nth(a, 1), Nth(a, 2), 0, Nth(b, 0), Nth(b, 1), Nth(b, 2), 0)
  {
    var x, y := a + seq(4 - |a|, _ => 0), b + seq(4 - |b|, _ => 0);
    Less4IsLess(x, y);
    LessConcat(a, b, x[|a|..], y[|b|..]);
    LessIrreflexive(x[|a|..]);
    assert x[|a|..] == y[|b|..] && a + x[|a|..] == x && b + y[|b|..] == y;
  }

  /** Comparing `x` is comparing `hi`, then `lo`. */
  predicate SplitOrder(x: byte, x': byte, hi: byte, hi': byte, lo: byte, lo': byte) {
    && (x < x' <==> hi < hi' || (hi == hi' && lo < lo'))
    && (x == x' <==> hi == hi' && lo == lo')
  }

  lemma {:induction false} SplitBytes(x: byte, y: byte)
    ensures SplitOrder(x, y, x >> 2, y >> 2, x & 3, y & 3)
    ensures SplitOrder(x, y, x >> 4, y >> 4, x & 15, y & 15)
    ensures SplitOrder(x, y, x >> 6, y >> 6, x & 0x3F, y & 0x3F)
  {
  }

  lemma {:induction false} SplitSecond(x: byte, x': byte, y: byte, y': byte)
    ensures SplitOrder(((x << 4) & 0x30) | (y >> 4), ((x' << 4) & 0x30) | (y' >> 4), x & 3, x' & 3, y >> 4, y' >> 4)
  {
  }

  lemma {:induction false} SplitThird(x: byte, x': byte, y: byte, y': byte)
    ensures SplitOrder(((x << 2) & 0x3C) | (y >> 6), ((x' << 2) & 0x3C) | (y' >> 6), x & 15, x' & 15, y >> 6, y' >> 6)
  {
  }

  /** Comparing three bytes is comparing their four sextets. */
  lemma {:induction false} SextetsKeepOrder(a0: byte, a1: byte, a2: byte, b0: byte, b1: byte, b2: byte)
    ensures Less4(a0, a1, a2, 0, b0, b1, b2, 0)
            <==> Less4(a0 >> 2, ((a0 << 4) & 0x30) | (a1 >> 4), ((a1 << 2) & 0x3C) | (a2 >> 6), a2 & 0x3F,
                       b0 >> 2, ((b0 << 4) & 0x30) | (b1 >> 4), ((b1 << 2) & 0x3C) | (b2 >> 6), b2 & 0x3F)
  {
    SplitBytes(a0, b0); SplitBytes(a1, b1); SplitBytes(a2, b2);
    SplitSecond(a0, b0, a1, b1);
    SplitThird(a1, b1, a2, b2);
    RegroupOrder(a0, a1, a2, b0, b1, b2,
                 a0 >> 2, a0 & 3, a1 >> 4, a1 & 15, a2 >> 6, a2 & 0x3F,
                 b0 >> 2, b0 & 3, b1 >> 4, b1 & 15, b2 >> 6, b2 & 0x3F,
                 ((a0 << 4) & 0x30) | (a1 >> 4), ((a1 << 2) & 0x3C) | (a2 >> 6),
                 ((b0 << 4) & 0x30) | (b1 >> 4), ((b1 << 2) & 0x3C) | (b2 >> 6));
  }

  /** Lexicographic order does not depend on how the parts are grouped. */
  lemma {:induction false} RegroupOrder(a0: byte, a1: byte, a2: byte, b0: byte, b1: byte, b2: byte,
                     p0: byte, p1: byte, p2: byte, p3: byte, p4: byte, p5: byte,
                     q0: byte, q1: byte, q2: byte, q3: byte, q4: byte, q5: byte,
                     s1: byte, s2: byte, t1: byte, t2: byte)
    requires SplitOrder(a0, b0, p0, q0, p1, q1) && SplitOrder(a1, b1, p2, q2, p3, q3)
    requires SplitOrder(a2, b2, p4, q4, p5, q5)
    requires SplitOrder(s1, t1, p1, q1, p2, q2) && SplitOrder(s2, t2, p3, q3, p4, q4)
    ensures Less4(a0, a1, a2, 0, b0, b1, b2, 0) <==> Less4(p0, s1, s2, p5, q0, t1, t2, q5)
  {
  }

  lemma {:induction false} LetterKeepsOrder(i: byte, j: byte)
    requires i < 64 && j < 64
    ensures Letter(Ordered, i) < Letter(Ordered, j) <==> i < j
    ensures Letter(Ordered, i) == Letter(Ordered, j) <==> i == j
  {
    assert i & 0x3F == i && j & 0x3F == j;
    OrderedAlphabetIncreases(i, j);
    OrderedAlphabetIncreases(j, i);
  }

  /** One quartet keeps the order, full or padded alike. */
  lemma {:induction false} BlockKeepsOrder(a: seq<byte>, b: seq<byte>)
    requires 1 <= |a| == |b| <= 3
    ensures Less(a, b) <==> Less(Block(Ordered, a), Block(Ordered, b))
  {
    hide Letter, Sextets, InBuff, Less, Less4;
    var (a0, a1, a2) := (Nth(a, 0), Nth(a, 1), Nth(a, 2));
    var (b0, b1, b2) := (Nth(b, 0), Nth(b, 1), Nth(b, 2));
    Less3IsLess(a, b);
    Less4IsLess(Block(Ordered, a), Block(Ordered, b));
    SextetsKeepOrder(a0, a1, a2, b0, b1, b2);
    SextetsOfBytes(a0, a1, a2); SextetsOfBytes(b0, b1, b2);
    Rejoin(a0, a1, a2); Rejoin(b0, b1, b2);
    var (s0, s1, s2, s3) := Sextets(InBuff(a0, a1, a2));
    var (t0, t1, t2, t3) := Sextets(InBuff(b0, b1, b2));
    PaddedSextets(a0, a1, a2, b0, b1, b2);
    LettersKeepOrder(|a|, s0, s1, s2, s3, t0, t1, t2, t3);
  }

  /** Comparing padded letters is comparing sextets, when the sextets under the padding are equal. */
  lemma {:induction false} LettersKeepOrder(n: nat, s0: byte, s1: byte, s2: byte, s3: byte, t0: byte, t1: byte,
                                            t2: byte, t3: byte)
    requires s0 < 64 && s1 < 64 && s2 < 64 && s3 < 64 && t0 < 64 && t1 < 64 && t2 < 64 && t3 < 64
    requires 1 <= n <= 3 && (n < 3 ==> s3 == t3) && (n < 2 ==> s2 == t2)
    ensures Less4(Letter(Ordered, s0), Letter(Ordered, s1),
                  if n > 1 then Letter(Ordered, s2) else EQUALS_SIGN,
                  if n > 2 then Letter(Ordered, s3) else EQUALS_SIGN,
                  Letter(Ordered, t0), Letter(Ordered, t1),
                  if n > 1 then Letter(Ordered, t2) else EQUALS_SIGN,
                  if n > 2 then Letter(Ordered, t3) else EQUALS_SIGN)
            <==> Less4(s0, s1, s2, s3, t0, t1, t2, t3)
  {
    hide Letter;
    LetterKeepsOrder(s0, t0); LetterKeepsOrder(s1, t1); LetterKeepsOrder(s2, t2); LetterKeepsOrder(s3, t3);
  }

  /** Missing bytes leave the sextets that padding replaces equal. */
  lemma {:induction false} PaddedSextets(a0: byte, a1: byte, a2: byte, b0: byte, b1: byte, b2: byte)
    ensures a2 == 0 && b2 == 0 ==> a2 & 0x3F == b2 & 0x3F
    ensures a2 == 0 && b2 == 0 && a1 == 0 && b1 == 0 ==>
              ((a1 << 2) & 0x3C) | (a2 >> 6) == ((b1 << 2) & 0x3C) | (b2 >> 6)
  {
  }

  lemma {:induction false} BlockInjective(a: seq<byte>, b: seq<byte>)
    requires 1 <= |a| == |b| <= 3
    ensures Block(Ordered, a) == Block(Ordered, b) ==> a == b
  {
    hide Block, Unblock;
    UnblockBlock(Ordered, a);
    UnblockBlock(Ordered, b);
  }

  const PLAIN_ORDERED := Options(false, true, false)

  function Enc(data: seq<byte>): seq<byte> { Encode(PLAIN_ORDERED, data) }

  /** Without line breaks, the first group's quartet comes first. */
  lemma {:induction false} FirstQuartet(data: seq<byte>)
    requires |data| >= 3
    ensures Enc(data) == Block(Ordered, data[..3]) + Enc(data[3..])
  {
    hide Block, EncodeFrom;
    EncodeFromCons(PLAIN_ORDERED, data, 0);
    EncodeLineFree(PLAIN_ORDERED, data[3..], 4);
  }

  /** Pairs of lengths for which the order is kept: equal ones, or the shorter one in whole groups. */
  predicate KeepsOrder(m: nat, n: nat) { m == n || Min(m, n) % 3 == 0 }

  /**
   * For byte strings of equal length, or of which the shorter is in whole groups, the unsigned
   * lexicographic order of the inputs is the lexicographic order of their ordered encodings.
   */
  lemma {:induction false} OrderPreserved(a: seq<byte>, b: seq<byte>)
    requires KeepsOrder(|a|, |b|)
    ensures Less(a, b) <==> Less(Enc(a), Enc(b))
  {
    hide Block, Less, Encode;
    if |a| >= 3 && |b| >= 3 {
      OrderPreserved(a[3..], b[3..]);
      FirstQuartet(a); FirstQuartet(b);
      BlockKeepsOrder(a[..3], b[..3]);
      BlockInjective(a[..3], b[..3]);
      LessConcat(a[..3], b[..3], a[3..], b[3..]);
      LessConcat(Block(Ordered, a[..3]), Block(Ordered, b[..3]), Enc(a[3..]), Enc(b[3..]));
      assert a[..3] + a[3..] == a && b[..3] + b[3..] == b;
    } else {
      ShortOrder(a, b);
    }
  }

  lemma {:induction false} EncodeShort(a: seq<byte>)
    requires |a| < 3
    ensures Enc(a) == if a == [] then [] else Block(Ordered, a)
  {
    hide Block;
    EncodeFromShort(PLAIN_ORDERED, a, 0);
  }

  lemma {:induction false} EncodeNothing(a: seq<byte>)
    ensures Enc(a) == [] <==> a == []
  {
    hide Block, Encode;
    if |a| < 3 { EncodeShort(a); } else { FirstQuartet(a); }
  }

  /** The order when one string has no whole group. */
  lemma {:induction false} ShortOrder(a: seq<byte>, b: seq<byte>)
    requires KeepsOrder(|a|, |b|)
    requires |a| < 3 || |b| < 3
    ensures Less(a, b) <==> Less(Enc(a), Enc(b))
  {
    hide Block, Encode;
    if a == [] || b == [] {
      EncodeNothing(a);
      EncodeNothing(b);
    } else {
      EncodeShort(a); EncodeShort(b);
      BlockKeepsOrder(a, b);
    }
  }

  // ---------- where the order is lost ----------

  function ZeroBytes(n: nat): seq<byte> { seq(n, _ => 0) }

  lemma {:induction false} BlockOfZeros(n: nat)
    requires 1 <= n <= 3
    ensures Block(Ordered, ZeroBytes(n))
            == [45, 45, if n > 1 then 45 else EQUALS_SIGN, if n > 2 then 45 else EQUALS_SIGN]
  {
    assert InBuff(0, 0, 0) == 0 && Letter(Ordered, 0) == 45;
  }

  lemma {:induction false} PrefixIsLess(a: seq<byte>, b: seq<byte>)
    requires a <= b && |a| < |b|
    ensures Less(a, b)
  {
    if a != [] { PrefixIsLess(a[1..], b[1..]); }
  }

  lemma {:induction false} LessIsAsymmetric(a: seq<byte>, b: seq<byte>)
    ensures !(Less(a, b) && Less(b, a))
  {
    if a != [] && b != [] { LessIsAsymmetric(a[1..], b[1..]); }
  }

  /**
   * Padding sorts above every letter that zeros become, so a padded row of zeros sorts above any
   * longer row, though it is a prefix of it.
   */
  lemma {:induction false} ZerosReverse(m: nat, n: nat)
    requires m < n && m % 3 != 0
    ensures Less(ZeroBytes(m), ZeroBytes(n)) && Less(Enc(ZeroBytes(n)), Enc(ZeroBytes(m)))
  {
    hide Block, Encode, Less;
    PrefixIsLess(ZeroBytes(m), ZeroBytes(n));
    if m >= 3 {
      ZerosReverse(m - 3, n - 3);
      FirstZeros(m); FirstZeros(n);
      var q := Block(Ordered, ZeroBytes(3));
      LessConcat(q, q, Enc(ZeroBytes(n - 3)), Enc(ZeroBytes(m - 3)));
    } else {
      EncodeShort(ZeroBytes(m));
      var k := if n < 3 then n else 3;
      var (x, y) := (Block(Ordered, ZeroBytes(k)), Block(Ordered, ZeroBytes(m)));
      BlockOfZeros(k); BlockOfZeros(m);
      Less4IsLess(x, y);
      if n < 3 {
        EncodeShort(ZeroBytes(n));
      } else {
        FirstZeros(n);
        LessConcat(x, y, Enc(ZeroBytes(n - 3)), []);
        assert y + [] == y;
      }
    }
  }

  lemma {:induction false} FirstZeros(n: nat)
    requires n >= 3
    ensures Enc(ZeroBytes(n)) == Block(Ordered, ZeroBytes(3)) + Enc(ZeroBytes(n - 3))
  {
    hide Block, Encode;
    FirstQuartet(ZeroBytes(n));
    assert ZeroBytes(n)[..3] == ZeroBytes(3) && ZeroBytes(n)[3..] == ZeroBytes(n - 3);
  }

  /** The order is the same on both sides for all byte strings of the two lengths. */
  ghost predicate OrderKeptFor(m: nat, n: nat) {
    forall a: seq<byte>, b: seq<byte> | |a| == m && |b| == n :: Less(a, b) <==> Less(Enc(a), Enc(b))
  }

  /** The order is kept exactly for equal lengths, and where the shorter string has no unfinished group. */
  lemma {:induction false} OrderKeptExactly(m: nat, n: nat)
    ensures OrderKeptFor(m, n) <==> m == n || Min(m, n) % 3 == 0
  {
    hide Less, Encode;
    if KeepsOrder(m, n) {
      forall a: seq<byte>, b: seq<byte> | |a| == m && |b| == n ensures Less(a, b) <==> Less(Enc(a), Enc(b)) {
        OrderPreserved(a, b);
      }
    } else {
      var (a, b) := (ZeroBytes(m), ZeroBytes(n));
      if m < n { ZerosReverse(m, n); } else { ZerosReverse(n, m); }
      LessIsAsymmetric(a, b);
      LessIsAsymmetric(Enc(a), Enc(b));
      assert !(Less(a, b) <==> Less(Enc(a), Enc(b)));
    }
  }
}
