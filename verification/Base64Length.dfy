/** Sizes and line structure of the encoder's output. */
module Base64Length {
  import opened Base64Alphabet
  import opened Base64Quartet
  import opened Base64Spec

  /** Newlines after `groups` full quartets. */
  function Newlines(o: Options, groups: nat): nat { if o.breakLines then groups / 19 else 0 }

  /** The length of the text of `len` bytes. */
  function EncodedLength(o: Options, len: nat): nat { 4 * ((len + 2) / 3) + Newlines(o, len / 3) }

  /** The encoder's first guess at that length, from the padded number of quartets. */
  function EstimatedLength(o: Options, len: nat): nat {
    var encLen := (len / 3) * 4 + (if len % 3 > 0 then 4 else 0);
    if o.breakLines then encLen + encLen / MAX_LINE_LENGTH else encLen
  }

  /** The guess is never short, and it is one too long exactly when a padded quartet ends on a full line. */
  lemma {:induction false} EstimateIsTight(o: Options, len: nat)
    ensures EstimatedLength(o, len) == EncodedLength(o, len)
            + (if o.breakLines && len % 3 != 0 && (len + 2) / 3 % 19 == 0 then 1 else 0)
  {
    var k := (len + 2) / 3;
    assert (len / 3) * 4 + (if len % 3 > 0 then 4 else 0) == 4 * k;
    assert 4 * k / MAX_LINE_LENGTH == k / 19;
  }

  lemma {:induction false} EmitShape(o: Options, data: seq<byte>)
    requires |data| % 3 == 0
    ensures var e, g := Emit(o, data, 0), |data| / 3;
            && |e.text| == 4 * g + Newlines(o, g)
            && e.line == (if o.breakLines then 4 * (g % 19) else 4 * g)
  {
    hide Block;
    if data != [] {
      EmitShape(o, data[..|data| - 3]);
    }
  }

  /** The text of `n` bytes has length 4*ceil(n/3), plus one for each 19 whole groups when breaking lines. */
  lemma {:induction false} EncodeLength(o: Options, data: seq<byte>)
    ensures |Encode(o, data)| == EncodedLength(o, |data|)
  {
    hide Block, Emit;
    EmitShape(o, Whole(data));
    LastGroups(|Whole(data)|, |data|);
  }

  lemma {:induction false} LastGroups(n: nat, len: nat)
    requires n % 3 == 0 && n <= len < n + 3
    ensures len / 3 == n / 3 && (len + 2) / 3 == n / 3 + if n < len then 1 else 0
  {
  }

  /** The positions of newlines: index 76 of every run of 77. */
  ghost predicate LinesOf76(text: seq<byte>) {
    forall i | 0 <= i < |text| :: text[i] == NEW_LINE <==> i % 77 == 76
  }

  lemma {:induction false} NoNewlineInBlock(d: Dialect, s: seq<byte>)
    requires 1 <= |s| <= 3
    ensures forall k | 0 <= k < 4 :: Block(d, s)[k] != NEW_LINE
  {
    hide Block;
    BlockLetters(d, s);
  }

  /** Appending newline-free letters that stop short of, or just fill, the current line of 76. */
  lemma {:induction false} AppendLetters(text: seq<byte>, q: seq<byte>, n: nat)
    requires |text| == 77 * (n / 19) + 4 * (n % 19) && |q| == 4 && forall k | 0 <= k < 4 :: q[k] != NEW_LINE
    ensures LinesOf76(text) ==> LinesOf76(text + q)
    ensures LinesOf76(text) && n % 19 == 18 ==> LinesOf76(text + q + [NEW_LINE])
  {
    hide LinesOf76;
    var (q', r) := (n / 19, 4 * (n % 19));
    forall i | |text| <= i < |text| + 4 ensures i % 77 != 76 {
      InLine(q', r + (i - |text|));
    }
    InLine(q', r + 4);
    LettersLines(text, q);
    if n % 19 == 18 { NewlineLines(text + q); }
  }

  lemma {:induction false} InLine(q: nat, r: nat)
    requires r < 77
    ensures (77 * q + r) % 77 == r
  {
  }

  lemma {:induction false} LettersLines(text: seq<byte>, q: seq<byte>)
    requires NEW_LINE !in q && forall i | |text| <= i < |text| + |q| :: i % 77 != 76
    ensures LinesOf76(text) ==> LinesOf76(text + q)
  {
    assert forall i | 0 <= i < |q| :: q[i] != NEW_LINE;
  }

  lemma {:induction false} NewlineLines(text: seq<byte>)
    requires |text| % 77 == 76
    ensures LinesOf76(text) ==> LinesOf76(text + [NEW_LINE])
  {
  }

  lemma {:induction false} EmitLines(o: Options, data: seq<byte>)
    requires |data| % 3 == 0
    ensures o.breakLines ==> LinesOf76(Emit(o, data, 0).text)
    ensures !o.breakLines ==> NEW_LINE !in Emit(o, data, 0).text
  {
    hide Block, LinesOf76;
    if data == [] {
      NoLines();
    } else {
      var before, s := data[..|data| - 3], data[|data| - 3..];
      EmitLines(o, before);
      EmitShape(o, before);
      NoNewlineInBlock(o.Dialect(), s);
      if o.breakLines {
        AppendLetters(Emit(o, before, 0).text, Block(o.Dialect(), s), |before| / 3);
      }
    }
  }

  lemma {:induction false} NoLines()
    ensures LinesOf76([])
  {
  }

  /**
   * When lines are broken, every 77th byte and no other is a newline, so no line is longer than 76;
   * otherwise there is no newline.
   */
  lemma {:induction false} EncodeLines(o: Options, data: seq<byte>)
    ensures o.breakLines ==> LinesOf76(Encode(o, data))
    ensures !o.breakLines ==> NEW_LINE !in Encode(o, data)
  {
    hide Block, LinesOf76, Emit;
    EmitLines(o, Whole(data));
    EmitShape(o, Whole(data));
    if Rest(data) != [] {
      NoNewlineInBlock(o.Dialect(), Rest(data));
      if o.breakLines {
        AppendLetters(Emit(o, Whole(data), 0).text, Block(o.Dialect(), Rest(data)), |Whole(data)| / 3);
      }
    } else {
      assert Encode(o, data) == Emit(o, Whole(data), 0).text;
    }
  }

  /** A text without its newlines. */
  function Joined(text: seq<byte>): seq<byte> {
    if text == [] then []
    else
      var c := text[|text| - 1];
      Joined(text[..|text| - 1]) + (if c == NEW_LINE then [] else [c])
  }

  lemma {:induction false} JoinedConcat(a: seq<byte>, b: seq<byte>)
    ensures Joined(a + b) == Joined(a) + Joined(b)
  {
    if b == [] {
      assert a + b == a;
    } else {
      JoinedConcat(a, b[..|b| - 1]);
      assert (a + b)[..|a + b| - 1] == a + b[..|b| - 1];
    }
  }

  lemma {:induction false} JoinedWithoutNewline(a: seq<byte>)
    requires NEW_LINE !in a
    ensures Joined(a) == a
  {
    if a != [] {
      JoinedWithoutNewline(a[..|a| - 1]);
    }
  }

  lemma {:induction false} EmitJoined(o: Options, data: seq<byte>, line: nat, line': nat)
    requires |data| % 3 == 0
    ensures Joined(Emit(o, data, line).text) == Emit(o.(breakLines := false), data, line').text
  {
    hide Block;
    if data != [] {
      var before, s := data[..|data| - 3], data[|data| - 3..];
      EmitJoined(o, before, line, line');
      var e, b := Emit(o, before, line).text, Block(o.Dialect(), s);
      NoNewlineInBlock(o.Dialect(), s);
      JoinedConcat(e, b);
      JoinedWithoutNewline(b);
      JoinedConcat(e + b, [NEW_LINE]);
      assert Joined([NEW_LINE]) == [];
    }
  }

  /** Breaking lines only inserts newlines: without them the text is that of the unbroken encoding. */
  lemma {:induction false} BreakingInsertsNewlines(o: Options, data: seq<byte>)
    ensures Joined(Encode(o, data)) == Encode(o.(breakLines := false), data)
  {
    hide Block;
    EmitJoined(o, Whole(data), 0, 0);
    var p := Padded(o, Rest(data));
    if Rest(data) != [] { NoNewlineInBlock(o.Dialect(), Rest(data)); }
    JoinedConcat(Emit(o, Whole(data), 0).text, p);
    JoinedWithoutNewline(p);
  }

  lemma {:induction false} EmitBits(o: Options, data: seq<byte>, line: nat)
    requires |data| % 3 == 0
    ensures TextBits(o.Dialect(), Emit(o, data, line).text) == Bits(data)
  {
    hide Block, LetterBits, ByteBits;
    if data != [] {
      var d := o.Dialect();
      var before, s := data[..|data| - 3], data[|data| - 3..];
      EmitBits(o, before, line);
      var e, b := Emit(o, before, line).text, Block(d, s);
      BlockRegroupsBits(d, s);
      TextBitsConcat(d, e, b);
      TextBitsConcat(d, e + b, [NEW_LINE]);
      NewlineHasNoBits(d);
      BitsConcat(before, s);
      assert before + s == data;
      assert Bits(s) + Zeros(0) == Bits(s);
    }
  }

  lemma {:induction false} NewlineHasNoBits(d: Dialect)
    ensures TextBits(d, [NEW_LINE]) == []
  {
    assert [NEW_LINE][..0] == [];
  }

  /**
   * The meaning of an encoding: its letters spell the input's bit string six bits at a time,
   * followed by four zero bits after one odd byte and two after two.
   */
  lemma {:induction false} EncodeRegroupsBits(o: Options, data: seq<byte>)
    ensures TextBits(o.Dialect(), Encode(o, data)) == Bits(data) + Zeros(PadBits(|data|))
  {
    hide Block, TextBits, Bits, Emit, Zeros, PadBits;
    var d, w, r := o.Dialect(), Whole(data), Rest(data);
    var e := Emit(o, w, 0).text;
    EmitBits(o, w, 0);
    SamePadding(data);
    assert Encode(o, data) == e + Padded(o, r);
    if r == [] {
      assert w == data && e + Padded(o, r) == e;
    } else {
      PaddedBits(d, w, e, r);
    }
  }

  lemma {:induction false} SamePadding(data: seq<byte>)
    ensures PadBits(|Rest(data)|) == PadBits(|data|)
    ensures Rest(data) == [] ==> Bits(data) + Zeros(PadBits(|data|)) == Bits(data)
  {
    hide Bits, Zeros;
    var n := |data| % 3;
    assert n % 3 == n && |Rest(data)| == n;
    if n == 0 {
      AppendNoZeros(Bits(data));
    }
  }

  lemma {:induction false} AppendNoZeros(a: seq<bool>)
    ensures a + Zeros(0) == a
  {
  }

  lemma {:induction false} PaddedBits(d: Dialect, w: seq<byte>, e: seq<byte>, r: seq<byte>)
    requires TextBits(d, e) == Bits(w) && 1 <= |r| <= 3
    ensures TextBits(d, e + Block(d, r)) == Bits(w + r) + Zeros(PadBits(|r|))
  {
    hide Block, TextBits, Bits, Zeros, PadBits;
    TextBitsConcat(d, e, Block(d, r));
    BlockRegroupsBits(d, r);
    BitsConcat(w, r);
    Reassociate(Bits(w), Bits(r), Zeros(PadBits(|r|)));
  }

  lemma {:induction false} Reassociate(a: seq<bool>, b: seq<bool>, c: seq<bool>)
    ensures a + (b + c) == (a + b) + c
  {
  }
}
