/** Decoding inverts encoding, exactly as long as the decoder's 32-bit size estimate does not wrap. */
module Base64RoundTrip {
  import opened Wrappers
  import opened Arithmetic
  import opened Base64Alphabet
  import opened Base64Quartet
  import opened Base64Spec
  import opened Base64Length

  lemma {:induction false} RunSnoc(d: Dialect, room: int, a: seq<byte>, c: byte, off: int)
    ensures DecodeRun(d, room, a + [c], off) == DecodeStep(d, room, DecodeRun(d, room, a, off), c, off + |a|)
  {
    hide DecodeStep;
    assert (a + [c])[..|a + [c]| - 1] == a;
  }

  lemma {:induction false} RunBlank(d: Dialect, room: int, a: seq<byte>, off: int)
    ensures DecodeRun(d, room, a + [NEW_LINE], off) == DecodeRun(d, room, a, off)
  {
    RunSnoc(d, room, a, NEW_LINE, off);
  }

  /** After `a` the decoder has written `out` and holds `b4`. */
  ghost predicate Holds(d: Dialect, room: int, a: seq<byte>, off: int, out: seq<byte>, b4: seq<byte>) {
    DecodeRun(d, room, a, off) == Decoding(out, b4)
  }

  /** Collecting a letter that does not complete a quartet. */
  lemma {:induction false} CollectLetter(d: Dialect, room: int, a: seq<byte>, c: byte, off: int, out: seq<byte>,
                                         b4: seq<byte>)
    requires Holds(d, room, a, off, out, b4) && |b4| < 3
    requires Decodabet(d, c).Sextet? || Decodabet(d, c).Equals?
    ensures Holds(d, room, a + [c], off, out, b4 + [c])
  {
    hide Decodabet, DecodeRun, Unblock;
    RunSnoc(d, room, a, c, off);
  }

  /** The letter that completes one, with room for three more bytes. */
  lemma {:induction false} LastLetter(d: Dialect, room: int, a: seq<byte>, c: byte, off: int, out: seq<byte>,
                                      b4: seq<byte>)
    requires Holds(d, room, a, off, out, b4) && |b4| == 3 && |out| + 2 < room
    requires Decodabet(d, c).Sextet? || Decodabet(d, c).Equals?
    ensures var out' := out + Unblock(d, b4 + [c]);
            DecodeRun(d, room, a + [c], off) == if c == EQUALS_SIGN then Finished(out') else Decoding(out', [])
  {
    hide Decodabet, DecodeRun, Unblock;
    RunSnoc(d, room, a, c, off);
  }

  /** Four letters fed to a decoder that waits for a quartet, with room for three more bytes. */
  lemma {:induction false} RunFourLetters(d: Dialect, room: int, a: seq<byte>, q: seq<byte>, off: int, out: seq<byte>)
    requires |q| == 4 && forall k | 0 <= k < 4 :: Decodabet(d, q[k]).Sextet? || Decodabet(d, q[k]).Equals?
    requires Holds(d, room, a, off, out, []) && |out| + 2 < room
    ensures var out' := out + Unblock(d, q);
            DecodeRun(d, room, a + q, off) == if q[3] == EQUALS_SIGN then Finished(out') else Decoding(out', [])
  {
    hide Decodabet, DecodeRun, Unblock, Holds;
    CollectLetter(d, room, a, q[0], off, out, []);
    CollectLetter(d, room, a + [q[0]], q[1], off, out, [] + [q[0]]);
    CollectLetter(d, room, a + [q[0]] + [q[1]], q[2], off, out, [] + [q[0]] + [q[1]]);
    LastLetter(d, room, a + [q[0]] + [q[1]] + [q[2]], q[3], off, out, [] + [q[0]] + [q[1]] + [q[2]]);
    assert [] + [q[0]] + [q[1]] + [q[2]] + [q[3]] == q;
    assert a + [q[0]] + [q[1]] + [q[2]] + [q[3]] == a + q;
  }

  /** An encoder's quartet fed to such a decoder yields its bytes, and ends the text if padded. */
  lemma {:induction false} RunQuartet(d: Dialect, room: int, a: seq<byte>, s: seq<byte>, off: int)
    requires 1 <= |s| <= 3
    requires DecodeRun(d, room, a, off).Decoding? && DecodeRun(d, room, a, off).b4 == []
    requires |DecodeRun(d, room, a, off).out| + 2 < room
    ensures var out := DecodeRun(d, room, a, off).out;
            DecodeRun(d, room, a + Block(d, s), off) == if |s| == 3 then Decoding(out + s, []) else Finished(out + s)
  {
    hide Block, Unblock, Decodabet, DecodeRun;
    BlockLetters(d, s);
    UnblockBlock(d, s);
    var q := Block(d, s);
    assert q[3] == EQUALS_SIGN <==> |s| < 3;
    RunFourLetters(d, room, a, q, off, DecodeRun(d, room, a, off).out);
  }

  lemma {:induction false} RunEmit(o: Options, room: int, data: seq<byte>, line: nat, off: int)
    requires |data| % 3 == 0 && |data| <= room
    ensures DecodeRun(o.Dialect(), room, Emit(o, data, line).text, off) == Decoding(data, [])
  {
    hide Block, Unblock, DecodeStep;
    if data != [] {
      var d, before, s := o.Dialect(), data[..|data| - 3], data[|data| - 3..];
      var e := Emit(o, before, line).text;
      RunEmit(o, room, before, line, off);
      RunQuartet(d, room, e, s, off);
      RunBlank(d, room, e + Block(d, s), off);
      assert before + s == data;
    }
  }

  /** With room for whole quartets, the decoder ends with exactly the encoded bytes. */
  lemma {:induction false} RunEncode(o: Options, room: int, data: seq<byte>, off: int)
    requires 3 * ((|data| + 2) / 3) <= room
    ensures var st := DecodeRun(o.Dialect(), room, Encode(o, data), off);
            st == if |data| % 3 == 0 then Decoding(data, []) else Finished(data)
  {
    hide Block, Unblock, DecodeStep, DecodeRun;
    var w, r := Whole(data), Rest(data);
    var e := Emit(o, w, 0).text;
    RunEmit(o, room, w, 0, off);
    if r != [] {
      RunQuartet(o.Dialect(), room, e, r, off);
    } else {
      assert Encode(o, data) == e && w == data;
    }
  }

  /** Whatever is decoded fits the array it is written to. */
  lemma {:induction false} RunFits(d: Dialect, room: int, text: seq<byte>, off: int)
    ensures var st := DecodeRun(d, room, text, off);
            !st.Failed? ==> st.out == [] || |st.out| <= room
  {
    hide Unblock, Decodabet;
    if text != [] {
      RunFits(d, room, text[..|text| - 1], off);
    }
  }

  /** The decoder never uses up more than a quarter of the text for each three bytes of output. */
  lemma {:induction false} RunProgress(d: Dialect, room: int, text: seq<byte>, off: int)
    ensures var st := DecodeRun(d, room, text, off);
            && (st.Decoding? ==> 4 * ((|st.out| + 2) / 3) + |st.b4| <= |text|)
            && (st.Finished? ==> 4 * ((|st.out| + 2) / 3) <= |text|)
  {
    hide Unblock, Decodabet;
    if text != [] {
      RunProgress(d, room, text[..|text| - 1], off);
    }
  }

  /** For every text, however malformed, an unwrapped size estimate is never exceeded. */
  lemma {:induction false} EstimateSuffices(d: Dialect, len: nat, text: seq<byte>, off: int)
    requires |text| <= len && len * 3 < 0x8000_0000
    ensures DecodeRun(d, Room(len), text, off) != Failed(IllegalArgument)
  {
    hide Unblock, Decodabet;
    if text != [] {
      var before := text[..|text| - 1];
      EstimateSuffices(d, len, before, off);
      RunProgress(d, Room(len), before, off);
    }
  }

  lemma {:induction false} RoomOf(len: nat)
    requires len < 0x8000_0000
    ensures len * 3 < 0x8000_0000 ==> Room(len) == len * 3 / 4
    ensures len * 3 >= 0x8000_0000 ==> Room(len) <= len * 3 / 4 - 0x3FFF_FFFF
  {
    var w := Wrap32(len * 3);
    if len * 3 < 0x8000_0000 {
      assert w == len * 3;
    } else {
      assert w == len * 3 - 0x1_0000_0000;
    }
  }

  /** Three quarters of a text is at most a few per cent more than the bytes it encodes. */
  lemma {:induction false} TextVersusBytes(o: Options, data: seq<byte>)
    requires |Encode(o, data)| < 0x8000_0000
    ensures 3 * ((|data| + 2) / 3) <= |Encode(o, data)| * 3 / 4 <= |data| + 0x2000_0000
  {
    EncodeLength(o, data);
  }

  /**
   * The round trip, on every byte string and every option: decoding the encoded bytes, wherever they
   * lie in an array, gives the bytes back if and only if three times their number is a Java int.
   */
  lemma {:induction false} RoundTrip(o: Options, data: seq<byte>, source: seq<byte>, off: nat)
    requires var n := |Encode(o, data)|;
             n < 0x8000_0000 && off + n <= |source| && source[off..off + n] == Encode(o, data)
    ensures Decode(o, source, off, |Encode(o, data)|) == Success(data)
            <==> |Encode(o, data)| * 3 < 0x8000_0000
  {
    hide Encode, DecodeRun, Room;
    var text := Encode(o, data);
    var room := Room(|text|);
    EncodeLength(o, data);
    if data == [] {
    } else {
      TextVersusBytes(o, data);
      RoomOf(|text|);
      if |text| * 3 < 0x8000_0000 {
        RunEncode(o, room, data, off);
      } else {
        RunFits(o.Dialect(), room, text, off);
      }
    }
  }
}
