/** What the batch decoder makes of any text, well-formed or not. */
module Base64Texts {
  import opened Wrappers
  import opened Arithmetic
  import opened Base64Alphabet
  import opened Base64Quartet
  import opened Base64Spec
  import opened Base64RoundTrip
  import opened Base64Letters
  import Base64Codec

  // ---------- blanks ----------

  /** A text without its tabs, line feeds, carriage returns and spaces. */
  function Significant(text: seq<byte>): seq<byte> {
    if text == [] then []
    else
      var c := text[|text| - 1];
      Significant(text[..|text| - 1]) + if c == 9 || c == 10 || c == 13 || c == 32 then [] else [c]
  }

  lemma {:induction false} BlankStep(o: Options, room: int, st: Decoder, c: byte, position: int)
    requires st.Valid() && IsBlank(c)
    ensures DecodeStep(o.Dialect(), room, st, c, position) == st
  {
    hide Decodabet, Unblock, IsBlank;
    BlankSymbol(o.Dialect(), c);
  }

  lemma {:induction false} BlankSymbol(d: Dialect, c: byte)
    requires IsBlank(c)
    ensures Decodabet(d, c) == Blank
  {
  }

  lemma {:induction false} StepAnywhere(d: Dialect, room: int, st: Decoder, c: byte, p: int, p': int)
    requires st.Valid()
    ensures var (r, r') := (DecodeStep(d, room, st, c, p), DecodeStep(d, room, st, c, p'));
            && (r.Failed? <==> r'.Failed?) && (!r.Failed? ==> r == r')
            && (r == Failed(IllegalArgument) && !st.Failed? ==> r' == r)
  {
    hide Decodabet, Unblock;
  }

  /** Blanks make no difference to a decoder that does not fail. */
  lemma {:induction false} SkipBlanks(o: Options, room: int, text: seq<byte>, off: int, off': int)
    ensures var r := DecodeRun(o.Dialect(), room, text, off);
            var r' := DecodeRun(o.Dialect(), room, Significant(text), off');
            (r.Failed? <==> r'.Failed?) && (!r.Failed? ==> r == r')
  {
    hide DecodeStep, DecodeRun, Significant;
    if text == [] {
      NothingSignificant();
      EmptyRun(o.Dialect(), room, off);
      EmptyRun(o.Dialect(), room, off');
    } else {
      var (n, d) := (|text| - 1, o.Dialect());
      var (front, c) := (text[..n], text[n]);
      SkipBlanks(o, room, front, off, off');
      var st := DecodeRun(d, room, front, off);
      assert front + [c] == text;
      RunSnoc(d, room, front, c, off);
      SignificantSnoc(front, c);
      if IsBlank(c) {
        BlankStep(o, room, st, c, off + n);
      } else {
        RunSnoc(d, room, Significant(front), c, off');
        StepAnywhere(d, room, st, c, off + n, off' + |Significant(front)|);
        FailedStays(d, room, st, c, off + n);
        FailedStays(d, room, DecodeRun(d, room, Significant(front), off'), c, off' + |Significant(front)|);
      }
    }
  }

  lemma {:induction false} NothingSignificant()
    ensures Significant([]) == []
  {
  }

  lemma {:induction false} SignificantSnoc(text: seq<byte>, c: byte)
    ensures Significant(text + [c]) == if IsBlank(c) then Significant(text) else Significant(text) + [c]
  {
    assert (text + [c])[..|text + [c]| - 1] == text;
    assert Significant(text) + [] == Significant(text);
  }

  lemma {:induction false} FailedStays(d: Dialect, room: int, st: Decoder, c: byte, position: int)
    requires st.Valid()
    ensures st.Failed? ==> DecodeStep(d, room, st, c, position) == st
  {
    hide Decodabet, Unblock;
  }

  /** The size of the output array matters only when it is too small. */
  lemma {:induction false} AnyRoom(d: Dialect, room: int, room': int, text: seq<byte>, off: int)
    requires !DecodeRun(d, room, text, off).Failed? && DecodeRun(d, room', text, off) != Failed(IllegalArgument)
    ensures DecodeRun(d, room', text, off) == DecodeRun(d, room, text, off)
  {
    hide DecodeStep;
    if text != [] {
      var (n, front) := (|text| - 1, text[..|text| - 1]);
      FailedStays(d, room, DecodeRun(d, room, front, off), text[n], off + n);
      FailedStays(d, room', DecodeRun(d, room', front, off), text[n], off + n);
      AnyRoom(d, room, room', front, off);
      StepInRooms(d, room, room', DecodeRun(d, room, front, off), text[n], off + n);
    }
  }

  lemma {:induction false} StepInRooms(d: Dialect, room: int, room': int, st: Decoder, c: byte, position: int)
    requires st.Valid() && !DecodeStep(d, room, st, c, position).Failed?
    requires DecodeStep(d, room', st, c, position) != Failed(IllegalArgument)
    ensures DecodeStep(d, room', st, c, position) == DecodeStep(d, room, st, c, position)
  {
    hide Decodabet, Unblock;
  }

  /** What decoding comes to, once the size estimate does not wrap. */
  lemma {:induction false} DecodeIsRun(o: Options, source: seq<byte>, off: nat, len: nat)
    requires off + len <= |source| && (len == 0 || 4 <= len) && len * 3 < 0x8000_0000
    ensures var st := DecodeRun(o.Dialect(), Room(len), source[off..off + len], off);
            && st != Failed(IllegalArgument)
            && Decode(o, source, off, len) == if st.Failed? then Error(st.failure) else Success(st.out)
  {
    hide DecodeStep;
    EstimateSuffices(o.Dialect(), len, source[off..off + len], off);
    RoomOf(len);
    if len == 0 { assert source[off..off + len] == []; }
  }

  /**
   * Texts that differ only in blanks decode alike: if one decodes, the other does, to the same bytes.
   * The other has to be as long as the decoder asks for, and its tripled length an int.
   */
  lemma {:induction false} BlanksDoNotMatter(o: Options, source: seq<byte>, off: nat, len: nat, data: seq<byte>,
                                             source': seq<byte>, off': nat, len': nat)
    requires Decode(o, source, off, len) == Success(data)
    requires off' + len' <= |source'| && (len' == 0 || 4 <= len') && len' * 3 < 0x8000_0000
    requires off + len <= |source| && Significant(source[off..off + len]) == Significant(source'[off'..off' + len'])
    ensures Decode(o, source', off', len') == Success(data)
  {
    hide DecodeRun, Significant, Room;
    var (text, text', d) := (source[off..off + len], source'[off'..off' + len'], o.Dialect());
    DecodeIsRun(o, source', off', len');
    var (room, room') := (if len == 0 then 0 else Room(len), Room(len'));
    if len == 0 { EmptyRun(d, room, off); assert text == []; }
    SkipBlanks(o, room, text, off, 0);
    SkipBlanks(o, room', text', off', 0);
    var (sig, run') := (Significant(text), DecodeRun(d, room', text', off'));
    SkipFailure(o, room', text', off', 0);
    AnyRoom(d, room, room', sig, 0);
  }

  lemma {:induction false} EmptyRun(d: Dialect, room: int, off: int)
    ensures DecodeRun(d, room, [], off) == Decoding([], [])
  {
  }

  lemma {:induction false} SkipFailure(o: Options, room: int, text: seq<byte>, off: int, off': int)
    requires DecodeRun(o.Dialect(), room, text, off) != Failed(IllegalArgument)
    ensures DecodeRun(o.Dialect(), room, Significant(text), off') != Failed(IllegalArgument)
  {
    hide DecodeStep, DecodeRun, Significant, IsBlank;
    if text == [] {
      NothingSignificant();
      EmptyRun(o.Dialect(), room, off');
    } else {
      var (n, d) := (|text| - 1, o.Dialect());
      var (front, c) := (text[..n], text[n]);
      var st := DecodeRun(d, room, front, off);
      assert front + [c] == text;
      RunSnoc(d, room, front, c, off);
      FailedStays(d, room, st, c, off + n);
      SkipFailure(o, room, front, off, off');
      SignificantSnoc(front, c);
      if !IsBlank(c) {
        RunSnoc(d, room, Significant(front), c, off');
        SkipBlanks(o, room, front, off, off');
        var st' := DecodeRun(d, room, Significant(front), off');
        FailedStays(d, room, st', c, off' + |Significant(front)|);
        if !st'.Failed? { StepAnywhere(d, room, st', c, off' + |Significant(front)|, off + n); }
      }
    }
  }

  // ---------- illegal bytes ----------

  /** Some quartet of the text ends in padding; the decoder looks no further. */
  predicate Closed(sig: seq<byte>) { exists j | 0 <= j < |sig| :: j % 4 == 3 && sig[j] == 61 }

  /** An illegal byte that the decoder gets to. */
  predicate Stumbles(o: Options, text: seq<byte>, k: nat)
    requires k < |text|
  {
    IsIllegal(o, text[k]) && !Closed(Significant(text[..k]))
  }

  /** Where the decoder stands behind a text without an illegal byte that it gets to. */
  lemma {:induction false} RunsOn(o: Options, room: int, text: seq<byte>, off: int)
    requires forall k: nat | k < |text| :: !Stumbles(o, text, k)
    requires DecodeRun(o.Dialect(), room, text, off) != Failed(IllegalArgument)
    ensures var (st, sig) := (DecodeRun(o.Dialect(), room, text, off), Significant(text));
            && !st.Failed? && (st.Finished? <==> Closed(sig))
            && (st.Decoding? ==> |st.b4| == |sig| % 4)
  {
    hide DecodeStep, DecodeRun, Significant, Closed, IsIllegal, IsBlank;
    if text == [] {
      NotClosed();
      NothingSignificant();
      EmptyRun(o.Dialect(), room, off);
    } else {
      var (n, d) := (|text| - 1, o.Dialect());
      var (front, c) := (text[..n], text[n]);
      var st := DecodeRun(d, room, front, off);
      assert front + [c] == text;
      RunSnoc(d, room, front, c, off);
      SignificantSnoc(front, c);
      FailedStays(d, room, st, c, off + n);
      forall k: nat | k < n ensures !Stumbles(o, front, k) {
        assert front[..k] == text[..k];
        assert !Stumbles(o, text, k);
      }
      RunsOn(o, room, front, off);
      assert !Stumbles(o, text, n);
      if IsBlank(c) {
        BlankStep(o, room, st, c, off + n);
      } else {
        ClosedSnoc(Significant(front), c);
        StepOn(o, room, st, c, off + n);
      }
    }
  }

  lemma {:induction false} NotClosed()
    ensures !Closed([])
  {
  }

  lemma {:induction false} ClosedSnoc(sig: seq<byte>, c: byte)
    ensures Closed(sig + [c]) <==> Closed(sig) || (|sig| % 4 == 3 && c == 61)
  {
    var all := sig + [c];
    assert all[|sig|] == c;
    if j :| 0 <= j < |sig| && j % 4 == 3 && sig[j] == 61 { assert all[j] == 61; }
  }

  lemma {:induction false} StepOn(o: Options, room: int, st: Decoder, c: byte, position: int)
    requires st.Valid() && !IsBlank(c)
    ensures st.Finished? ==> DecodeStep(o.Dialect(), room, st, c, position) == st
    ensures st.Decoding? && IsIllegal(o, c) ==>
              DecodeStep(o.Dialect(), room, st, c, position) == Failed(BadCharacter(position))
    ensures st.Decoding? && !IsIllegal(o, c) ==>
              var r := DecodeStep(o.Dialect(), room, st, c, position);
              || r == Failed(IllegalArgument)
              || if |st.b4| < 3 then r == Decoding(st.out, st.b4 + [c])
                 else if c == 61 then r == Finished(st.out + Unblock(o.Dialect(), st.b4 + [c]))
                 else r == Decoding(st.out + Unblock(o.Dialect(), st.b4 + [c]), [])
  {
    hide Decodabet, Unblock, IsLetter;
    DecodabetIsWritten(o, c);
  }

  /** The first illegal byte that the decoder gets to is reported with its position. */
  lemma {:induction false} FirstIllegalThrows(o: Options, source: seq<byte>, off: nat, len: nat, k: nat)
    requires off + len <= |source| && 4 <= len && len * 3 < 0x8000_0000 && k < len
    requires var text := source[off..off + len];
             Stumbles(o, text, k) && forall j: nat | j < k :: !Stumbles(o, text, j)
    ensures Decode(o, source, off, len) == Error(BadCharacter(off + k))
  {
    hide DecodeStep, DecodeRun, Closed, IsIllegal, Significant, Room;
    var (text, d, room) := (source[off..off + len], o.Dialect(), Room(len));
    DecodeIsRun(o, source, off, len);
    var before := text[..k];
    forall j: nat | j < k ensures !Stumbles(o, before, j) {
      assert before[..j] == text[..j];
      assert !Stumbles(o, text, j);
    }
    EstimateSuffices(d, len, before, off);
    RunsOn(o, room, before, off);
    RunSnoc(d, room, before, text[k], off);
    assert before + [text[k]] == text[..k + 1];
    IllegalIsNoBlank(o, text[k]);
    StepOn(o, room, DecodeRun(d, room, before, off), text[k], off + k);
    Base64Codec.RunStops(d, room, text, off, k + 1);
  }

  lemma {:induction false} IllegalIsNoBlank(o: Options, c: byte)
    requires IsIllegal(o, c)
    ensures !IsBlank(c)
  {
    hide IsLetter;
  }

  /** Without such a byte the text decodes, whatever else is wrong with it. */
  lemma {:induction false} LegalTextDecodes(o: Options, source: seq<byte>, off: nat, len: nat)
    requires off + len <= |source| && (len == 0 || 4 <= len) && len * 3 < 0x8000_0000
    requires var text := source[off..off + len]; forall k: nat | k < len :: !Stumbles(o, text, k)
    ensures Decode(o, source, off, len).Success?
  {
    hide DecodeRun, Stumbles, Significant, Room;
    DecodeIsRun(o, source, off, len);
    RunsOn(o, Room(len), source[off..off + len], off);
  }

  // ---------- refusals ----------

  /** What is refused before a byte is looked at. */
  lemma {:induction false} DecodeRefuses(o: Options, source: seq<byte>, off: int, len: int)
    ensures off < 0 || off + len > |source| ==> Decode(o, source, off, len) == Error(IllegalArgument)
    ensures 0 <= off <= |source| && len == 0 ==> Decode(o, source, off, len) == Success([])
    ensures 0 <= off && off + len <= |source| && len < 4 && len != 0 ==>
              Decode(o, source, off, len) == Error(IllegalArgument)
    ensures 0 <= off && off + len <= |source| && 4 <= len < 0x8000_0000 && 0x8000_0000 <= len * 3 <= 0xFFFF_FFFC ==>
              Decode(o, source, off, len) == Error(NegativeArraySize)
  {
    hide DecodeRun;
    if 0x8000_0000 <= len * 3 <= 0xFFFF_FFFC {
      assert Wrap32(len * 3) == len * 3 - 0x1_0000_0000;
    }
  }
}
