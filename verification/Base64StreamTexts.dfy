/** What the decoding streams make of any bytes. */
module Base64StreamTexts {
  import opened Base64Alphabet
  import opened Base64Quartet
  import opened Base64Spec
  import opened Base64Output
  import opened Base64Input
  import opened Base64InputRuns
  import opened Base64Letters
  import opened Base64Texts
  import opened Base64Meaning

  // ---------- the pulling stream ----------

  /** The highest bit of a byte is not looked at. */
  predicate IsKept(o: Options, c: byte) { IsLetter(o, c & 0x7F) || c & 0x7F == 61 }

  /** The bytes of the input that are letters or padding. */
  function Kept(o: Options, input: seq<byte>): seq<byte> {
    if input == [] then [] else (if IsKept(o, input[0]) then [input[0]] else []) + Kept(o, input[1..])
  }

  lemma {:induction false} MeaningfulIsKept(o: Options, c: byte)
    ensures Meaningful(o.Dialect(), c) <==> IsKept(o, c)
  {
    hide Decodabet, IsLetter, IsBlank;
    DecodabetIsWritten(o, c & 0x7F);
    if IsLetter(o, c & 0x7F) { LetterIsSextet(o, c & 0x7F); }
    MarkersDecode(o.Dialect());
  }

  /** Collecting takes the next letters and padding, up to four in all. */
  lemma {:induction false} CollectTakes(o: Options, input: seq<byte>, got: seq<byte>)
    requires |got| <= 4
    ensures var ((q, rest), kept) := (Collect(o.Dialect(), input, got), Kept(o, input));
            var n := if |kept| < 4 - |got| then |kept| else 4 - |got|;
            q == got + kept[..n] && Kept(o, rest) == kept[n..]
  {
    hide Meaningful, IsKept;
    if input == [] || |got| == 4 {
      assert got + [] == got;
    } else {
      var (c, later) := (input[0], Kept(o, input[1..]));
      MeaningfulIsKept(o, c);
      if IsKept(o, c) {
        CollectTakes(o, input[1..], got + [c]);
        OneMoreTaken(got, c, later);
      } else {
        CollectTakes(o, input[1..], got);
        assert [] + later == later;
      }
    }
  }

  lemma {:induction false} OneMoreTaken(got: seq<byte>, c: byte, later: seq<byte>)
    requires |got| < 4
    ensures var n := if |later| < 3 - |got| then |later| else 3 - |got|;
            var m := if |later| + 1 < 4 - |got| then |later| + 1 else 4 - |got|;
            m == n + 1 && got + [c] + later[..n] == got + ([c] + later)[..m] && later[n..] == ([c] + later)[m..]
  {
  }

  /** States that differ only in bytes the stream skips. */
  predicate Alike(o: Options, st: Pull, st': Pull) {
    st' == st.(input := st'.input) && Kept(o, st.input) == Kept(o, st'.input)
  }

  lemma {:induction false} ReadAlike(o: Options, st: Pull, st': Pull)
    requires Alike(o, st, st')
    ensures var ((next, r), (next', r')) := (PullRead(false, o, st), PullRead(false, o, st'));
            r == r' && Alike(o, next, next')
  {
    hide Collect, Kept, Unblock;
    CollectTakes(o, st.input, []);
    CollectTakes(o, st'.input, []);
  }

  /** Bytes that are neither letters nor padding make no difference to what is read, wherever they stand. */
  lemma {:induction false} JunkIsSkipped(o: Options, st: Pull, st': Pull, n: nat)
    requires Alike(o, st, st')
    ensures var ((end, got), (end', got')) := (PullRun(false, o, st, n), PullRun(false, o, st', n));
            got == got' && Alike(o, end, end') && PullRead(false, o, end).1 == PullRead(false, o, end').1
  {
    hide PullRead, Alike;
    if n > 0 {
      JunkIsSkipped(o, st, st', n - 1);
      ReadAlike(o, PullRun(false, o, st, n - 1).0, PullRun(false, o, st', n - 1).0);
    }
    ReadAlike(o, PullRun(false, o, st, n).0, PullRun(false, o, st', n).0);
  }

  /** An encoding is read back whatever bytes that are neither letters nor padding stand in it. */
  lemma {:induction false} JunkyEncodingReadsBack(o: Options, data: seq<byte>, input: seq<byte>, buffer: seq<byte>)
    requires |buffer| == 3 && Kept(o, input) == Kept(o, Encode(o, data))
    ensures var (end, got) := PullRun(false, o, Pull(input, -1, buffer, 0, 0), |data|);
            got == data && PullRead(false, o, end).1 == EndOfStream
  {
    hide PullRead, Encode, Kept, PullRun;
    var (st, st') := (Pull(Encode(o, data), -1, buffer, 0, 0), Pull(input, -1, buffer, 0, 0));
    PullDecodes(o, data, buffer, 0);
    JunkIsSkipped(o, st, st', |data|);
    NoMoreRead(o, PullRun(false, o, st, |data|).0);
  }

  lemma {:induction false} NoMoreRead(o: Options, st: Pull)
    ensures PullRun(false, o, st, 0) == (st, [])
  {
  }

  /** What a read that has to refill comes to, by the letters and the padding that are left. */
  lemma {:induction false} RefillOutcome(o: Options, st: Pull)
    requires st.position < 0 && |st.buffer| == 3
    ensures var (kept, r) := (Kept(o, st.input), PullRead(false, o, st).1);
            if kept == [] then r == EndOfStream
            else if |kept| < 4 then r == Faulted(ImproperPadding)
            else
              var q := kept[..4];
              if exists k | 0 <= k < Looked(q) :: q[k] >= 0x80 then r == Faulted(IndexFault)
              else r == Got(Unblock(o.Dialect(), q)[0])
  {
    hide Collect, Kept, Unblock;
    CollectTakes(o, st.input, []);
    var kept := Kept(o, st.input);
    if |kept| >= 4 {
      var q := kept[..4];
      assert [] + q == q;
      assert Ascii(q[..Looked(q)]) <==> forall k | 0 <= k < Looked(q) :: q[k] < 0x80;
    }
  }

  // ---------- the pushing stream ----------

  /** What writing one byte to a decoding stream comes to that is not suspended and not jammed. */
  lemma {:induction false} WriteOutcome(o: Options, st: Push, c: byte)
    requires !st.suspended && st.position == |st.pending| < 4
    ensures var (low, r) := (c & 0x7F, PushDecode(o, st, c));
            && (IsBlank(low) ==> r == (st, Fine))
            && (IsIllegal(o, low) ==> r == (st, Threw(InvalidCharacter)))
            && (IsKept(o, c) && |st.pending| < 3 ==>
                  r == (st.(position := st.position + 1, pending := st.pending + [c]), Fine))
            && (IsKept(o, c) && |st.pending| == 3 ==>
                  var q := st.pending + [c];
                  if exists k | 0 <= k < Looked(q) :: q[k] >= 0x80 then
                    r == (st.(position := 4, pending := q), Threw(IndexFault))
                  else r == (st.(sink := st.sink + Unblock(o.Dialect(), q), position := 0, pending := []), Fine))
  {
    hide Decodabet, IsLetter, IsBlank, Unblock;
    var low := c & 0x7F;
    DecodabetIsWritten(o, low);
    MeaningfulIsKept(o, c);
    BlankIsNotKept(o, low);
    if |st.pending| == 3 {
      var q := st.pending + [c];
      assert Ascii(q[..Looked(q)]) <==> forall k | 0 <= k < Looked(q) :: q[k] < 0x80;
    }
  }

  /** A stream whose buffer was jammed by a quartet out of range takes no more letters. */
  lemma {:induction false} JammedOutcome(o: Options, st: Push, c: byte)
    requires !st.suspended && st.position >= 4 && IsKept(o, c)
    ensures PushDecode(o, st, c) == (st.(position := st.position + 1), Threw(IndexFault))
  {
    hide Decodabet, IsKept;
    MeaningfulIsKept(o, c);
  }

  lemma {:induction false} BlankIsNotKept(o: Options, c: byte)
    ensures IsBlank(c) ==> Decodabet(o.Dialect(), c) == Blank
    ensures IsIllegal(o, c) ==> Decodabet(o.Dialect(), c) == Illegal
  {
    hide Decodabet, Letters;
    DecodabetIsWritten(o, c);
    if IsBlank(c) { BlankSymbol(o.Dialect(), c); }
  }

  /** A decoding stream cannot be flushed in the middle of a quartet. */
  lemma {:induction false} FlushOutcome(o: Options, st: Push)
    ensures PushFlush(false, o, st) == if st.position == 0 then (st, Fine) else (st, Threw(ImproperPadding))
    ensures PushSuspend(false, o, st)
            == if st.position == 0 then (st.(suspended := true), Fine) else (st, Threw(ImproperPadding))
  {
  }

  /** On letters and blanks the pushing stream does what the batch decoder does. */
  lemma {:induction false} PushIsRun(o: Options, room: int, text: seq<byte>, off: int)
    requires forall k | 0 <= k < |text| :: IsLetter(o, text[k]) || IsBlank(text[k])
    requires DecodeRun(o.Dialect(), room, text, off) != Failed(IllegalArgument)
    ensures var st := DecodeRun(o.Dialect(), room, text, off);
            && st.Decoding? && Ascii(st.b4)
            && PushAll(false, o, START, text) == (Push(st.out, |st.b4|, st.b4, 0, false), Fine)
  {
    hide DecodeStep, IsLetter, IsBlank, PushDecode, Ascii;
    if text == [] {
      NothingPending();
    } else {
      var (n, d) := (|text| - 1, o.Dialect());
      var (front, c) := (text[..n], text[n]);
      FailedStays(d, room, DecodeRun(d, room, front, off), c, off + n);
      PushIsRun(o, room, front, off);
      StepAlike(o, room, DecodeRun(d, room, front, off), c, off + n);
    }
  }

  lemma {:induction false} NothingPending()
    ensures Ascii([])
  {
  }

  lemma {:induction false} LetterIsAscii(o: Options, c: byte)
    requires IsLetter(o, c) || IsBlank(c)
    ensures c < 0x80 && c & 0x7F == c
  {
    hide Letters;
    if IsLetter(o, c) {
      LetterIsSextet(o, c);
      DecodabetThenAlphabet(o.Dialect(), c);
      AlphabetThenDecodabet(o.Dialect(), Decodabet(o.Dialect(), c).value);
    }
    AsciiMask(c);
  }

  lemma {:induction false} StepAlike(o: Options, room: int, st: Decoder, c: byte, position: int)
    requires IsLetter(o, c) || IsBlank(c)
    requires st.Decoding? && st.Valid() && Ascii(st.b4)
    requires DecodeStep(o.Dialect(), room, st, c, position) != Failed(IllegalArgument)
    ensures var r := DecodeStep(o.Dialect(), room, st, c, position);
            && r.Decoding? && Ascii(r.b4)
            && PushDecode(o, Push(st.out, |st.b4|, st.b4, 0, false), c) == (Push(r.out, |r.b4|, r.b4, 0, false), Fine)
  {
    hide DecodeStep, IsLetter, IsBlank, PushDecode, Unblock;
    LetterIsAscii(o, c);
    if IsBlank(c) {
      BlankStep(o, room, st, c, position);
    } else {
      LetterIsSextet(o, c);
      StepOn(o, room, st, c, position);
    }
    WriteOutcome(o, Push(st.out, |st.b4|, st.b4, 0, false), c);
  }
}
