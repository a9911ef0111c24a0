/** What whole runs of the pulling stream read out. */
module Base64InputRuns {
  import opened Base64Alphabet
  import opened Base64Quartet
  import opened Base64Spec
  import opened Base64Cons
  import opened Base64Input

  // ---------- encoding runs ----------

  /** The text still to be read of `data`, on a line holding `line` letters; newlines come before letters. */
  function PullText(o: Options, data: seq<byte>, line: nat): seq<byte> {
    if data == [] then []
    else
      var n := if |data| < 3 then |data| else 3;
      Due(o, line) + Block(o.Dialect(), data[..n])
      + PullText(o, data[n..], (if Due(o, line) == [] then line else 0) + 4)
  }

  /** The newline that is due on a full line. */
  function Due(o: Options, line: nat): seq<byte> {
    if o.breakLines && line >= MAX_LINE_LENGTH then [NEW_LINE] else []
  }

  /** Everything the encoding stream has still to deliver. */
  function Remaining(o: Options, st: Pull): seq<byte> {
    if st.position < 0 || st.position > 4 || |st.buffer| != 4 then PullText(o, st.input, st.lineLength)
    else
      var due := Due(o, st.lineLength);
      due + st.buffer[st.position..]
      + PullText(o, st.input, (if due == [] then st.lineLength else 0) + 4 - st.position)
  }

  /** A state the encoding stream can be in; lines fill up at quartet boundaries. */
  ghost predicate EncodingState(o: Options, st: Pull) {
    && -1 <= st.position < 4 && |st.buffer| == 4
    && (st.position >= 0 ==> st.numSigBytes == 4)
    && (o.breakLines ==> st.lineLength <= 76 && (st.lineLength - (if st.position < 0 then 0 else st.position)) % 4 == 0)
    && (o.breakLines ==> st.lineLength >= (if st.position < 0 then 0 else st.position))
    && (o.breakLines && st.position > 0 ==> st.lineLength < 76)
  }

  /** One read delivers the first remaining byte, or says that there is none. */
  lemma {:induction false} ReadEncoding(o: Options, st: Pull)
    requires EncodingState(o, st)
    ensures var ((next, r), rem) := (PullRead(true, o, st), Remaining(o, st));
            && EncodingState(o, next)
            && if rem == [] then r == EndOfStream && Remaining(o, next) == []
               else r == Got(rem[0]) && Remaining(o, next) == rem[1..]
  {
    hide Block, PullText;
    if st.position < 0 && st.input == [] {
      assert PullText(o, [], st.lineLength) == [] by { NothingToPull(o, st.lineLength); }
    } else if st.position < 0 {
      FillKeepsRemaining(o, st);
      ReadFilled(o, Fill(true, o, st).st);
    } else {
      ReadFilled(o, st);
    }
  }

  lemma {:induction false} NothingToPull(o: Options, line: nat)
    ensures PullText(o, [], line) == []
  {
  }

  lemma {:induction false} FillKeepsRemaining(o: Options, st: Pull)
    requires EncodingState(o, st) && st.position < 0 && st.input != []
    ensures var f := Fill(true, o, st);
            f.Ready? && f.st.position == 0 && EncodingState(o, f.st) && Remaining(o, f.st) == Remaining(o, st)
  {
    hide Block;
    var n := if |st.input| < 3 then |st.input| else 3;
    var q := Block(o.Dialect(), st.input[..n]);
    assert q[0..] == q;
  }

  lemma {:induction false} ReadFilled(o: Options, st: Pull)
    requires EncodingState(o, st) && st.position >= 0
    ensures var ((next, r), rem) := (PullRead(true, o, st), Remaining(o, st));
            rem != [] && EncodingState(o, next) && r == Got(rem[0]) && Remaining(o, next) == rem[1..]
  {
    hide PullText, Fill, PullRead;
    PullReadFilled(o, st);
    if Due(o, st.lineLength) == [] {
      ReadLetter(o, st);
    } else {
      var tail := st.buffer[st.position..];
      assert Remaining(o, st) == [NEW_LINE] + (tail + PullText(o, st.input, 4 - st.position));
      assert [] + tail == tail;
    }
  }

  lemma {:induction false} PullReadFilled(o: Options, st: Pull)
    requires 0 <= st.position < |st.buffer| && st.position < st.numSigBytes
    ensures var next := st.position + 1;
            PullRead(true, o, st) ==
            if Due(o, st.lineLength) != [] then (st.(lineLength := 0), Got(NEW_LINE))
            else (st.(lineLength := st.lineLength + 1, position := if next >= |st.buffer| then -1 else next),
                  Got(st.buffer[st.position]))
  {
    hide Fill;
    FillNothing(true, o, st);
  }

  lemma {:induction false} ReadLetter(o: Options, st: Pull)
    requires EncodingState(o, st) && st.position >= 0 && Due(o, st.lineLength) == []
    ensures var n := st.position + 1;
            var next := st.(lineLength := st.lineLength + 1, position := if n >= 4 then -1 else n);
            && EncodingState(o, next)
            && Remaining(o, st) == [st.buffer[st.position]] + Remaining(o, next)
  {
    hide PullText;
    var n := st.position + 1;
    var text := PullText(o, st.input, st.lineLength + 4 - st.position);
    assert st.buffer[st.position..] == [st.buffer[st.position]] + st.buffer[n..];
    assert Remaining(o, st) == [st.buffer[st.position]] + (st.buffer[n..] + text);
    if n == 4 {
      assert st.buffer[4..] + text == text;
    } else {
      assert Due(o, st.lineLength + 1) == [];
      assert [] + st.buffer[n..] == st.buffer[n..];
    }
  }

  /** The newline the batch encoder writes at the very end and the pulling encoder does not. */
  function Trailing(o: Options, data: seq<byte>, line: nat): seq<byte> {
    if o.breakLines && data != [] && |data| % 3 == 0 && (line + |data| / 3 * 4) % 76 == 0 then [NEW_LINE] else []
  }

  /** The pulled text and the batch text differ by at most that newline. */
  lemma {:induction false} PullTextIsEncoding(o: Options, data: seq<byte>, line: nat)
    requires o.breakLines ==> line < 76 && line % 4 == 0
    ensures PullText(o, data, line) + Trailing(o, data, line) == EncodeFrom(o, data, line)
    decreases |data|
  {
    hide EncodeFrom, Block, PullText, Trailing, EmitQuartet;
    if |data| < 3 {
      ShortPull(o, data, line);
    } else {
      EncodeFromCons(o, data, line);
      PullStep(o, data, line);
      PullTextIsEncoding(o, data[3..], EmitQuartet(o, Emitted([], line), data[..3]).line);
    }
  }

  lemma {:induction false} ShortPull(o: Options, data: seq<byte>, line: nat)
    requires |data| < 3 && (o.breakLines ==> line < 76)
    ensures PullText(o, data, line) + Trailing(o, data, line) == EncodeFrom(o, data, line)
  {
    hide EncodeFrom, Block;
    EncodeFromShort(o, data, line);
    if data != [] {
      NothingToPull(o, line + 4);
      assert data[..|data|] == data && data[|data|..] == [];
    }
  }

  /** One group of pulled text: its newline, if it fills the line, is delivered only before more text. */
  lemma {:induction false} PullStep(o: Options, data: seq<byte>, line: nat)
    requires |data| >= 3 && (o.breakLines ==> line < 76 && line % 4 == 0)
    ensures var e := EmitQuartet(o, Emitted([], line), data[..3]);
            && (o.breakLines ==> e.line < 76 && e.line % 4 == 0)
            && PullText(o, data, line) + Trailing(o, data, line)
               == e.text + (PullText(o, data[3..], e.line) + Trailing(o, data[3..], e.line))
  {
    hide PullText, Trailing, Block, EmitQuartet;
    FirstQuartet(o, data[..3], line);
    if o.breakLines && line + 4 == 76 {
      FullStep(o, data, line);
    } else {
      PlainStep(o, data, line);
    }
  }

  lemma {:induction false} PlainStep(o: Options, data: seq<byte>, line: nat)
    requires |data| >= 3 && (o.breakLines ==> line + 4 < 76 && line % 4 == 0)
    ensures PullText(o, data, line) + Trailing(o, data, line)
            == Block(o.Dialect(), data[..3]) + (PullText(o, data[3..], line + 4) + Trailing(o, data[3..], line + 4))
  {
    hide PullText, Trailing, Block;
    PullGroup(o, data, line);
    TrailingStep(o, data, line);
    NoTrailing(o, line + 4);
  }

  lemma {:induction false} FirstQuartet(o: Options, s: seq<byte>, line: nat)
    requires |s| == 3
    ensures var q := Block(o.Dialect(), s);
            EmitQuartet(o, Emitted([], line), s) ==
            if o.breakLines && line + 4 >= MAX_LINE_LENGTH then Emitted(q + [NEW_LINE], 0) else Emitted(q, line + 4)
  {
    hide Block;
    assert [] + Block(o.Dialect(), s) == Block(o.Dialect(), s);
  }

  lemma {:induction false} FullStep(o: Options, data: seq<byte>, line: nat)
    requires |data| >= 3 && o.breakLines && line + 4 == 76
    ensures PullText(o, data, line) + Trailing(o, data, line)
            == Block(o.Dialect(), data[..3]) + [NEW_LINE] + (PullText(o, data[3..], 0) + Trailing(o, data[3..], 0))
  {
    hide PullText, Trailing, Block;
    PullGroup(o, data, line);
    TrailingStep(o, data, line);
    var (q, rest) := (Block(o.Dialect(), data[..3]), data[3..]);
    FullLine(o, rest);
    NothingToPull(o, 0);
    NoTrailing(o, 0);
    FullLineText(q, PullText(o, rest, 0), Trailing(o, rest, 0));
  }

  lemma {:induction false} FullLineText(q: seq<byte>, t: seq<byte>, x: seq<byte>)
    ensures q + t + x == q + (t + x)
    ensures q + ([NEW_LINE] + t) + x == q + [NEW_LINE] + (t + x)
    ensures q + [] + [NEW_LINE] == q + [NEW_LINE] + ([] + [])
    ensures q + [] + [] == q + ([] + [])
  {
  }

  lemma {:induction false} PullGroup(o: Options, data: seq<byte>, line: nat)
    requires |data| >= 3 && (o.breakLines ==> line < 76)
    ensures PullText(o, data, line) == Block(o.Dialect(), data[..3]) + PullText(o, data[3..], line + 4)
  {
    hide Block;
    assert [] + Block(o.Dialect(), data[..3]) == Block(o.Dialect(), data[..3]);
  }

  lemma {:induction false} NoTrailing(o: Options, line: nat)
    ensures Trailing(o, [], line) == []
  {
  }

  lemma {:induction false} TrailingStep(o: Options, data: seq<byte>, line: nat)
    requires |data| >= 3 && (o.breakLines ==> line < 76 && line % 4 == 0)
    ensures var (rest, full) := (data[3..], o.breakLines && line + 4 == 76);
            Trailing(o, data, line) ==
            if rest == [] then (if full then [NEW_LINE] else []) else Trailing(o, rest, if full then 0 else line + 4)
  {
    hide NEW_LINE;
    var g := |data| / 3;
    OneGroupLess(|data|);
    if o.breakLines && line + 4 == 76 { FullTurn(4 * (g - 1)); }
    if |data| == 3 { LineFull(line); }
  }

  lemma {:induction false} OneGroupLess(n: nat)
    requires n >= 3
    ensures (n - 3) / 3 == n / 3 - 1 && (n - 3) % 3 == n % 3
  {
  }

  lemma {:induction false} FullTurn(x: nat)
    ensures (72 + (x + 4)) % 76 == x % 76
  {
  }

  lemma {:induction false} LineFull(line: nat)
    ensures line < 76 && line % 4 == 0 ==> ((line + 4) % 76 == 0 <==> line + 4 == 76)
  {
  }

  /** On a full line the pulling encoder owes a newline, unless nothing follows. */
  lemma {:induction false} FullLine(o: Options, data: seq<byte>)
    requires o.breakLines
    ensures PullText(o, data, 76) == if data == [] then [] else [NEW_LINE] + PullText(o, data, 0)
  {
    hide Block;
    if data != [] {
      var n := if |data| < 3 then |data| else 3;
      var (q, rest) := (Block(o.Dialect(), data[..n]), PullText(o, data[n..], 4));
      assert [NEW_LINE] + q + rest == [NEW_LINE] + ([] + q + rest);
    }
  }

  /** What `n` reads deliver, from a state that has `rem` left. */
  lemma {:induction false} RunEncoding(o: Options, st: Pull, n: nat)
    requires EncodingState(o, st) && n <= |Remaining(o, st)|
    ensures var (next, got) := PullRun(true, o, st, n);
            got == Remaining(o, st)[..n] && EncodingState(o, next) && Remaining(o, next) == Remaining(o, st)[n..]
  {
    hide EncodingState, Remaining, PullRead;
    if n > 0 {
      RunEncoding(o, st, n - 1);
      ReadEncoding(o, PullRun(true, o, st, n - 1).0);
      assert Remaining(o, st)[n - 1..][1..] == Remaining(o, st)[n..];
    }
  }

  /**
   * The pulling encoder refines the batch encoder: it delivers the batch text and then the end of the
   * stream, except that with line breaks the batch text has one more newline at its end exactly when
   * the input is a positive multiple of 57 bytes long.
   */
  lemma {:induction false} PullIsBatch(o: Options, data: seq<byte>, buffer: seq<byte>)
    requires |buffer| == 4
    ensures var (text, extra) := (Encode(o, data), if o.breakLines && data != [] && |data| % 57 == 0 then 1 else 0);
            var n := |text| - extra;
            && n >= 0 && (extra == 1 ==> text[n] == NEW_LINE)
            && var (end, got) := PullRun(true, o, Pull(data, -1, buffer, 0, 0), n);
               got == text[..n] && PullRead(true, o, end).1 == EndOfStream
  {
    hide EncodingState, Remaining, PullRead, PullRun, PullText, Encode, EncodeFrom, Trailing;
    var st := Pull(data, -1, buffer, 0, 0);
    StartEncoding(o, st);
    PullTextIsEncoding(o, data, 0);
    RunEncoding(o, st, |PullText(o, data, 0)|);
    ReadEncoding(o, PullRun(true, o, st, |PullText(o, data, 0)|).0);
    assert Encode(o, data) == EncodeFrom(o, data, 0) by { EncodeIsFromStart(o, data); }
    TrailingAt57(o, data);
  }

  lemma {:induction false} TrailingAt57(o: Options, data: seq<byte>)
    ensures Trailing(o, data, 0) == if o.breakLines && data != [] && |data| % 57 == 0 then [NEW_LINE] else []
  {
    var (n, g) := (|data|, |data| / 3);
    GroupsInLines(g);
    MultipleOf57(n);
    if n % 3 == 0 { assert n == 3 * g; }
  }

  /** Full lines, counted in letters and in bytes. */
  lemma {:induction false} GroupsInLines(g: nat)
    ensures (g * 4) % 76 == 0 <==> (3 * g) % 57 == 0
  {
    var (q, r) := (g / 19, g % 19);
    assert g * 4 == 76 * q + 4 * r && 3 * g == 57 * q + 3 * r;
    Remainder(q, 4 * r, 76);
    Remainder(q, 3 * r, 57);
  }

  lemma {:induction false} Remainder(q: nat, r: nat, m: nat)
    requires m == 76 || m == 57
    requires r < m
    ensures (m * q + r) % m == r
  {
  }

  lemma {:induction false} MultipleOf57(n: nat)
    ensures n % 57 == 0 ==> n % 3 == 0
  {
    var q := n / 57;
    assert n == 3 * (19 * q) + n % 57;
    MultipleOf3(19 * q);
  }

  lemma {:induction false} MultipleOf3(k: nat)
    ensures (3 * k) % 3 == 0
  {
  }

  lemma {:induction false} EncodeIsFromStart(o: Options, data: seq<byte>)
    ensures Encode(o, data) == EncodeFrom(o, data, 0)
  {
    hide EncodeFrom;
  }

  lemma {:induction false} StartEncoding(o: Options, st: Pull)
    requires st.position == -1 && |st.buffer| == 4 && st.lineLength == 0
    ensures EncodingState(o, st) && Remaining(o, st) == PullText(o, st.input, 0)
  {
    hide PullText;
  }

  /** Once the end is reached every further read says so too. */
  lemma {:induction false} EndIsFinal(o: Options, st: Pull, n: nat)
    requires EncodingState(o, st) && Remaining(o, st) == []
    ensures var (next, got) := PullRun(true, o, st, n);
            got == [] && EncodingState(o, next) && Remaining(o, next) == [] && PullRead(true, o, next).1 == EndOfStream
  {
    hide EncodingState, Remaining, PullRead;
    if n > 0 {
      EndIsFinal(o, st, n - 1);
      ReadEncoding(o, PullRun(true, o, st, n - 1).0);
    }
    ReadEncoding(o, PullRun(true, o, st, n).0);
  }

  // ---------- decoding runs ----------

  /** The input from a group boundary on: at most one newline, then the encoding of `data`. */
  ghost predicate FromBoundary(o: Options, input: seq<byte>, data: seq<byte>) {
    exists line: nat | true :: input == EncodeFrom(o, data, line) || input == [NEW_LINE] + EncodeFrom(o, data, line)
  }

  /** The buffered bytes, followed by `rest` from the input. */
  ghost predicate Buffered(o: Options, st: Pull, rem: seq<byte>, rest: seq<byte>) {
    && 0 <= st.position <= st.numSigBytes <= 3 && |st.buffer| == 3
    && (st.position == st.numSigBytes ==> st.numSigBytes < 3)
    && (st.numSigBytes < 3 ==> rest == [])
    && rem == st.buffer[st.position..st.numSigBytes] + rest
    && FromBoundary(o, st.input, rest)
  }

  /** A state of the decoding stream over an encoding, with `rem` still to be delivered. */
  ghost predicate DecodingState(o: Options, st: Pull, rem: seq<byte>) {
    if st.position < 0 then st.position == -1 && |st.buffer| == 3 && FromBoundary(o, st.input, rem)
    else exists rest :: Buffered(o, st, rem, rest)
  }

  lemma {:induction false} MeaningfulLetters(d: Dialect, s: seq<byte>)
    requires 1 <= |s| <= 3
    ensures var q := Block(d, s); forall k | 0 <= k < 4 :: Meaningful(d, q[k])
    ensures !Meaningful(d, NEW_LINE)
  {
    hide Block, Decodabet;
    var q := Block(d, s);
    BlockLetters(d, s);
    assert NEW_LINE & 0x7F == NEW_LINE;
    forall k | 0 <= k < 4 ensures Meaningful(d, q[k]) {
      assert q[k] < 0x80;
      AsciiMask(q[k]);
    }
  }

  lemma {:induction false} AsciiMask(c: byte)
    requires c < 0x80
    ensures c & 0x7F == c
  {
  }

  lemma {:induction false} CollectKeeps(d: Dialect, c: byte, rest: seq<byte>, got: seq<byte>)
    requires Meaningful(d, c) && |got| < 4
    ensures Collect(d, [c] + rest, got) == Collect(d, rest, got + [c])
  {
    hide Meaningful;
    assert ([c] + rest)[1..] == rest;
  }

  lemma {:induction false} CollectQuartet(d: Dialect, q: seq<byte>, rest: seq<byte>)
    requires |q| == 4 && forall k | 0 <= k < 4 :: Meaningful(d, q[k])
    ensures Collect(d, q + rest, []) == (q, rest)
  {
    hide Meaningful, Collect;
    CollectKeeps(d, q[0], q[1..] + rest, []);
    CollectKeeps(d, q[1], q[2..] + rest, [q[0]]);
    CollectKeeps(d, q[2], q[3..] + rest, [q[0], q[1]]);
    CollectKeeps(d, q[3], rest, [q[0], q[1], q[2]]);
    CollectFull(d, q, rest);
    assert q + rest == [q[0]] + (q[1..] + rest) && q[1..] + rest == [q[1]] + (q[2..] + rest);
    assert q[2..] + rest == [q[2]] + (q[3..] + rest) && q[3..] + rest == [q[3]] + rest;
    assert [] + [q[0]] == [q[0]] && [q[0]] + [q[1]] == [q[0], q[1]] && [q[0], q[1]] + [q[2]] == [q[0], q[1], q[2]];
    assert [q[0], q[1], q[2]] + [q[3]] == q;
  }

  lemma {:induction false} CollectFull(d: Dialect, q: seq<byte>, rest: seq<byte>)
    requires |q| == 4
    ensures Collect(d, rest, q) == (q, rest)
  {
  }

  lemma {:induction false} CollectSkips(d: Dialect, c: byte, rest: seq<byte>)
    requires !Meaningful(d, c)
    ensures Collect(d, [c] + rest, []) == Collect(d, rest, [])
  {
    hide Meaningful;
    assert ([c] + rest)[1..] == rest;
  }

  /** From a boundary, the stream collects the next group's quartet or finds the end. */
  lemma {:induction false} CollectFromBoundary(o: Options, input: seq<byte>, data: seq<byte>)
    requires FromBoundary(o, input, data)
    ensures data == [] ==> Collect(o.Dialect(), input, []) == ([], [])
    ensures data != [] ==>
              var n := if |data| < 3 then |data| else 3;
              var (q, rest) := Collect(o.Dialect(), input, []);
              q == Block(o.Dialect(), data[..n]) && FromBoundary(o, rest, data[n..])
  {
    hide Block, EncodeFrom, Collect, Meaningful;
    var d := o.Dialect();
    var line: nat :| input == EncodeFrom(o, data, line) || input == [NEW_LINE] + EncodeFrom(o, data, line);
    var text := EncodeFrom(o, data, line);
    MeaningfulLetters(d, [0]);
    if input != text { CollectSkips(d, NEW_LINE, text); }
    if data == [] {
      EncodeFromShort(o, [], line);
      CollectNothing(d);
    } else if |data| < 3 {
      EncodeFromShort(o, data, line);
      var q := Block(d, data);
      assert data[..|data|] == data && data[|data|..] == [] && q + [] == q;
      MeaningfulLetters(d, data);
      CollectQuartet(d, q, []);
      EncodeFromShort(o, [], 0);
      assert [] == EncodeFrom(o, [], 0);
    } else {
      EncodeFromCons(o, data, line);
      var q := Block(d, data[..3]);
      MeaningfulLetters(d, data[..3]);
      var e := EmitQuartet(o, Emitted([], line), data[..3]);
      var rest := (if e.line == 0 then [NEW_LINE] else []) + EncodeFrom(o, data[3..], e.line);
      assert text == q + rest;
      CollectQuartet(d, q, rest);
    }
  }

  lemma {:induction false} CollectNothing(d: Dialect)
    ensures Collect(d, [], []) == ([], [])
  {
  }

  /** One read delivers the next byte of the data, or says that there is none. */
  lemma {:induction false} ReadDecoding(o: Options, st: Pull, rem: seq<byte>)
    requires DecodingState(o, st, rem)
    ensures var (next, r) := PullRead(false, o, st);
            if rem == [] then r == EndOfStream && DecodingState(o, next, [])
            else r == Got(rem[0]) && DecodingState(o, next, rem[1..])
  {
    hide Block, Unblock, Collect, FromBoundary, PullRead;
    if st.position < 0 {
      if rem == [] {
        ReadEnd(o, st);
      } else {
        FillDecodes(o, st, rem);
        ReadBuffered(o, Fill(false, o, st).st, rem);
        RefilledRead(o, st);
      }
    } else {
      ReadBuffered(o, st, rem);
    }
  }

  lemma {:induction false} ReadEnd(o: Options, st: Pull)
    requires DecodingState(o, st, []) && st.position < 0
    ensures PullRead(false, o, st) == (st.(input := []), EndOfStream) && DecodingState(o, st.(input := []), [])
  {
    hide Collect, FromBoundary;
    CollectFromBoundary(o, st.input, []);
    EndBoundary(o);
  }

  /** Reading is filling and then reading what was filled in. */
  lemma {:induction false} RefilledRead(o: Options, st: Pull)
    requires Fill(false, o, st).Ready? && Fill(false, o, st).st.position >= 0
    ensures PullRead(false, o, st) == PullRead(false, o, Fill(false, o, st).st)
  {
    hide Fill;
    FillNothing(false, o, Fill(false, o, st).st);
  }

  lemma {:induction false} EndBoundary(o: Options)
    ensures FromBoundary(o, [], [])
  {
    hide EncodeFrom;
    EncodeFromShort(o, [], 0);
    assert [] == EncodeFrom(o, [], 0);
  }

  lemma {:induction false} FillDecodes(o: Options, st: Pull, rem: seq<byte>)
    requires DecodingState(o, st, rem) && st.position < 0 && rem != []
    ensures var f := Fill(false, o, st);
            f.Ready? && f.st.position == 0 && f.st.numSigBytes > 0 && DecodingState(o, f.st, rem)
  {
    hide Block, Unblock, Collect, FromBoundary;
    var d, n := o.Dialect(), if |rem| < 3 then |rem| else 3;
    var s := rem[..n];
    CollectFromBoundary(o, st.input, rem);
    var (q, rest) := Collect(d, st.input, []);
    BlockLetters(d, s);
    UnblockBlock(d, s);
    var f := Fill(false, o, st);
    assert f.st.buffer[0..n] == s;
    assert rem == s + rem[n..];
    assert Buffered(o, f.st, rem, rem[n..]);
  }

  lemma {:induction false} PullReadBuffered(o: Options, st: Pull)
    requires 0 <= st.position < |st.buffer|
    ensures var next := st.position + 1;
            PullRead(false, o, st) ==
            if st.position >= st.numSigBytes then (st, EndOfStream)
            else (st.(lineLength := st.lineLength + 1, position := if next >= |st.buffer| then -1 else next),
                  Got(st.buffer[st.position]))
  {
    hide Fill;
    FillNothing(false, o, st);
  }

  lemma {:induction false} ReadBuffered(o: Options, st: Pull, rem: seq<byte>)
    requires DecodingState(o, st, rem) && st.position >= 0
    ensures var (next, r) := PullRead(false, o, st);
            if rem == [] then r == EndOfStream && DecodingState(o, next, [])
            else r == Got(rem[0]) && DecodingState(o, next, rem[1..])
  {
    hide FromBoundary, PullRead;
    var rest :| Buffered(o, st, rem, rest);
    PullReadBuffered(o, st);
    if st.position < st.numSigBytes {
      DropBuffered(o, st, rem, rest);
    } else {
      assert rem == [] + rest == [];
    }
  }

  lemma {:induction false} DropBuffered(o: Options, st: Pull, rem: seq<byte>, rest: seq<byte>)
    requires Buffered(o, st, rem, rest) && st.position < st.numSigBytes
    ensures rem != [] && rem[0] == st.buffer[st.position]
    ensures var next := st.position + 1;
            DecodingState(o, st.(lineLength := st.lineLength + 1, position := if next >= 3 then -1 else next), rem[1..])
  {
    hide FromBoundary;
    var (p, n) := (st.position, st.numSigBytes);
    DropFirst(st.buffer, p, n, rem, rest);
    var next := st.(lineLength := st.lineLength + 1, position := if p + 1 >= 3 then -1 else p + 1);
    if p < 2 {
      assert Buffered(o, next, rem[1..], rest);
    }
  }

  lemma {:induction false} DropFirst(buffer: seq<byte>, p: nat, n: nat, rem: seq<byte>, rest: seq<byte>)
    requires p < n <= |buffer| && rem == buffer[p..n] + rest
    ensures rem[0] == buffer[p] && rem[1..] == buffer[p + 1..n] + rest
    ensures p + 1 == n ==> rem[1..] == rest
  {
    assert buffer[p..n] == [buffer[p]] + buffer[p + 1..n];
    assert rem == [buffer[p]] + (buffer[p + 1..n] + rest);
  }

  lemma {:induction false} RunDecoding(o: Options, st: Pull, rem: seq<byte>, n: nat)
    requires DecodingState(o, st, rem) && n <= |rem|
    ensures var (next, got) := PullRun(false, o, st, n);
            got == rem[..n] && DecodingState(o, next, rem[n..])
  {
    hide DecodingState, PullRead;
    if n > 0 {
      RunDecoding(o, st, rem, n - 1);
      ReadDecoding(o, PullRun(false, o, st, n - 1).0, rem[n - 1..]);
      assert rem[n - 1..][1..] == rem[n..];
    } else {
      assert rem[0..] == rem;
    }
  }

  lemma {:induction false} DecodedEndIsFinal(o: Options, st: Pull, n: nat)
    requires DecodingState(o, st, [])
    ensures var (next, got) := PullRun(false, o, st, n);
            got == [] && DecodingState(o, next, []) && PullRead(false, o, next).1 == EndOfStream
  {
    hide DecodingState, PullRead;
    if n > 0 {
      DecodedEndIsFinal(o, st, n - 1);
      ReadDecoding(o, PullRun(false, o, st, n - 1).0, []);
    }
    ReadDecoding(o, PullRun(false, o, st, n).0, []);
  }

  /** Reading an encoding through a decoding stream gives the bytes back, then the end for ever. */
  lemma {:induction false} PullDecodes(o: Options, data: seq<byte>, buffer: seq<byte>, m: nat)
    requires |buffer| == 3
    ensures var (end, got) := PullRun(false, o, Pull(Encode(o, data), -1, buffer, 0, 0), |data|);
            got == data && PullRead(false, o, PullRun(false, o, end, m).0).1 == EndOfStream
  {
    hide DecodingState, PullRead, Encode, PullRun;
    assert data[..|data|] == data && data[|data|..] == [];
    var st := Pull(Encode(o, data), -1, buffer, 0, 0);
    StartDecoding(o, st, data);
    RunDecoding(o, st, data, |data|);
    DecodedEndIsFinal(o, PullRun(false, o, st, |data|).0, m);
  }

  lemma {:induction false} StartDecoding(o: Options, st: Pull, data: seq<byte>)
    requires st.position == -1 && |st.buffer| == 3 && st.input == Encode(o, data)
    ensures DecodingState(o, st, data)
  {
    hide EncodeFrom;
    assert st.input == EncodeFrom(o, data, 0);
  }
}
