/** What whole runs of the pushing stream put into the sink. */
module Base64OutputRuns {
  import opened Base64Alphabet
  import opened Base64Quartet
  import opened Base64Spec
  import opened Base64Length
  import opened Base64Cons
  import opened Base64Output

  // ---------- encoding runs ----------

  datatype Op = Write(b: byte) | Flush | Suspend | Resume

  function Apply(o: Options, st: Push, op: Op): Push {
    match op
    case Write(b) => PushWrite(true, o, st, b).0
    case Flush => PushFlush(true, o, st).0
    case Suspend => PushSuspend(true, o, st).0
    case Resume => PushResume(st)
  }

  /** The stream after a run, from a new stream. */
  function Run(o: Options, ops: seq<Op>): Push {
    if ops == [] then START else Apply(o, Run(o, ops[..|ops| - 1]), ops[|ops| - 1])
  }

  /** The run as its user sees it: stretches between flushes, each to be encoded or passed through. */
  datatype Segment = Coded(bytes: seq<byte>) | Raw(bytes: seq<byte>)

  datatype History = History(closed: seq<Segment>, open: seq<byte>, suspended: bool)

  function Close(h: History): History {
    if h.open == [] then h else h.(closed := h.closed + [Coded(h.open)], open := [])
  }

  function HistoryOf(ops: seq<Op>): History {
    if ops == [] then History([], [], false)
    else
      var h := HistoryOf(ops[..|ops| - 1]);
      match ops[|ops| - 1]
      case Write(b) => if h.suspended then h.(closed := h.closed + [Raw([b])]) else h.(open := h.open + [b])
      case Flush => Close(h)
      case Suspend => Close(h).(suspended := true)
      case Resume => h.(suspended := false)
  }

  /** The text of closed segments. A flush does not end the line, so the line length carries over. */
  function TextOf(o: Options, segments: seq<Segment>): Emitted {
    if segments == [] then Emitted([], 0)
    else
      var before := TextOf(o, segments[..|segments| - 1]);
      match segments[|segments| - 1]
      case Raw(bytes) => Emitted(before.text + bytes, before.line)
      case Coded(bytes) =>
        Emitted(before.text + EncodeFrom(o, bytes, before.line), Emit(o, Whole(bytes), before.line).line)
  }

  /** What the stream holds after a history: closed segments, then the open one's whole groups. */
  ghost predicate Explains(o: Options, h: History, st: Push) {
    var before := TextOf(o, h.closed);
    var e := Emit(o, Whole(h.open), before.line);
    && st == Push(before.text + e.text, |h.open| % 3, Rest(h.open), e.line, h.suspended)
    && (h.suspended ==> h.open == [])
  }

  lemma {:induction false} EmitEmpty(o: Options, line: nat)
    ensures Emit(o, Whole([]), line) == Emitted([], line) && Rest([]) == []
  {
  }

  lemma {:induction false} TextOfSnoc(o: Options, segments: seq<Segment>, s: Segment)
    ensures var before := TextOf(o, segments);
            TextOf(o, segments + [s]) == match s
              case Raw(bytes) => Emitted(before.text + bytes, before.line)
              case Coded(bytes) =>
                Emitted(before.text + EncodeFrom(o, bytes, before.line), Emit(o, Whole(bytes), before.line).line)
  {
    hide EncodeFrom, Emit;
    assert (segments + [s])[..|segments + [s]| - 1] == segments;
  }

  /** Appending a byte either leaves the unfinished group longer or completes it. */
  lemma {:induction false} WholeSnoc(o: Options, x: seq<byte>, b: byte, line: nat)
    ensures var (e, r) := (Emit(o, Whole(x), line), Rest(x) + [b]);
            && (|r| < 3 ==> Whole(x + [b]) == Whole(x) && Rest(x + [b]) == r)
            && (|r| == 3 ==> Emit(o, Whole(x + [b]), line) == EmitQuartet(o, e, r) && Rest(x + [b]) == [])
  {
    hide EmitQuartet;
    var y := x + [b];
    assert Whole(x) + (Rest(x) + [b]) == y;
    if |x| % 3 == 2 {
      assert Whole(y) == y && y[..|y| - 3] == Whole(x) && y[|y| - 3..] == Rest(x) + [b];
    } else {
      assert |x| - |x| % 3 == |y| - |y| % 3;
    }
  }

  lemma {:induction false} ExplainsWrite(o: Options, h: History, st: Push, b: byte)
    requires Explains(o, h, st) && !h.suspended
    ensures Explains(o, h.(open := h.open + [b]), Apply(o, st, Write(b)))
  {
    hide Emit, Block;
    var before := TextOf(o, h.closed);
    WholeSnoc(o, h.open, b, before.line);
    QuartetAppends(o, before.text, Emit(o, Whole(h.open), before.line), Rest(h.open) + [b]);
  }

  lemma {:induction false} ExplainsFlush(o: Options, h: History, st: Push)
    requires Explains(o, h, st)
    ensures Explains(o, Close(h), Apply(o, st, Flush))
  {
    hide Emit, Block;
    var before := TextOf(o, h.closed);
    var e := Emit(o, Whole(h.open), before.line);
    EmitEmpty(o, before.line);
    if h.open != [] {
      TextOfSnoc(o, h.closed, Coded(h.open));
      EmitEmpty(o, e.line);
      var q := Padded(o, Rest(h.open));
      assert before.text + e.text + q == before.text + (e.text + q);
      assert before.text + (e.text + q) + [] == before.text + (e.text + q);
    }
  }

  /** The stream refines its history, over every run of writes, flushes, suspensions and resumptions. */
  lemma {:induction false} RunExplained(o: Options, ops: seq<Op>)
    ensures Explains(o, HistoryOf(ops), Run(o, ops))
  {
    hide Explains, TextOf, Apply;
    if ops == [] {
      StartExplained(o);
    } else {
      var before, h, st := ops[..|ops| - 1], HistoryOf(ops[..|ops| - 1]), Run(o, ops[..|ops| - 1]);
      RunExplained(o, before);
      StepExplained(o, h, st, ops[|ops| - 1]);
    }
  }

  lemma {:induction false} StartExplained(o: Options)
    ensures Explains(o, History([], [], false), START)
  {
    EmitEmpty(o, 0);
  }

  lemma {:induction false} StepExplained(o: Options, h: History, st: Push, op: Op)
    requires Explains(o, h, st)
    ensures Explains(o, match op
                        case Write(b) =>
                          if h.suspended then h.(closed := h.closed + [Raw([b])]) else h.(open := h.open + [b])
                        case Flush => Close(h)
                        case Suspend => Close(h).(suspended := true)
                        case Resume => h.(suspended := false), Apply(o, st, op))
  {
    hide Emit, Block, TextOf;
    match op {
      case Write(b) =>
        if h.suspended {
          TextOfSnoc(o, h.closed, Raw([b]));
          EmitEmpty(o, TextOf(o, h.closed).line);
          assert TextOf(o, h.closed).text + [b] + [] == TextOf(o, h.closed).text + [] + [b];
        } else {
          ExplainsWrite(o, h, st, b);
        }
      case Flush => ExplainsFlush(o, h, st);
      case Suspend => ExplainsFlush(o, h, st);
      case Resume =>
    }
  }

  /**
   * After a run and a final flush, the sink is the text of the run's segments: what was written
   * between flushes, encoded, and what was written while suspended, unchanged.
   */
  lemma {:induction false} FlushedRun(o: Options, ops: seq<Op>)
    ensures Apply(o, Run(o, ops), Flush).sink == TextOf(o, Close(HistoryOf(ops)).closed).text
  {
    hide TextOf, Emit;
    var h := Close(HistoryOf(ops));
    RunExplained(o, ops);
    ExplainsFlush(o, HistoryOf(ops), Run(o, ops));
    EmitEmpty(o, TextOf(o, h.closed).line);
    assert TextOf(o, h.closed).text + [] == TextOf(o, h.closed).text;
  }

  /** Each segment on its own: encoded afresh, or passed through. */
  function SegmentTexts(o: Options, segments: seq<Segment>): seq<byte> {
    if segments == [] then []
    else
      var s := segments[|segments| - 1];
      SegmentTexts(o, segments[..|segments| - 1]) + (if s.Raw? then s.bytes else Encode(o, s.bytes))
  }

  lemma {:induction false} TextOfUnbroken(o: Options, segments: seq<Segment>)
    requires !o.breakLines
    ensures TextOf(o, segments).text == SegmentTexts(o, segments)
  {
    hide Emit, EncodeFrom, Encode;
    if segments != [] {
      TextOfUnbroken(o, segments[..|segments| - 1]);
      var s := segments[|segments| - 1];
      if s.Coded? {
        EncodeLineFree(o, s.bytes, TextOf(o, segments[..|segments| - 1]).line);
      }
    }
  }

  /** Without line breaks every segment's text is independent of the ones before it. */
  lemma {:induction false} FlushedRunUnbroken(o: Options, ops: seq<Op>)
    requires !o.breakLines
    ensures Apply(o, Run(o, ops), Flush).sink == SegmentTexts(o, Close(HistoryOf(ops)).closed)
  {
    hide Run, Apply, TextOf, SegmentTexts;
    FlushedRun(o, ops);
    TextOfUnbroken(o, Close(HistoryOf(ops)).closed);
  }

  /** `n` rounds of writing one byte and flushing. */
  function ByteByByte(a: byte, n: nat): seq<Op> {
    if n == 0 then [] else ByteByByte(a, n - 1) + [Write(a)] + [Flush]
  }

  lemma {:induction false} RunSnoc(o: Options, ops: seq<Op>, op: Op)
    ensures Run(o, ops + [op]) == Apply(o, Run(o, ops), op)
  {
    hide Apply;
    assert (ops + [op])[..|ops + [op]| - 1] == ops;
  }

  /** A flush does not count the padded quartet: with line breaks on, a line can grow without bound. */
  lemma {:induction false} FlushedLinesOverflow(o: Options, a: byte, n: nat)
    ensures var st := Run(o, ByteByByte(a, n));
            |st.sink| == 4 * n && NEW_LINE !in st.sink && st == START.(sink := st.sink)
  {
    hide Block, Run;
    if n == 0 {
      assert Run(o, []) == START by { EmptyRun(o); }
    } else {
      FlushedLinesOverflow(o, a, n - 1);
      RunSnoc(o, ByteByByte(a, n - 1), Write(a));
      RunSnoc(o, ByteByByte(a, n - 1) + [Write(a)], Flush);
      NoNewlineInBlock(o.Dialect(), [a]);
      assert [] + [a] == [a];
    }
  }

  lemma {:induction false} EmptyRun(o: Options)
    ensures Run(o, []) == START
  {
  }

  function Writes(bytes: seq<byte>): (r: seq<Op>)
    ensures |r| == |bytes|
  {
    seq(|bytes|, i requires 0 <= i < |bytes| => Write(bytes[i]))
  }

  lemma {:induction false} WritesHistory(bytes: seq<byte>)
    ensures HistoryOf(Writes(bytes)) == History([], bytes, false)
  {
    if bytes != [] {
      var n := |bytes| - 1;
      WritesHistory(bytes[..n]);
      assert Writes(bytes)[..n] == Writes(bytes[..n]);
      assert bytes[..n] + [bytes[n]] == bytes;
    }
  }

  lemma {:induction false} PushAllIsRun(o: Options, bytes: seq<byte>)
    ensures PushAll(true, o, START, bytes) == (Run(o, Writes(bytes)), Fine)
  {
    hide PushEncode;
    if bytes != [] {
      var n := |bytes| - 1;
      PushAllIsRun(o, bytes[..n]);
      assert Writes(bytes)[..n] == Writes(bytes[..n]);
    }
  }

  /** The pushing encoder refines the batch encoder, with or without line breaks. */
  lemma {:induction false} PushIsBatch(o: Options, data: seq<byte>)
    ensures PushAll(true, o, START, data).1 == Fine
    ensures var (st, r) := PushFlush(true, o, PushAll(true, o, START, data).0);
            r == Fine && st.sink == Encode(o, data)
  {
    hide Run, PushAll, HistoryOf, TextOf, Emit, EncodeFrom;
    PushAllIsRun(o, data);
    WritesHistory(data);
    FlushedRun(o, Writes(data));
    NoSegments(o);
    if data == [] {
      EmptyEncoding(o);
    } else {
      TextOfSnoc(o, [], Coded(data));
      assert [] + [Coded(data)] == [Coded(data)];
    }
  }

  lemma {:induction false} NoSegments(o: Options)
    ensures TextOf(o, []) == Emitted([], 0)
  {
  }

  lemma {:induction false} EmptyEncoding(o: Options)
    ensures Encode(o, []) == []
  {
    EncodeFromShort(o, [], 0);
  }

  // ---------- decoding runs ----------

  lemma {:induction false} MaskAscii(c: byte)
    requires c < 0x80
    ensures c & 0x7F == c
  {
  }

  lemma {:induction false} PushSnoc(o: Options, st: Push, a: seq<byte>, c: byte)
    requires PushAll(false, o, st, a).1 == Fine
    ensures PushAll(false, o, st, a + [c]) == PushDecode(o, PushAll(false, o, st, a).0, c)
  {
    hide PushDecode;
    assert (a + [c])[..|a + [c]| - 1] == a;
  }

  ghost predicate Holds(o: Options, st: Push, a: seq<byte>, sink: seq<byte>, pending: seq<byte>) {
    PushAll(false, o, st, a) == (Push(sink, |pending|, pending, st.lineLength, false), Fine)
  }

  lemma {:induction false} CollectLetter(o: Options, st: Push, a: seq<byte>, sink: seq<byte>, pending: seq<byte>,
                                         c: byte)
    requires Holds(o, st, a, sink, pending) && |pending| < 3 && c < 0x80
    requires Decodabet(o.Dialect(), c).Sextet? || Decodabet(o.Dialect(), c).Equals?
    ensures Holds(o, st, a + [c], sink, pending + [c])
  {
    hide Decodabet, Unblock, PushAll;
    MaskAscii(c);
    PushSnoc(o, st, a, c);
  }

  /** A quartet of the encoder's, written letter by letter, adds its bytes to the sink. */
  lemma {:induction false} PushQuartet(o: Options, st: Push, a: seq<byte>, sink: seq<byte>, s: seq<byte>)
    requires Holds(o, st, a, sink, []) && 1 <= |s| <= 3
    ensures Holds(o, st, a + Block(o.Dialect(), s), sink + s, [])
  {
    hide Decodabet, Unblock, Block, PushAll, Holds;
    var d, q := o.Dialect(), Block(o.Dialect(), s);
    BlockLetters(d, s);
    UnblockBlock(d, s);
    CollectLetter(o, st, a, sink, [], q[0]);
    CollectLetter(o, st, a + [q[0]], sink, [] + [q[0]], q[1]);
    CollectLetter(o, st, a + [q[0]] + [q[1]], sink, [] + [q[0]] + [q[1]], q[2]);
    LastLetter(o, st, a + [q[0]] + [q[1]] + [q[2]], sink, [] + [q[0]] + [q[1]] + [q[2]], q[3]);
    assert [] + [q[0]] + [q[1]] + [q[2]] + [q[3]] == q;
    assert a + [q[0]] + [q[1]] + [q[2]] + [q[3]] == a + q;
  }

  lemma {:induction false} LastLetter(o: Options, st: Push, a: seq<byte>, sink: seq<byte>, pending: seq<byte>, c: byte)
    requires Holds(o, st, a, sink, pending) && |pending| == 3 && Ascii(pending + [c])
    requires Decodabet(o.Dialect(), c).Sextet? || Decodabet(o.Dialect(), c).Equals?
    ensures Holds(o, st, a + [c], sink + Unblock(o.Dialect(), pending + [c]), [])
  {
    hide Decodabet, Unblock, PushAll;
    assert (pending + [c])[3] == c;
    MaskAscii(c);
    PushSnoc(o, st, a, c);
  }

  lemma {:induction false} PushNewline(o: Options, st: Push, a: seq<byte>, sink: seq<byte>)
    requires Holds(o, st, a, sink, [])
    ensures Holds(o, st, a + [NEW_LINE], sink, [])
  {
    hide PushAll, Unblock;
    MarkersDecode(o.Dialect());
    PushSnoc(o, st, a, NEW_LINE);
  }

  lemma {:induction false} PushEmit(o: Options, data: seq<byte>, line: nat)
    requires |data| % 3 == 0
    ensures Holds(o, START, Emit(o, data, line).text, data, [])
  {
    hide Block, Holds;
    if data == [] {
      HoldsNothing(o);
    } else {
      var before, s := data[..|data| - 3], data[|data| - 3..];
      var e := Emit(o, before, line).text;
      PushEmit(o, before, line);
      PushQuartet(o, START, e, before, s);
      PushNewline(o, START, e + Block(o.Dialect(), s), before + s);
      assert before + s == data;
    }
  }

  lemma {:induction false} HoldsNothing(o: Options)
    ensures Holds(o, START, [], [], [])
  {
  }

  /** Writing an encoding through a decoding stream gives the bytes back, and nothing stays pending. */
  lemma {:induction false} PushDecodes(o: Options, data: seq<byte>)
    ensures PushAll(false, o, START, Encode(o, data)) == (START.(sink := data), Fine)
  {
    hide Emit, Block, PushAll;
    PushEmit(o, Whole(data), 0);
    var e := Emit(o, Whole(data), 0).text;
    if Rest(data) == [] {
      assert e + Padded(o, Rest(data)) == e && Whole(data) == data;
    } else {
      PushQuartet(o, START, e, Whole(data), Rest(data));
    }
  }
}
