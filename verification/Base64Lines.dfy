/** When flushing a pushing encoder keeps the lines of its text within 76 letters. */
module Base64Lines {
  import opened Base64Alphabet
  import opened Base64Quartet
  import opened Base64Spec
  import opened Base64Length
  import opened Base64Cons
  import opened Base64Output
  import opened Base64OutputRuns

  // ---------- lines of a text ----------

  /** A stretch of text without a newline. */
  predicate Unbroken(text: seq<byte>, i: nat, j: nat)
    requires j <= |text|
  {
    forall k | i <= k < j :: text[k] != NEW_LINE
  }

  /** No stretch of text without a newline is longer than 76. */
  ghost predicate ShortLines(text: seq<byte>) {
    forall i, j | 0 <= i <= j <= |text| && Unbroken(text, i, j) :: j - i <= MAX_LINE_LENGTH
  }

  /** The length of the line that a newline has not ended yet. */
  function Tail(text: seq<byte>): (n: nat)
    ensures n <= |text| && Unbroken(text, |text| - n, |text|)
    ensures n < |text| ==> text[|text| - n - 1] == NEW_LINE
  {
    if text == [] || text[|text| - 1] == NEW_LINE then 0 else 1 + Tail(text[..|text| - 1])
  }

  /** Every line that a newline ends has at most 76 letters. */
  predicate EndedShort(text: seq<byte>) {
    text == []
    || var front := text[..|text| - 1];
       EndedShort(front) && (text[|text| - 1] == NEW_LINE ==> Tail(front) <= MAX_LINE_LENGTH)
  }

  lemma {:induction false} ShortLinesByLine(text: seq<byte>)
    ensures ShortLines(text) <==> EndedShort(text) && Tail(text) <= MAX_LINE_LENGTH
  {
    hide ShortLines;
    if text == [] {
      NoText();
    } else {
      ShortLinesByLine(text[..|text| - 1]);
      ShortLinesSnoc(text);
    }
  }

  lemma {:induction false} NoText()
    ensures ShortLines([])
  {
  }

  lemma {:induction false} ShortLinesSnoc(text: seq<byte>)
    requires text != []
    ensures ShortLines(text) <==> ShortLines(text[..|text| - 1]) && Tail(text) <= MAX_LINE_LENGTH
  {
    hide Tail;
    var (front, n) := (text[..|text| - 1], |text|);
    if ShortLines(text) {
      forall i, j | 0 <= i <= j <= n - 1 && Unbroken(front, i, j) ensures j - i <= MAX_LINE_LENGTH {
        assert Unbroken(text, i, j);
      }
    }
    if ShortLines(front) && Tail(text) <= MAX_LINE_LENGTH {
      forall i, j | 0 <= i <= j <= n && Unbroken(text, i, j) ensures j - i <= MAX_LINE_LENGTH {
        if j < n { assert Unbroken(front, i, j); }
      }
    }
  }

  lemma {:induction false} AppendNewline(text: seq<byte>)
    ensures Tail(text + [NEW_LINE]) == 0
    ensures EndedShort(text + [NEW_LINE]) <==> EndedShort(text) && Tail(text) <= MAX_LINE_LENGTH
  {
    assert (text + [NEW_LINE])[..|text|] == text;
  }

  lemma {:induction false} AppendToLine(text: seq<byte>, q: seq<byte>)
    requires NEW_LINE !in q
    ensures Tail(text + q) == Tail(text) + |q| && (EndedShort(text + q) <==> EndedShort(text))
  {
    if q == [] {
      assert text + q == text;
    } else {
      var n := |q| - 1;
      AppendToLine(text, q[..n]);
      assert (text + q)[..|text + q| - 1] == text + q[..n];
      assert (text + q)[|text + q| - 1] == q[n];
    }
  }

  // ---------- where flushes stand ----------

  /** The whole groups of all segments. */
  function Groups(segments: seq<Segment>): nat {
    if segments == [] then 0
    else Groups(segments[..|segments| - 1]) + |segments[|segments| - 1].bytes| / 3
  }

  /** The padded quartets on a line, lines being counted by the newlines before them. */
  function PaddedOn(segments: seq<Segment>, line: nat): nat {
    if segments == [] then 0
    else
      PaddedOn(segments[..|segments| - 1], line)
      + if |segments[|segments| - 1].bytes| % 3 != 0 && Groups(segments) / 19 == line then 1 else 0
  }

  /**
   * No padded quartet stands on a line that a newline ends, and those on the last line fit it
   * together with its whole groups.
   */
  ghost predicate FlushesFit(segments: seq<Segment>) {
    var g := Groups(segments);
    && (forall line: nat | line < g / 19 :: PaddedOn(segments, line) == 0)
    && g % 19 + PaddedOn(segments, g / 19) <= 19
  }

  predicate Encoded(segments: seq<Segment>) { forall k | 0 <= k < |segments| :: segments[k].Coded? }

  /** The text behind `g` groups, of which those of `segments` are followed by their padded quartets. */
  ghost predicate Stands(text: seq<byte>, line: nat, segments: seq<Segment>, g: nat) {
    && Tail(text) == 4 * (g % 19 + PaddedOn(segments, g / 19)) && line == 4 * (g % 19)
    && (EndedShort(text) <==> forall l: nat | l < g / 19 :: PaddedOn(segments, l) == 0)
  }

  lemma {:induction false} NonePaddedAhead(segments: seq<Segment>, line: nat)
    requires Groups(segments) / 19 < line
    ensures PaddedOn(segments, line) == 0
  {
    if segments != [] {
      NonePaddedAhead(segments[..|segments| - 1], line);
    }
  }

  lemma {:induction false} GroupStands(o: Options, before: Emitted, segments: seq<Segment>, g: nat, s: seq<byte>)
    requires o.breakLines && |s| == 3 && Groups(segments) <= g && Stands(before.text, before.line, segments, g)
    ensures var e := EmitQuartet(o, before, s); Stands(e.text, e.line, segments, g + 1)
  {
    hide Block, Tail, EndedShort, PaddedOn, Groups;
    var q := Block(o.Dialect(), s);
    NoNewlineInBlock(o.Dialect(), s);
    AppendToLine(before.text, q);
    NextGroup(g);
    if g % 19 == 18 {
      AppendNewline(before.text + q);
      GroupsBehind(segments, g);
      NonePaddedAhead(segments, (g + 1) / 19);
    }
  }

  lemma {:induction false} NextGroup(g: nat)
    ensures g % 19 == 18 ==> (g + 1) % 19 == 0 && (g + 1) / 19 == g / 19 + 1
    ensures g % 19 != 18 ==> (g + 1) % 19 == g % 19 + 1 && (g + 1) / 19 == g / 19
  {
  }

  lemma {:induction false} GroupsBehind(segments: seq<Segment>, g: nat)
    requires Groups(segments) <= g && g % 19 == 18
    ensures Groups(segments) / 19 < (g + 1) / 19
  {
  }

  lemma {:induction false} GroupsStand(o: Options, before: Emitted, segments: seq<Segment>, data: seq<byte>)
    requires o.breakLines && |data| % 3 == 0 && Stands(before.text, before.line, segments, Groups(segments))
    ensures var e := Emit(o, data, before.line);
            Stands(before.text + e.text, e.line, segments, Groups(segments) + |data| / 3)
  {
    hide Block, Stands, EmitQuartet, Groups;
    if data == [] {
      assert before.text + [] == before.text;
    } else {
      var (front, s) := (data[..|data| - 3], data[|data| - 3..]);
      var e := Emit(o, front, before.line);
      var g := Groups(segments) + |front| / 3;
      GroupsStand(o, before, segments, front);
      GroupStands(o, Emitted(before.text + e.text, e.line), segments, g, s);
      QuartetAppends(o, before.text, e, s);
      assert g + 1 == Groups(segments) + |data| / 3;
    }
  }

  lemma {:induction false} PaddedSnoc(segments: seq<Segment>, s: Segment, line: nat)
    ensures Groups(segments + [s]) == Groups(segments) + |s.bytes| / 3
    ensures PaddedOn(segments + [s], line) == PaddedOn(segments, line)
            + if |s.bytes| % 3 != 0 && Groups(segments + [s]) / 19 == line then 1 else 0
  {
    assert (segments + [s])[..|segments + [s]| - 1] == segments;
  }

  lemma {:induction false} PaddingStands(o: Options, text: seq<byte>, line: nat, segments: seq<Segment>, s: Segment)
    requires Stands(text, line, segments, Groups(segments + [s]))
    ensures Stands(text + Padded(o, Rest(s.bytes)), line, segments + [s], Groups(segments + [s]))
  {
    hide Block, Tail, EndedShort, PaddedOn, Groups;
    var g := Groups(segments + [s]);
    forall l: nat ensures PaddedOn(segments + [s], l) == PaddedOn(segments, l)
                          + if |s.bytes| % 3 != 0 && g / 19 == l then 1 else 0 {
      PaddedSnoc(segments, s, l);
    }
    if |s.bytes| % 3 == 0 {
      assert text + [] == text;
    } else {
      NoNewlineInBlock(o.Dialect(), Rest(s.bytes));
      AppendToLine(text, Block(o.Dialect(), Rest(s.bytes)));
    }
  }

  lemma {:induction false} SegmentsStand(o: Options, segments: seq<Segment>)
    requires o.breakLines && Encoded(segments)
    ensures var e := TextOf(o, segments); Stands(e.text, e.line, segments, Groups(segments))
  {
    hide Stands, Emit, Padded, Groups;
    if segments == [] {
      NothingStands();
    } else {
      var (front, s) := (segments[..|segments| - 1], segments[|segments| - 1]);
      var before := TextOf(o, front);
      SegmentsStand(o, front);
      GroupsStand(o, before, front, Whole(s.bytes));
      PaddedSnoc(front, s, 0);
      assert front + [s] == segments;
      var e := Emit(o, Whole(s.bytes), before.line);
      PaddingStands(o, before.text + e.text, e.line, front, s);
      assert before.text + e.text + Padded(o, Rest(s.bytes)) == before.text + (e.text + Padded(o, Rest(s.bytes)));
    }
  }

  lemma {:induction false} NothingStands()
    ensures Stands([], 0, [], Groups([]))
  {
  }

  /** The lines of encoded segments are short exactly when the flushes between them fit. */
  lemma {:induction false} TextLinesExactly(o: Options, segments: seq<Segment>)
    requires o.breakLines && Encoded(segments)
    ensures ShortLines(TextOf(o, segments).text) <==> FlushesFit(segments)
  {
    hide ShortLines, Tail, EndedShort, TextOf, PaddedOn, Groups;
    SegmentsStand(o, segments);
    ShortLinesByLine(TextOf(o, segments).text);
  }

  // ---------- runs ----------

  /** What is written between flushes, the last stretch being flushed too. */
  function Flushed(ops: seq<Op>): seq<Segment> { Close(HistoryOf(ops)).closed }

  /** Runs of writes and flushes write nothing past the encoder. */
  lemma {:induction false} WritesAreEncoded(ops: seq<Op>)
    requires forall k | 0 <= k < |ops| :: ops[k].Write? || ops[k].Flush?
    ensures !HistoryOf(ops).suspended && Encoded(HistoryOf(ops).closed) && Encoded(Flushed(ops))
  {
    if ops != [] { WritesAreEncoded(ops[..|ops| - 1]); }
  }

  /**
   * Over every run that writes nothing past the encoder, with line breaks on, the flushed text keeps
   * to 76 letters a line exactly when the flushes fit, which the lengths of what is flushed decide.
   */
  lemma {:induction false} FlushedLinesExactly(o: Options, ops: seq<Op>)
    requires o.breakLines && Encoded(Flushed(ops))
    ensures ShortLines(Apply(o, Run(o, ops), Flush).sink) <==> FlushesFit(Flushed(ops))
  {
    hide ShortLines, FlushesFit, TextOf, Run, Apply, HistoryOf, Encoded;
    FlushedRun(o, ops);
    TextLinesExactly(o, Flushed(ops));
  }
}
