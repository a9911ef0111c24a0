/** The pulling stream: bytes read from it are the source's bytes encoded or decoded. */
module Base64Input {
  import opened Base64Alphabet
  import opened Base64Quartet
  import opened Base64Spec
  import opened Base64Codec
  import opened Base64Output

  datatype ReadResult = Got(b: byte) | EndOfStream | Faulted(fault: Fault)

  /** The state of the stream: what the source still holds, and the buffer being read out. */
  datatype Pull = Pull(input: seq<byte>, position: int, buffer: seq<byte>, numSigBytes: nat, lineLength: nat)

  /** A byte the decoding stream keeps; it skips every other one. */
  predicate Meaningful(d: Dialect, b: byte) {
    var symbol := Decodabet(d, b & 0x7F);
    symbol.Sextet? || symbol.Equals?
  }

  /** The first up to four meaningful bytes, and what is left of the input. */
  function Collect(d: Dialect, input: seq<byte>, got: seq<byte>): (r: (seq<byte>, seq<byte>))
    requires |got| <= 4
    ensures |r.0| <= 4 && |r.1| <= |input|
  {
    if input == [] || |got| == 4 then (got, input)
    else Collect(d, input[1..], if Meaningful(d, input[0]) then got + [input[0]] else got)
  }

  datatype Filled = Ready(st: Pull) | Stop(st: Pull, result: ReadResult)

  /** Makes sure that the buffer holds something, when `position` is negative. */
  function Fill(encode: bool, o: Options, st: Pull): Filled {
    if st.position >= 0 then Ready(st)
    else if encode then
      var n := if |st.input| < 3 then |st.input| else 3;
      if n == 0 then Stop(st, EndOfStream)
      else Ready(Pull(st.input[n..], 0, Block(o.Dialect(), st.input[..n]), 4, st.lineLength))
    else
      var (q, rest) := Collect(o.Dialect(), st.input, []);
      var st := st.(input := rest);
      if q == [] then Stop(st, EndOfStream)
      else if |q| < 4 then Stop(st, Faulted(ImproperPadding))
      else if !Ascii(q[..Looked(q)]) then Stop(st, Faulted(IndexFault))
      else
        var s := Unblock(o.Dialect(), q);
        Ready(st.(position := 0, numSigBytes := |s|,
                  buffer := s + (if |s| <= |st.buffer| then st.buffer[|s|..] else [])))
  }

  /** One call of `read`. */
  function PullRead(encode: bool, o: Options, st: Pull): (Pull, ReadResult) {
    match Fill(encode, o, st)
    case Stop(st, r) => (st, r)
    case Ready(st) =>
      if st.position >= st.numSigBytes then (st, EndOfStream)
      else if encode && o.breakLines && st.lineLength >= MAX_LINE_LENGTH then
        (st.(lineLength := 0), Got(NEW_LINE))
      else if 0 <= st.position < |st.buffer| then
        var next := st.position + 1;
        (st.(lineLength := st.lineLength + 1, position := if next >= |st.buffer| then -1 else next),
         Got(st.buffer[st.position]))
      else (st, EndOfStream)
  }

  class InputStream {
    const encode: bool
    const o: Options
    const bufferLength: nat
    const buffer: array<byte>
    var position: int
    var numSigBytes: nat
    var lineLength: nat
    /** The underlying stream: its content and how much of it has been read. */
    const source: seq<byte>
    var consumed: nat

    ghost predicate Valid()
      reads this
    {
      && bufferLength == (if encode then 4 else 3) && buffer.Length == bufferLength
      && -1 <= position < bufferLength && numSigBytes <= bufferLength
      && consumed <= |source|
    }

    ghost function Contents(): Pull
      reads this, buffer
      requires Valid()
    {
      Pull(source[consumed..], position, buffer[..], numSigBytes, lineLength)
    }

    constructor (encode: bool, o: Options, source: seq<byte>)
      ensures Valid() && this.encode == encode && this.o == o && this.source == source && fresh(buffer)
      ensures Contents() == Pull(source, -1, buffer[..], 0, 0)
    {
      this.encode, this.o, this.source, consumed := encode, o, source, 0;
      bufferLength := if encode then 4 else 3;
      buffer := new byte[if encode then 4 else 3];
      position, numSigBytes, lineLength := -1, 0, 0;
    }

    /** The underlying stream's `read`: the next byte, or nothing at its end. */
    method Next() returns (more: bool, b: byte)
      requires Valid()
      modifies this`consumed
      ensures Valid()
      ensures more <==> old(consumed) < |source|
      ensures more ==> b == source[old(consumed)] && consumed == old(consumed) + 1
      ensures !more ==> consumed == old(consumed)
    {
      if consumed < |source| {
        more, b := true, source[consumed];
        consumed := consumed + 1;
      } else {
        more, b := false, 0;
      }
    }

    /** Reads up to three bytes and encodes them into the buffer. */
    method FillEncoding() returns (ok: bool)
      requires Valid() && encode && position < 0
      modifies this, buffer
      ensures Valid()
      ensures Fill(encode, o, old(Contents())) == if ok then Ready(Contents()) else Stop(Contents(), EndOfStream)
    {
      hide Block;
      var b3 := new byte[3];
      var numBinaryBytes := 0;
      ghost var input := source[consumed..];
      for i := 0 to 3
        invariant Valid() && fresh(b3) && buffer[..] == old(buffer[..])
        invariant position == old(position) && numSigBytes == old(numSigBytes) && lineLength == old(lineLength)
        invariant numBinaryBytes == i && consumed == old(consumed) + i
        invariant b3[..i] == source[old(consumed)..consumed]
      {
        var more, b := Next();
        if !more { break; }
        b3[i] := b;
        numBinaryBytes := numBinaryBytes + 1;
        assert b3[..i + 1] == source[old(consumed)..consumed];
      }
      ghost var n := numBinaryBytes;
      assert n == if |input| < 3 then |input| else 3;
      assert b3[0..n] == input[..n] && source[consumed..] == input[n..];
      if numBinaryBytes > 0 {
        Encode3to4(b3, 0, numBinaryBytes, buffer, 0, o);
        WholeSplice(old(buffer[..]), Block(o.Dialect(), input[..n]));
        position := 0;
        numSigBytes := 4;
        return true;
      } else {
        assert input[0..] == input;
        return false;
      }
    }

    /** Skips to the next meaningful byte. */
    method NextMeaningful(ghost got: seq<byte>) returns (more: bool, b: byte)
      requires Valid() && |got| < 4
      modifies this`consumed
      ensures Valid() && consumed >= old(consumed)
      ensures var (d, input) := (o.Dialect(), old(source[consumed..]));
              if more then Collect(d, input, got) == Collect(d, source[consumed..], got + [b])
              else consumed == |source| && Collect(d, input, got) == (got, [])
    {
      hide Decodabet, Meaningful;
      var d := o.Dialect();
      ghost var input := source[consumed..];
      more, b := Next();
      while more && !Meaningful(d, b)
        invariant Valid() && consumed >= old(consumed)
        invariant more ==> consumed >= 1 && b == source[consumed - 1]
                           && Collect(d, input, got) == Collect(d, source[consumed - 1..], got)
        invariant !more ==> consumed == |source| && Collect(d, input, got) == (got, [])
        decreases |source| - consumed, more
      {
        assert source[consumed - 1..][1..] == source[consumed..];
        more, b := Next();
      }
      if more {
        assert source[consumed - 1..][1..] == source[consumed..];
      }
    }

    /** Reads four meaningful bytes and decodes them into the buffer. */
    method FillDecoding() returns (ok: bool, r: ReadResult)
      requires Valid() && !encode && position < 0
      modifies this, buffer
      ensures Valid()
      ensures Fill(encode, o, old(Contents())) == if ok then Ready(Contents()) else Stop(Contents(), r)
    {
      hide Unblock, Decodabet, Meaningful, Splice, Ascii, Collect;
      var d := o.Dialect();
      var b4 := new byte[4];
      ghost var input := source[consumed..];
      var i := 0;
      while i < 4
        invariant 0 <= i <= 4 && Valid() && fresh(b4) && buffer[..] == old(buffer[..])
        invariant position == old(position) && numSigBytes == old(numSigBytes) && lineLength == old(lineLength)
        invariant Collect(d, input, []) == Collect(d, source[consumed..], b4[..i])
        decreases 4 - i
      {
        ghost var got := b4[..i];
        var more, b := NextMeaningful(got);
        if !more {
          assert source[consumed..] == [];
          break;
        }
        b4[i] := b;
        i := i + 1;
        assert b4[..i] == got + [b];
      }
      CollectEnd(d, source[consumed..], b4[..i]);
      if i == 4 {
        ghost var was := buffer[..];
        assert b4[..4] == b4[..] && b4[0..4] == b4[..];
        if !Ascii(b4[..][..Looked(b4[..])]) {
          return false, Faulted(IndexFault);
        }
        var count := Decode4to3(b4, 0, buffer, 0, o);
        numSigBytes := count.value;
        position := 0;
        FrontSplice(was, Unblock(d, b4[..]));
        return true, EndOfStream;
      } else if i == 0 {
        return false, EndOfStream;
      } else {
        return false, Faulted(ImproperPadding);
      }
    }

    /** Reads one byte. */
    method Read() returns (r: ReadResult)
      requires Valid()
      modifies this, buffer
      ensures Valid() && (Contents(), r) == PullRead(encode, o, old(Contents()))
    {
      hide Fill;
      ghost var was := Contents();
      if position < 0 {
        if encode {
          var ok := FillEncoding();
          if !ok { return EndOfStream; }
        } else {
          var ok, stop := FillDecoding();
          if !ok { return stop; }
        }
      } else {
        FillNothing(encode, o, was);
      }
      assert Fill(encode, o, was) == Ready(Contents());
      if position >= numSigBytes {
        return EndOfStream;
      }
      FilledPosition(encode, o, was);
      if encode && o.breakLines && lineLength >= MAX_LINE_LENGTH {
        lineLength := 0;
        return Got(NEW_LINE);
      } else {
        lineLength := lineLength + 1;
        var b := buffer[position];
        position := position + 1;
        if position >= bufferLength {
          position := -1;
        }
        return Got(b);
      }
    }

    /** Reads up to `len` bytes into an array; says how many, or -1 at the end of the stream. */
    method ReadBytes(dest: array<byte>, off: nat, len: nat) returns (n: int, fault: ReadResult)
      requires Valid() && off + len <= dest.Length && dest != buffer
      modifies this, buffer, dest
      ensures Valid()
      ensures -1 <= n <= len
      ensures var run := PullRun(encode, o, old(Contents()), if n < 0 then 0 else n);
              && (n >= 0 ==> dest[off..off + n] == run.1)
              && (n < 0 || (n < len && !fault.Faulted?) ==> PullRead(encode, o, run.0) == (Contents(), EndOfStream))
              && (fault.Faulted? ==> PullRead(encode, o, run.0) == (Contents(), fault))
              && (n == len && !fault.Faulted? ==> run.0 == Contents())
    {
      hide PullRead;
      ghost var was := Contents();
      assert PullRun(encode, o, was, 0) == (was, []) && dest[off..off + 0] == [];
      for i := 0 to len
        invariant Valid() && PullRun(encode, o, was, i) == (Contents(), dest[off..off + i])
      {
        var b := Read();
        if b.Got? {
          ghost var got := dest[off..off + i];
          dest[off + i] := b.b;
          assert dest[off..off + i + 1] == got + [b.b];
        } else if b.Faulted? {
          return i, b;
        } else if i == 0 {
          return -1, EndOfStream;
        } else {
          return i, EndOfStream;
        }
      }
      return len, EndOfStream;
    }
  }

  /** `n` successful reads: the state after them and the bytes read. */
  function PullRun(encode: bool, o: Options, st: Pull, n: nat): (Pull, seq<byte>) {
    if n == 0 then (st, [])
    else
      var (before, got) := PullRun(encode, o, st, n - 1);
      match PullRead(encode, o, before)
      case (after, Got(b)) => (after, got + [b])
      case (after, _) => (after, got)
  }

  lemma {:induction false} CollectEnd(d: Dialect, input: seq<byte>, got: seq<byte>)
    requires |got| == 4 || (|got| < 4 && input == [])
    ensures Collect(d, input, got) == (got, input)
  {
  }

  lemma {:induction false} FillNothing(encode: bool, o: Options, st: Pull)
    requires st.position >= 0
    ensures Fill(encode, o, st) == Ready(st)
  {
  }

  lemma {:induction false} FilledPosition(encode: bool, o: Options, st: Pull)
    ensures Fill(encode, o, st).Ready? ==> Fill(encode, o, st).st.position >= 0
  {
  }

  lemma {:induction false} FrontSplice(a: seq<byte>, s: seq<byte>)
    requires |s| <= |a|
    ensures Splice(a, 0, s) == s + a[|s|..]
  {
  }
}
