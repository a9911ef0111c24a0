/** The pushing stream: bytes written to it reach the sink encoded or decoded. */
module Base64Output {
  import opened Base64Alphabet
  import opened Base64Quartet
  import opened Base64Spec
  import opened Base64Codec

  datatype Fault = ImproperPadding | InvalidCharacter | IndexFault

  datatype Outcome = Fine | Threw(fault: Fault)

  /** The state of the stream; `pending` is the filled part of its buffer. */
  datatype Push = Push(sink: seq<byte>, position: nat, pending: seq<byte>, lineLength: nat, suspended: bool)

  const START := Push([], 0, [], 0, false)

  /** Writing one byte while encoding. */
  function PushEncode(o: Options, st: Push, b: byte): Push {
    if st.suspended then st.(sink := st.sink + [b])
    else
      var pending := st.pending + [b];
      if |pending| < 3 then st.(position := |pending|, pending := pending)
      else if |pending| == 3 then
        var e := EmitQuartet(o, Emitted(st.sink, st.lineLength), pending);
        st.(sink := e.text, position := 0, pending := [], lineLength := e.line)
      else st
  }

  /** Writing one byte while decoding; a quartet that leaves the table's index range jams the buffer. */
  function PushDecode(o: Options, st: Push, b: byte): (Push, Outcome) {
    if st.suspended then (st.(sink := st.sink + [b]), Fine)
    else match Decodabet(o.Dialect(), b & 0x7F)
      case Blank => (st, Fine)
      case Illegal => (st, Threw(InvalidCharacter))
      case _ =>
        if st.position >= 4 then (st.(position := st.position + 1), Threw(IndexFault))
        else
          var pending := st.pending + [b];
          if |pending| < 4 then (st.(position := |pending|, pending := pending), Fine)
          else if |pending| > 4 || !Ascii(pending[..Looked(pending)]) then
            (st.(position := |pending|, pending := pending), Threw(IndexFault))
          else (st.(sink := st.sink + Unblock(o.Dialect(), pending), position := 0, pending := []), Fine)
  }

  function PushWrite(encode: bool, o: Options, st: Push, b: byte): (Push, Outcome) {
    if encode then (PushEncode(o, st, b), Fine) else PushDecode(o, st, b)
  }

  /** Writing bytes one after the other, up to the first exception. */
  function PushAll(encode: bool, o: Options, st: Push, bytes: seq<byte>): (Push, Outcome) {
    if bytes == [] then (st, Fine)
    else
      var (before, out) := PushAll(encode, o, st, bytes[..|bytes| - 1]);
      if out.Threw? then (before, out) else PushWrite(encode, o, before, bytes[|bytes| - 1])
  }

  function PushFlush(encode: bool, o: Options, st: Push): (Push, Outcome) {
    if st.position == 0 then (st, Fine)
    else if !encode then (st, Threw(ImproperPadding))
    else if 1 <= |st.pending| <= 3 then
      (st.(sink := st.sink + Block(o.Dialect(), st.pending), position := 0, pending := []), Fine)
    else (st, Fine)
  }

  function PushSuspend(encode: bool, o: Options, st: Push): (Push, Outcome) {
    var (flushed, out) := PushFlush(encode, o, st);
    if out.Threw? then (flushed, out) else (flushed.(suspended := true), Fine)
  }

  function PushResume(st: Push): Push { st.(suspended := false) }

  class OutputStream {
    const encode: bool
    const o: Options
    const bufferLength: nat
    const buffer: array<byte>
    const b4: array<byte>
    var position: nat
    var lineLength: nat
    var suspended: bool
    /** What the underlying stream has received. */
    var out: seq<byte>

    ghost predicate Valid()
      reads this
    {
      && bufferLength == (if encode then 3 else 4)
      && buffer.Length == bufferLength && b4.Length == 4 && buffer != b4
      && (encode ==> position < 3)
    }

    ghost function Contents(): Push
      reads this, buffer
      requires Valid()
    {
      Push(out, position, buffer[..if position < bufferLength then position else bufferLength], lineLength, suspended)
    }

    constructor (encode: bool, o: Options)
      ensures Valid() && Contents() == START
      ensures this.encode == encode && this.o == o && fresh(buffer) && fresh(b4)
    {
      this.encode, this.o := encode, o;
      bufferLength := if encode then 3 else 4;
      buffer := new byte[if encode then 3 else 4];
      b4 := new byte[4];
      position, lineLength, suspended, out := 0, 0, false, [];
    }

    /** Writes one byte. */
    method Write(theByte: byte) returns (r: Outcome)
      requires Valid()
      modifies this, buffer, b4
      ensures Valid() && (Contents(), r) == PushWrite(encode, o, old(Contents()), theByte)
    {
      hide PushEncode, PushDecode;
      if suspended {
        out := out + [theByte];
        WriteSuspended(encode, o, old(Contents()), theByte);
        return Fine;
      }
      if encode {
        WriteEncoding(theByte);
        return Fine;
      } else {
        r := WriteDecoding(theByte);
      }
    }

    /** The part of `Write` that encodes. */
    method WriteEncoding(theByte: byte)
      requires Valid() && encode && !suspended
      modifies this, buffer, b4
      ensures Valid() && Contents() == PushEncode(o, old(Contents()), theByte)
    {
      hide Block, Splice;
      ghost var was := Contents();
      buffer[position] := theByte;
      position := position + 1;
      assert buffer[..position] == was.pending + [theByte];
      if position >= bufferLength {
        assert buffer[0..3] == buffer[..3];
        Encode3to4(buffer, 0, bufferLength, b4, 0, o);
        WholeSplice(old(b4[..]), Block(o.Dialect(), buffer[..3]));
        out := out + b4[..];
        lineLength := lineLength + 4;
        if o.breakLines && lineLength >= MAX_LINE_LENGTH {
          out := out + [NEW_LINE];
          lineLength := 0;
        }
        position := 0;
      }
    }

    /** The part of `Write` that decodes. */
    method WriteDecoding(theByte: byte) returns (r: Outcome)
      requires Valid() && !encode && !suspended
      modifies this, buffer, b4
      ensures Valid() && (Contents(), r) == PushDecode(o, old(Contents()), theByte)
    {
      hide Unblock, Decodabet, Ascii, Looked;
      var symbol := Decodabet(o.Dialect(), theByte & 0x7F);
      if symbol.Sextet? || symbol.Equals? {
        r := Collect(theByte);
      } else if !symbol.Blank? {
        return Threw(InvalidCharacter);
      } else {
        return Fine;
      }
    }

    /** Keeps a letter, and decodes the quartet that it completes. */
    method Collect(theByte: byte) returns (r: Outcome)
      requires Valid() && !encode && !suspended
      requires !Decodabet(o.Dialect(), theByte & 0x7F).Blank? && !Decodabet(o.Dialect(), theByte & 0x7F).Illegal?
      modifies this, buffer, b4
      ensures Valid() && (Contents(), r) == PushDecode(o, old(Contents()), theByte)
    {
      hide Unblock, Decodabet, Ascii, Looked;
      if position >= bufferLength {
        position := position + 1;
        return Threw(IndexFault);
      }
      ghost var pending := Contents().pending + [theByte];
      buffer[position] := theByte;
      position := position + 1;
      assert buffer[..position] == pending;
      if position >= bufferLength {
        assert buffer[..] == pending;
        r := Decode4();
        assert Contents().pending == if r == Fine then [] else pending;
      } else {
        r := Fine;
      }
    }

    /** Decodes the full buffer into the sink, unless a letter is no table index. */
    method Decode4() returns (r: Outcome)
      requires Valid() && !encode && position == 4
      modifies this, b4
      ensures Valid() && lineLength == old(lineLength) && suspended == old(suspended)
      ensures Ascii(buffer[..][..Looked(buffer[..])]) ==>
                r == Fine && position == 0 && out == old(out) + Unblock(o.Dialect(), buffer[..])
      ensures !Ascii(buffer[..][..Looked(buffer[..])]) ==>
                r == Threw(IndexFault) && position == old(position) && out == old(out)
    {
      hide Unblock, Decodabet;
      if !Ascii(buffer[..][..Looked(buffer[..])]) {
        return Threw(IndexFault);
      }
      assert buffer[0..4] == buffer[..];
      var len := Decode4to3(buffer, 0, b4, 0, o);
      out := out + b4[..len.value];
      position := 0;
      return Fine;
    }

    /** Writes `len` bytes of an array at `off`. */
    method WriteBytes(theBytes: array<byte>, off: nat, len: nat) returns (r: Outcome)
      requires Valid() && off + len <= theBytes.Length && theBytes != buffer && theBytes != b4
      modifies this, buffer, b4
      ensures Valid() && (Contents(), r) == PushAll(encode, o, old(Contents()), theBytes[off..off + len])
    {
      hide PushWrite, PushAll;
      ghost var st, bytes := Contents(), theBytes[off..off + len];
      if suspended {
        out := out + theBytes[off..off + len];
        SuspendedAll(encode, o, st, bytes);
        return Fine;
      }
      PushNothing(encode, o, st, bytes);
      for i := 0 to len
        invariant Valid() && theBytes[off..off + len] == bytes
        invariant (Contents(), Fine) == PushAll(encode, o, st, bytes[..i])
      {
        PushNext(encode, o, st, bytes, i);
        r := Write(theBytes[off + i]);
        if r.Threw? {
          PushStops(encode, o, st, bytes, i + 1);
          return;
        }
      }
      assert bytes[..len] == bytes;
      return Fine;
    }

    /** Pads and writes out an unfinished group. */
    method FlushBase64() returns (r: Outcome)
      requires Valid()
      modifies this, b4
      ensures Valid() && (Contents(), r) == PushFlush(encode, o, old(Contents()))
    {
      hide Block, Splice;
      if position > 0 {
        if encode {
          assert buffer[0..position] == buffer[..position];
          Encode3to4(buffer, 0, position, b4, 0, o);
          WholeSplice(old(b4[..]), Block(o.Dialect(), buffer[..position]));
          out := out + b4[..];
          position := 0;
        } else {
          return Threw(ImproperPadding);
        }
      }
      return Fine;
    }

    method SuspendEncoding() returns (r: Outcome)
      requires Valid()
      modifies this, b4
      ensures Valid() && (Contents(), r) == PushSuspend(encode, o, old(Contents()))
    {
      hide PushFlush;
      r := FlushBase64();
      if r.Fine? {
        suspended := true;
      }
    }

    method ResumeEncoding()
      requires Valid()
      modifies this
      ensures Valid() && Contents() == PushResume(old(Contents()))
    {
      suspended := false;
    }
  }

  lemma {:induction false} WholeSplice(a: seq<byte>, s: seq<byte>)
    requires |a| == |s|
    ensures Splice(a, 0, s) == s
  {
  }

  lemma {:induction false} PushNothing(encode: bool, o: Options, st: Push, bytes: seq<byte>)
    ensures PushAll(encode, o, st, bytes[..0]) == (st, Fine)
  {
  }

  lemma {:induction false} PushNext(encode: bool, o: Options, st: Push, bytes: seq<byte>, i: nat)
    requires i < |bytes| && PushAll(encode, o, st, bytes[..i]).1 == Fine
    ensures PushAll(encode, o, st, bytes[..i + 1])
            == PushWrite(encode, o, PushAll(encode, o, st, bytes[..i]).0, bytes[i])
  {
    hide PushWrite;
    assert bytes[..i + 1][..i] == bytes[..i];
  }

  lemma {:induction false} SuspendedAll(encode: bool, o: Options, st: Push, bytes: seq<byte>)
    requires st.suspended
    ensures PushAll(encode, o, st, bytes) == (st.(sink := st.sink + bytes), Fine)
  {
    hide Decodabet, Unblock, EmitQuartet;
    if bytes == [] {
      assert st.sink + bytes == st.sink;
    } else {
      SuspendedAll(encode, o, st, bytes[..|bytes| - 1]);
      assert bytes[..|bytes| - 1] + [bytes[|bytes| - 1]] == bytes;
      assert st.sink + bytes[..|bytes| - 1] + [bytes[|bytes| - 1]] == st.sink + bytes;
    }
  }

  lemma {:induction false} WriteSuspended(encode: bool, o: Options, st: Push, b: byte)
    requires st.suspended
    ensures PushWrite(encode, o, st, b) == (st.(sink := st.sink + [b]), Fine)
  {
  }

  /** After an exception the rest is not written. */
  lemma {:induction false} PushStops(encode: bool, o: Options, st: Push, bytes: seq<byte>, n: nat)
    requires n <= |bytes| && PushAll(encode, o, st, bytes[..n]).1.Threw?
    ensures PushAll(encode, o, st, bytes) == PushAll(encode, o, st, bytes[..n])
    decreases |bytes|
  {
    hide PushWrite;
    if n < |bytes| {
      assert bytes[..|bytes| - 1][..n] == bytes[..n];
      PushStops(encode, o, st, bytes[..|bytes| - 1], n);
    } else {
      assert bytes[..n] == bytes;
    }
  }

  /** Writing in two goes is writing the concatenation, however the input is split. */
  lemma {:induction false} SplitWrites(encode: bool, o: Options, st: Push, a: seq<byte>, b: seq<byte>)
    requires PushAll(encode, o, st, a).1 == Fine
    ensures PushAll(encode, o, st, a + b) == PushAll(encode, o, PushAll(encode, o, st, a).0, b)
  {
    hide PushWrite;
    if b == [] {
      assert a + b == a;
    } else {
      SplitWrites(encode, o, st, a, b[..|b| - 1]);
      assert (a + b)[..|a + b| - 1] == a + b[..|b| - 1];
    }
  }
}
