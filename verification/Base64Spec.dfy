/** The Base64 text of a byte string, and what decoding a text yields. */
module Base64Spec {
  import opened Wrappers
  import opened Arithmetic
  import opened Base64Alphabet
  import opened Base64Quartet

  // ---------- encoding ----------

  /** Text emitted so far and the length of the line being written. */
  datatype Emitted = Emitted(text: seq<byte>, line: nat)

  /** One more full quartet, followed by a newline when it fills the line. */
  function EmitQuartet(o: Options, e: Emitted, s: seq<byte>): (r: Emitted)
    requires |s| == 3
  {
    var text := e.text + Block(o.Dialect(), s);
    if o.breakLines && e.line + 4 >= MAX_LINE_LENGTH then Emitted(text + [NEW_LINE], 0)
    else Emitted(text, e.line + 4)
  }

  /** The text of whole groups of three bytes, starting on a line that already holds `line` letters. */
  function Emit(o: Options, data: seq<byte>, line: nat): (r: Emitted)
    requires |data| % 3 == 0
  {
    if data == [] then Emitted([], line)
    else EmitQuartet(o, Emit(o, data[..|data| - 3], line), data[|data| - 3..])
  }

  /** The bytes in whole groups of three. */
  function Whole(data: seq<byte>): (r: seq<byte>)
    ensures |r| % 3 == 0 && r <= data && |data| - |r| < 3
  {
    data[..|data| - |data| % 3]
  }

  /** The zero, one or two bytes after the whole groups. */
  function Rest(data: seq<byte>): (r: seq<byte>)
    ensures |r| == |data| % 3
    ensures Whole(data) + r == data
  {
    data[|data| - |data| % 3..]
  }

  /** The padded quartet of an unfinished group. */
  function Padded(o: Options, rest: seq<byte>): (q: seq<byte>)
    requires |rest| < 3
  {
    if rest == [] then [] else Block(o.Dialect(), rest)
  }

  function EncodeFrom(o: Options, data: seq<byte>, line: nat): seq<byte> {
    Emit(o, Whole(data), line).text + Padded(o, Rest(data))
  }

  /** The Base64 text of a byte string. */
  function Encode(o: Options, data: seq<byte>): seq<byte> { EncodeFrom(o, data, 0) }

  // ---------- decoding ----------

  datatype Failure =
    | IllegalArgument
    | NegativeArraySize
    | BadCharacter(position: int)

  /** Java integer division truncates toward zero. */
  function TruncDiv(x: int, y: int): int
    requires y > 0
  {
    if x < 0 then -(-x / y) else x / y
  }

  /** The decoder between two input bytes: bytes written, letters waiting for a quartet. */
  datatype Decoder =
    | Decoding(out: seq<byte>, b4: seq<byte>)
    | Finished(out: seq<byte>)
    | Failed(failure: Failure)
  {
    ghost predicate Valid() { Decoding? ==> |b4| < 4 }
  }

  /** One input byte at the given position; quartets are written into an array of `room` bytes. */
  function DecodeStep(d: Dialect, room: int, st: Decoder, c: byte, position: int): (r: Decoder)
    requires st.Valid()
    ensures r.Valid()
  {
    if !st.Decoding? then st
    else match Decodabet(d, c)
      case Illegal => Failed(BadCharacter(position))
      case Blank => st
      case _ =>
        var b4 := st.b4 + [c];
        if |b4| < 4 then Decoding(st.out, b4)
        else if |st.out| + 2 >= room then Failed(IllegalArgument)
        else
          var out := st.out + Unblock(d, b4);
          if c == EQUALS_SIGN then Finished(out) else Decoding(out, [])
  }

  function DecodeRun(d: Dialect, room: int, text: seq<byte>, off: int): (r: Decoder)
    ensures r.Valid()
  {
    if text == [] then Decoding([], [])
    else
      DecodeStep(d, room, DecodeRun(d, room, text[..|text| - 1], off), text[|text| - 1], off + |text| - 1)
  }

  /** The decoder's estimate of the output size, in 32-bit arithmetic. */
  function Room(len: int): int { TruncDiv(Wrap32(len * 3), 4) }

  /** What decoding `len` bytes at `off` yields. Letters left over after the last quartet are dropped. */
  function Decode(o: Options, source: seq<byte>, off: int, len: int): Result<seq<byte>, Failure> {
    if off < 0 || off + len > |source| then Error(IllegalArgument)
    else if len == 0 then Success([])
    else if len < 4 then Error(IllegalArgument)
    else if Room(len) < 0 then Error(NegativeArraySize)
    else match DecodeRun(o.Dialect(), Room(len), source[off..off + len], off)
      case Failed(f) => Error(f)
      case Decoding(out, _) => Success(out)
      case Finished(out) => Success(out)
  }
}
