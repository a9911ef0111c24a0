/** The batch encoder and decoder over byte arrays. */
module Base64Codec {
  import opened Wrappers
  import opened Base64Alphabet
  import opened Base64Quartet
  import opened Base64Spec
  import opened Base64Length
  import opened Base64RoundTrip

  /** `a` with `s` written over it from position `at`. */
  function Splice(a: seq<byte>, at: nat, s: seq<byte>): (r: seq<byte>)
    requires at + |s| <= |a|
    ensures |r| == |a|
  {
    a[..at] + s + a[at + |s|..]
  }

  lemma {:induction false} SplicePrefix(a: seq<byte>, at: nat, s: seq<byte>)
    requires at + |s| <= |a|
    ensures Splice(a, at, s)[..at + |s|] == a[..at] + s
  {
  }

  /** Writing `s` element by element at `at` and nothing else. */
  lemma {:induction false} IsSplice(a: seq<byte>, at: nat, s: seq<byte>, b: seq<byte>)
    requires at + |s| <= |a| == |b|
    requires forall k | 0 <= k < |s| :: b[at + k] == s[k]
    requires forall k | 0 <= k < |a| && !(at <= k < at + |s|) :: b[k] == a[k]
    ensures b == Splice(a, at, s)
  {
    var r := Splice(a, at, s);
    forall k | 0 <= k < |a| ensures b[k] == r[k] {
      if at <= k < at + |s| { assert b[at + (k - at)] == s[k - at]; }
    }
  }

  /** Encodes up to three bytes of `source` into four bytes of `destination`. */
  method Encode3to4(source: array<byte>, srcOffset: nat, numSigBytes: nat,
                    destination: array<byte>, destOffset: nat, o: Options)
    requires numSigBytes <= 3 && srcOffset + numSigBytes <= source.Length
    requires numSigBytes > 0 ==> destOffset + 4 <= destination.Length
    requires source != destination
    modifies destination
    ensures numSigBytes == 0 ==> destination[..] == old(destination[..])
    ensures numSigBytes > 0 ==>
              destination[..] == Splice(old(destination[..]), destOffset,
                                        Block(o.Dialect(), source[srcOffset..srcOffset + numSigBytes]))
  {
    hide Letter, Sextets, InBuff, Splice, Block;
    ghost var was, group := destination[..], source[srcOffset..srcOffset + numSigBytes];
    var d := o.Dialect();
    var inBuff := InBuff(if numSigBytes > 0 then source[srcOffset] else 0,
                         if numSigBytes > 1 then source[srcOffset + 1] else 0,
                         if numSigBytes > 2 then source[srcOffset + 2] else 0);
    var (s0, s1, s2, s3) := Sextets(inBuff);
    match numSigBytes {
      case 3 =>
        destination[destOffset] := Letter(d, s0);
        destination[destOffset + 1] := Letter(d, s1);
        destination[destOffset + 2] := Letter(d, s2);
        destination[destOffset + 3] := Letter(d, s3);
      case 2 =>
        destination[destOffset] := Letter(d, s0);
        destination[destOffset + 1] := Letter(d, s1);
        destination[destOffset + 2] := Letter(d, s2);
        destination[destOffset + 3] := EQUALS_SIGN;
      case 1 =>
        destination[destOffset] := Letter(d, s0);
        destination[destOffset + 1] := Letter(d, s1);
        destination[destOffset + 2] := EQUALS_SIGN;
        destination[destOffset + 3] := EQUALS_SIGN;
      case _ => return;
    }
    ghost var q := Block(d, group);
    BlockCases(d, group, q);
    assert destination[destOffset] == q[0] && destination[destOffset + 1] == q[1];
    assert destination[destOffset + 2] == q[2] && destination[destOffset + 3] == q[3];
    IsSplice(was, destOffset, q, destination[..]);
  }

  /** Adding the group at `n` to the whole groups before it. */
  lemma {:induction false} EmitNext(o: Options, data: seq<byte>, n: nat)
    requires n % 3 == 0 && n + 3 <= |data|
    ensures Emit(o, data[..n + 3], 0) == EmitQuartet(o, Emit(o, data[..n], 0), data[n..n + 3])
  {
    hide EmitQuartet;
    assert data[..n + 3][..n] == data[..n] && data[..n + 3][n..] == data[n..n + 3];
  }

  /** One round of the encoder's loop: a full group, and a newline when it fills the line. */
  method EncodeGroup(source: array<byte>, at: nat, outBuff: array<byte>, e: nat, lineLength: nat, o: Options)
    returns (e': nat, lineLength': nat)
    requires source != outBuff && at + 3 <= source.Length
    requires e + (if o.breakLines && lineLength + 4 >= MAX_LINE_LENGTH then 5 else 4) <= outBuff.Length
    modifies outBuff
    ensures e' <= outBuff.Length
    ensures Emitted(outBuff[..e'], lineLength')
            == EmitQuartet(o, Emitted(old(outBuff[..e]), lineLength), source[at..at + 3])
  {
    hide Block, Splice;
    ghost var before, group := outBuff[..], Block(o.Dialect(), source[at..at + 3]);
    Encode3to4(source, at, 3, outBuff, e, o);
    SplicePrefix(before, e, group);
    e', lineLength' := e + 4, lineLength + 4;
    if o.breakLines && lineLength' >= MAX_LINE_LENGTH {
      ghost var text := outBuff[..e'];
      outBuff[e'] := NEW_LINE;
      assert outBuff[..e' + 1] == text + [NEW_LINE];
      e', lineLength' := e' + 1, 0;
    }
  }

  /** The padded quartet after the encoder's loop, if bytes are left. */
  method EncodeTail(source: array<byte>, at: nat, n: nat, outBuff: array<byte>, e: nat, o: Options) returns (e': nat)
    requires source != outBuff && n < 3 && at + n <= source.Length
    requires e + (if n > 0 then 4 else 0) <= outBuff.Length
    modifies outBuff
    ensures e' <= outBuff.Length
    ensures outBuff[..e'] == old(outBuff[..e]) + Padded(o, source[at..at + n])
  {
    hide Block, Splice;
    e' := e;
    if n > 0 {
      ghost var before, group := outBuff[..], Block(o.Dialect(), source[at..at + n]);
      Encode3to4(source, at, n, outBuff, e, o);
      SplicePrefix(before, e, group);
      e' := e + 4;
    }
  }

  /** Copies the first `n` bytes of an array into an array of their own. */
  method CopyOf(a: array<byte>, n: nat) returns (r: array<byte>)
    requires n <= a.Length
    ensures fresh(r) && r[..] == a[..n]
  {
    r := new byte[n];
    forall i | 0 <= i < n { r[i] := a[i]; }
  }

  /** The output array has room for the next group's quartet, and for a newline if one is due. */
  lemma {:induction false} RoomForGroup(o: Options, data: seq<byte>, n: nat)
    requires n % 3 == 0 && n + 3 <= |data|
    ensures var e := Emit(o, data[..n], 0);
            |e.text| + (if o.breakLines && e.line + 4 >= MAX_LINE_LENGTH then 5 else 4) <= EstimatedLength(o, |data|)
  {
    hide Emit, EstimatedLength;
    EmitShape(o, data[..n]);
    EstimateIsTight(o, |data|);
    OneMoreGroup(n / 3, |data| / 3);
    assert n / 3 + 1 <= |data| / 3 <= (|data| + 2) / 3;
  }

  lemma {:induction false} OneMoreGroup(g: nat, all: nat)
    ensures g + 1 <= all ==> g / 19 + (if g % 19 == 18 then 1 else 0) <= all / 19
    ensures 4 * (g % 19) + 4 >= 76 <==> g % 19 == 18
  {
  }

  /** The output array has room for a padded quartet after the whole groups. */
  lemma {:induction false} RoomForEnd(o: Options, data: seq<byte>, n: nat)
    requires n % 3 == 0 && n <= |data| < n + 3
    ensures |Emit(o, data[..n], 0).text| + (if n < |data| then 4 else 0) <= EstimatedLength(o, |data|)
  {
    hide Emit, EstimatedLength;
    EmitShape(o, data[..n]);
    EstimateIsTight(o, |data|);
    LastGroups(n, |data|);
  }

  /** What the encoder's loop needs to know about the group at `d` of the data at `off`. */
  lemma {:induction false} NextGroup(o: Options, source: array<byte>, off: nat, data: seq<byte>, d: nat)
    requires off + |data| <= source.Length && data == source[off..off + |data|] && d % 3 == 0 && d + 3 <= |data|
    ensures source[d + off..d + off + 3] == data[d..d + 3]
    ensures var e := Emit(o, data[..d], 0);
            |e.text| + (if o.breakLines && e.line + 4 >= MAX_LINE_LENGTH then 5 else 4) <= EstimatedLength(o, |data|)
  {
    hide Emit, EstimatedLength;
    RoomForGroup(o, data, d);
    PartOf(source, off, data, d, 3);
  }

  /** What it needs to know about the bytes from `d` on, fewer than a group. */
  lemma {:induction false} LastGroup(o: Options, source: array<byte>, off: nat, data: seq<byte>, d: nat)
    requires off + |data| <= source.Length && data == source[off..off + |data|] && d % 3 == 0 && d <= |data| < d + 3
    ensures source[d + off..d + off + (|data| - d)] == data[d..]
    ensures var text := Emit(o, data[..d], 0).text;
            && |text| + (if |data| > d then 4 else 0) <= EstimatedLength(o, |data|)
            && Encode(o, data) == text + Padded(o, data[d..])
  {
    hide Emit, EstimatedLength, Encode, Padded;
    RoomForEnd(o, data, d);
    EncodeEnd(o, data, d);
    PartOf(source, off, data, d, |data| - d);
  }

  lemma {:induction false} PartOf(source: array<byte>, off: nat, data: seq<byte>, d: nat, n: nat)
    requires off + |data| <= source.Length && data == source[off..off + |data|] && d + n <= |data|
    ensures source[d + off..d + off + n] == data[d..d + n]
  {
    var (x, y) := (source[d + off..d + off + n], data[d..d + n]);
    assert |x| == |y| && forall k | 0 <= k < n :: x[k] == y[k];
  }

  /** The encoder's guess at the length of its text. */
  method GuessLength(len: nat, o: Options) returns (encLen: nat)
    ensures encLen == EstimatedLength(o, len)
  {
    encLen := (len / 3) * 4 + (if len % 3 > 0 then 4 else 0);
    if o.breakLines {
      encLen := encLen + encLen / MAX_LINE_LENGTH;
    }
  }

  /** Encodes `len` bytes at `off`. A Java array has to be able to hold the result. */
  method EncodeBytesToBytes(source: array<byte>, off: int, len: int, o: Options)
    returns (r: Result<array<byte>, Failure>)
    requires len >= 0 ==> EstimatedLength(o, len) < 0x8000_0000
    ensures off < 0 || len < 0 || off + len > source.Length <==> r == Error(IllegalArgument)
    ensures r.Error? ==> r.error == IllegalArgument
    ensures r.Success? ==> fresh(r.value) && r.value[..] == Encode(o, source[off..off + len])
  {
    hide Block, Splice, Emit, EmitQuartet, Encode, EncodedLength, EstimatedLength, Padded;
    if off < 0 { return Error(IllegalArgument); }
    if len < 0 { return Error(IllegalArgument); }
    if off + len > source.Length { return Error(IllegalArgument); }
    ghost var data := source[off..off + len];

    var encLen := GuessLength(len, o);
    var outBuff := new byte[encLen];

    var d, e, lineLength := 0, 0, 0;
    EmitNothing(o, data);
    while d < len - 2
      invariant 0 <= d <= len && d % 3 == 0
      invariant 0 <= e <= outBuff.Length
      invariant Emit(o, data[..d], 0) == Emitted(outBuff[..e], lineLength)
      invariant outBuff != source && fresh(outBuff)
    {
      NextGroup(o, source, off, data, d);
      EmitNext(o, data, d);
      e, lineLength := EncodeGroup(source, d + off, outBuff, e, lineLength, o);
      d := d + 3;
    }
    LastGroup(o, source, off, data, d);
    e := EncodeTail(source, d + off, len - d, outBuff, e, o);

    if e <= outBuff.Length - 1 {
      var finalOut := CopyOf(outBuff, e);
      return Success(finalOut);
    } else {
      assert outBuff[..] == outBuff[..e];
      return Success(outBuff);
    }
  }

  lemma {:induction false} EmitNothing(o: Options, data: seq<byte>)
    ensures Emit(o, data[..0], 0) == Emitted([], 0)
  {
  }

  /** The encoding once only an unfinished group is left. */
  lemma {:induction false} EncodeEnd(o: Options, data: seq<byte>, n: nat)
    requires n % 3 == 0 && n <= |data| < n + 3
    ensures Encode(o, data) == Emit(o, data[..n], 0).text + Padded(o, data[n..])
  {
    hide Emit, Block;
    assert data[..n] == Whole(data) && data[n..] == Rest(data);
  }

  /** The branches of quartet decoding. */
  lemma {:induction false} UnblockCases(d: Dialect, q: seq<byte>, s: seq<byte>, r0: byte, r1: byte, r2: byte, r3: byte)
    requires |q| == 4 && s == Unblock(d, q)
    requires r0 == Decodabet(d, q[0]).Raw() && r1 == Decodabet(d, q[1]).Raw()
    requires r2 == Decodabet(d, q[2]).Raw() && r3 == Decodabet(d, q[3]).Raw()
    ensures q[2] == EQUALS_SIGN ==> s == [Bytes(OutBuff(r0, r1, 0, 0)).0]
    ensures q[2] != EQUALS_SIGN && q[3] == EQUALS_SIGN ==>
              var (b0, b1, _) := Bytes(OutBuff(r0, r1, r2, 0)); s == [b0, b1]
    ensures q[2] != EQUALS_SIGN && q[3] != EQUALS_SIGN ==>
              var (b0, b1, b2) := Bytes(OutBuff(r0, r1, r2, r3)); s == [b0, b1, b2]
  {
    hide Decodabet, OutBuff, Bytes;
  }

  /**
   * Decodes the four letters at `srcOffset` into up to three bytes at `destOffset` and says how many.
   */
  method Decode4to3(source: array<byte>, srcOffset: int, destination: array<byte>, destOffset: int, o: Options)
    returns (r: Result<nat, Failure>)
    requires source != destination
    modifies destination
    ensures r.Error? <==>
              srcOffset < 0 || srcOffset + 3 >= source.Length || destOffset < 0 || destOffset + 2 >= destination.Length
    ensures r.Error? ==> r.error == IllegalArgument && destination[..] == old(destination[..])
    ensures r.Success? ==>
              var s := Unblock(o.Dialect(), source[srcOffset..srcOffset + 4]);
              && r.value == |s|
              && destination[..] == Splice(old(destination[..]), destOffset, s)
  {
    hide Decodabet, OutBuff, Bytes, Unblock, Splice;
    ghost var was := destination[..];
    if srcOffset < 0 || srcOffset + 3 >= source.Length { return Error(IllegalArgument); }
    if destOffset < 0 || destOffset + 2 >= destination.Length { return Error(IllegalArgument); }
    var d := o.Dialect();
    var r0, r1 := Decodabet(d, source[srcOffset]).Raw(), Decodabet(d, source[srcOffset + 1]).Raw();
    var r2, r3 := Decodabet(d, source[srcOffset + 2]).Raw(), Decodabet(d, source[srcOffset + 3]).Raw();
    ghost var q := source[srcOffset..srcOffset + 4];
    UnblockCases(d, q, Unblock(d, q), r0, r1, r2, r3);
    if source[srcOffset + 2] == EQUALS_SIGN {
      var (b0, _, _) := Bytes(OutBuff(r0, r1, 0, 0));
      destination[destOffset] := b0;
      IsSplice(was, destOffset, Unblock(d, q), destination[..]);
      return Success(1);
    } else if source[srcOffset + 3] == EQUALS_SIGN {
      var (b0, b1, _) := Bytes(OutBuff(r0, r1, r2, 0));
      destination[destOffset] := b0;
      destination[destOffset + 1] := b1;
      IsSplice(was, destOffset, Unblock(d, q), destination[..]);
      return Success(2);
    } else {
      var (b0, b1, b2) := Bytes(OutBuff(r0, r1, r2, r3));
      destination[destOffset] := b0;
      destination[destOffset + 1] := b1;
      destination[destOffset + 2] := b2;
      IsSplice(was, destOffset, Unblock(d, q), destination[..]);
      return Success(3);
    }
  }

  /** Once it has failed or met its padding, the decoder's state no longer depends on the text. */
  lemma {:induction false} RunStops(d: Dialect, room: int, text: seq<byte>, off: int, n: nat)
    requires n <= |text| && !DecodeRun(d, room, text[..n], off).Decoding?
    ensures DecodeRun(d, room, text, off) == DecodeRun(d, room, text[..n], off)
    decreases |text|
  {
    hide Unblock, Decodabet;
    if n < |text| {
      assert text[..|text| - 1][..n] == text[..n];
      RunStops(d, room, text[..|text| - 1], off, n);
    } else {
      assert text[..n] == text;
    }
  }

  lemma {:induction false} RunNothing(d: Dialect, room: int, text: seq<byte>, off: int)
    ensures DecodeRun(d, room, text[..0], off) == Decoding([], [])
  {
  }

  /** Decodes `len` bytes at `off`. */
  method Decode(source: array<byte>, off: int, len: int, o: Options) returns (r: Result<seq<byte>, Failure>)
    ensures r == Base64Spec.Decode(o, source[..], off, len)
  {
    hide Unblock, Decodabet, Room, DecodeRun, Splice;
    if off < 0 || off + len > source.Length { return Error(IllegalArgument); }
    if len == 0 {
      return Success([]);
    } else if len < 4 {
      return Error(IllegalArgument);
    }
    var d := o.Dialect();
    var len34 := Room(len);
    if len34 < 0 { return Error(NegativeArraySize); }
    var outBuff := new byte[len34];
    var outBuffPosn := 0;
    var b4 := new byte[4];
    var b4Posn := 0;
    ghost var text := source[off..off + len];
    assert text == source[..][off..off + len];
    RunNothing(d, len34, text, off);
    var i := off;
    while i < off + len
      invariant off <= i <= off + len
      invariant fresh(outBuff) && fresh(b4) && outBuff != b4
      invariant 0 <= b4Posn < 4 && 0 <= outBuffPosn <= len34
      invariant DecodeRun(d, len34, text[..i - off], off) == Decoding(outBuff[..outBuffPosn], b4[..b4Posn])
    {
      ghost var n := i - off;
      ghost var before := DecodeRun(d, len34, text[..n], off);
      RunSnoc(d, len34, text[..n], source[i], off);
      assert text[..n] + [source[i]] == text[..n + 1];
      var sbiDecode := Decodabet(d, source[i]);
      if !sbiDecode.Illegal? {
        if !sbiDecode.Blank? {
          b4[b4Posn] := source[i];
          b4Posn := b4Posn + 1;
          assert b4[..b4Posn] == before.b4 + [source[i]];
          if b4Posn > 3 {
            ghost var written, s := outBuff[..], Unblock(d, b4[0..4]);
            assert b4[0..4] == before.b4 + [source[i]];
            var count := Decode4to3(b4, 0, outBuff, outBuffPosn, o);
            if count.Error? {
              RunStops(d, len34, text, off, n + 1);
              return Error(count.error);
            }
            SplicePrefix(written, outBuffPosn, s);
            outBuffPosn := outBuffPosn + count.value;
            assert outBuff[..outBuffPosn] == before.out + s;
            b4Posn := 0;
            if source[i] == EQUALS_SIGN {
              RunStops(d, len34, text, off, n + 1);
              return Success(outBuff[..outBuffPosn]);
            }
          }
        }
      } else {
        RunStops(d, len34, text, off, n + 1);
        return Error(BadCharacter(i));
      }
      i := i + 1;
    }
    assert text[..i - off] == text;
    return Success(outBuff[..outBuffPosn]);
  }
}
