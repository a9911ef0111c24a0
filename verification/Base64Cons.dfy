/** Reading an encoding from its front: the first group's quartet, then the encoding of the rest. */
module Base64Cons {
  import opened Base64Alphabet
  import opened Base64Quartet
  import opened Base64Spec

  /** Emitting a quartet after a prefix of the text. */
  lemma {:induction false} QuartetAppends(o: Options, prefix: seq<byte>, e: Emitted, s: seq<byte>)
    ensures |s| == 3 ==>
              var r := EmitQuartet(o, e, s);
              EmitQuartet(o, Emitted(prefix + e.text, e.line), s) == Emitted(prefix + r.text, r.line)
  {
    hide Block;
    if |s| == 3 {
      var q := Block(o.Dialect(), s);
      assert prefix + e.text + q == prefix + (e.text + q);
      assert prefix + e.text + q + [NEW_LINE] == prefix + (e.text + q + [NEW_LINE]);
    }
  }

  lemma {:induction false} EmitCons(o: Options, data: seq<byte>, line: nat)
    requires |data| % 3 == 0 && |data| >= 3
    ensures var e := EmitQuartet(o, Emitted([], line), data[..3]);
            var r := Emit(o, data[3..], e.line);
            Emit(o, data, line) == Emitted(e.text + r.text, r.line)
    decreases |data|
  {
    hide EmitQuartet, Emit;
    var (n, e) := (|data|, EmitQuartet(o, Emitted([], line), data[..3]));
    if n > 3 {
      var (front, s) := (data[..n - 3], data[n - 3..]);
      EmitCons(o, front, line);
      Middle(data);
      EmitLast(o, data, line);
      EmitLast(o, data[3..], e.line);
      QuartetAppends(o, e.text, Emit(o, front[3..], e.line), s);
    } else {
      EmitOne(o, data, line);
    }
  }

  lemma {:induction false} EmitLast(o: Options, data: seq<byte>, line: nat)
    requires |data| % 3 == 0 && data != []
    ensures Emit(o, data, line) == EmitQuartet(o, Emit(o, data[..|data| - 3], line), data[|data| - 3..])
  {
    hide EmitQuartet;
  }

  lemma {:induction false} EmitOne(o: Options, data: seq<byte>, line: nat)
    requires |data| == 3
    ensures var e := EmitQuartet(o, Emitted([], line), data[..3]);
            data[3..] == [] && Emit(o, [], e.line) == Emitted([], e.line)
            && Emit(o, data, line) == e && e.text + [] == e.text
  {
    hide EmitQuartet;
    assert data[..0] == [] && data[0..] == data && data[..3] == data;
  }

  lemma {:induction false} Middle(data: seq<byte>)
    requires |data| >= 6
    ensures var (front, tail, m) := (data[..|data| - 3], data[3..], |data| - 6);
            front[..3] == data[..3] && front[3..] == tail[..m] && tail[m..] == data[|data| - 3..]
  {
  }

  /** The first group of an encoding that starts on a line holding `line` letters. */
  lemma {:induction false} EncodeFromCons(o: Options, data: seq<byte>, line: nat)
    requires |data| >= 3
    ensures var e := EmitQuartet(o, Emitted([], line), data[..3]);
            EncodeFrom(o, data, line) == e.text + EncodeFrom(o, data[3..], e.line)
  {
    hide Emit, EmitQuartet, Padded, Whole, Rest;
    EmitCons(o, Whole(data), line);
    WholeCons(data);
    var e := EmitQuartet(o, Emitted([], line), data[..3]);
    var (r, p) := (Emit(o, Whole(data[3..]), e.line).text, Padded(o, Rest(data[3..])));
    assert e.text + r + p == e.text + (r + p);
  }

  lemma {:induction false} WholeCons(data: seq<byte>)
    requires |data| >= 3
    ensures |Whole(data)| >= 3 && Whole(data)[..3] == data[..3]
    ensures Whole(data)[3..] == Whole(data[3..]) && Rest(data) == Rest(data[3..])
  {
    var n := |data| % 3;
    SameRest(|data|);
    assert Whole(data) == data[..|data| - n] && Whole(data[3..]) == data[3..][..|data| - 3 - n];
  }

  lemma {:induction false} SameRest(n: nat)
    requires n >= 3
    ensures (n - 3) % 3 == n % 3 && n - n % 3 >= 3
  {
  }

  /** An encoding of fewer than three bytes is their padded quartet. */
  lemma {:induction false} EncodeFromShort(o: Options, data: seq<byte>, line: nat)
    requires |data| < 3
    ensures EncodeFrom(o, data, line) == Padded(o, data)
  {
    hide Padded;
    assert Whole(data) == [] && Rest(data) == data;
  }

  /** Without line breaks the text does not depend on where the line starts. */
  lemma {:induction false} EmitLineFree(o: Options, data: seq<byte>, line: nat, line': nat)
    requires |data| % 3 == 0 && !o.breakLines
    ensures Emit(o, data, line).text == Emit(o, data, line').text
  {
    hide Block;
    if data != [] {
      EmitLineFree(o, data[..|data| - 3], line, line');
    }
  }

  lemma {:induction false} EncodeLineFree(o: Options, data: seq<byte>, line: nat)
    requires !o.breakLines
    ensures EncodeFrom(o, data, line) == Encode(o, data)
  {
    hide Emit, Padded;
    EmitLineFree(o, Whole(data), line, 0);
  }
}
