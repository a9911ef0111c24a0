/** Templates written out from a tree are parsed back to that tree. */
module MustacheWritten {
  import opened Wrappers
  import opened MustacheScanner
  import opened MustacheTokens
  import opened MustacheSquash
  import opened MustacheLines
  import opened MustacheLexer
  import opened MustacheParser
  import opened MustacheTiles
  import opened MustacheReading
  import opened MustacheFidelity

  // ---------- writing ----------

  /** A piece of a template: text, a tag, or a section between two tags. */
  datatype Piece =
    | Plain(text: string)
    | Tag(kind: Kind, parts: Parts)
    | Block(kind: Kind, open: Parts, kids: seq<Piece>, close: Parts)

  function WrittenPiece(d: Piece, tags: TagPair): string
    decreases d, 0
  {
    match d
    case Plain(text) => text
    case Tag(_, parts) => Spelling(parts, tags)
    case Block(_, open, kids, close) => Spelling(open, tags) + Written(kids, tags) + Spelling(close, tags)
  }

  function Written(docs: seq<Piece>, tags: TagPair): string
    decreases docs, 1
  {
    if docs == [] then "" else WrittenPiece(docs[0], tags) + Written(docs[1..], tags)
  }

  /**
   * Pieces that can be read back: text without newlines in which no tag begins, readable tags with the
   * symbol of their kind, sections closed under their name. `end` says whether nothing follows.
   */
  predicate WellPiece(d: Piece, tags: TagPair, end: bool)
    decreases d, 0
  {
    match d
    case Plain(text) => text != "" && '\n' !in text && NotIn(tags.open, text, if end then "" else tags.open)
    case Tag(kind, parts) =>
      && kind in {Name, Partial, Raw, Comment}
      && Stands(parts.symbol, kind) && Readable(parts, tags)
    case Block(kind, open, kids, close) =>
      && kind in {Open, Inverted} && Stands(open.symbol, kind) && Readable(open, tags)
      && Well(kids, tags, false)
      && close.symbol == "/" && close.value == open.value && Readable(close, tags)
  }

  predicate Well(docs: seq<Piece>, tags: TagPair, end: bool)
    decreases docs, 1
  {
    docs == []
    || (&& WellPiece(docs[0], tags, end && |docs| == 1) && Well(docs[1..], tags, end)
        && !(|docs| > 1 && docs[0].Plain? && docs[1].Plain?))
  }

  /** The node a piece stands for when it is written from `pos` on. */
  function BuiltPiece(d: Piece, tags: TagPair, pos: nat): Node
    decreases d, 0
  {
    match d
    case Plain(text) => Leaf(Token(Text, text, pos, pos + |text|))
    case Tag(kind, parts) => Leaf(Token(kind, parts.value, pos, pos + |Spelling(parts, tags)|))
    case Block(kind, open, kids, close) =>
      var inner := pos + |Spelling(open, tags)|;
      var outer := inner + |Written(kids, tags)|;
      Section(Token(kind, open.value, pos, inner), Built(kids, tags, inner),
              Token(Close, close.value, outer, outer + |Spelling(close, tags)|))
  }

  function Built(docs: seq<Piece>, tags: TagPair, pos: nat): seq<Node>
    decreases docs, 1
  {
    if docs == [] then []
    else [BuiltPiece(docs[0], tags, pos)] + Built(docs[1..], tags, pos + |WrittenPiece(docs[0], tags)|)
  }

  // ---------- the tree before squashing ----------

  function CharLeaves(text: string, pos: nat): (r: seq<Node>)
    ensures |r| == |text|
  {
    seq(|text|, i requires 0 <= i < |text| => Leaf(Token(Text, [text[i]], pos + i, pos + i + 1)))
  }

  /** The same nodes with a leaf for each character of text. */
  function LoosePiece(d: Piece, tags: TagPair, pos: nat): seq<Node>
    decreases d, 0
  {
    match d
    case Plain(text) => CharLeaves(text, pos)
    case Tag(_, _) => [BuiltPiece(d, tags, pos)]
    case Block(kind, open, kids, close) =>
      var inner := pos + |Spelling(open, tags)|;
      var outer := inner + |Written(kids, tags)|;
      [Section(Token(kind, open.value, pos, inner), Loose(kids, tags, inner),
               Token(Close, close.value, outer, outer + |Spelling(close, tags)|))]
  }

  function Loose(docs: seq<Piece>, tags: TagPair, pos: nat): seq<Node>
    decreases docs, 1
  {
    if docs == [] then []
    else LoosePiece(docs[0], tags, pos) + Loose(docs[1..], tags, pos + |WrittenPiece(docs[0], tags)|)
  }

  // ---------- trees in a row ----------

  /** Trees that the parser's passes leave alone but for joining text. */
  ghost predicate Sound(nodes: seq<Node>) {
    Proper(nodes) && Named(nodes) && forall k | 0 <= k < |Flatten(nodes)| :: !IsNewline(Flatten(nodes)[k])
  }

  lemma {:induction false} FlattenCat(a: seq<Node>, b: seq<Node>)
    ensures Flatten(a + b) == Flatten(a) + Flatten(b)
    ensures Proper(a) && Proper(b) ==> Proper(a + b)
    ensures Named(a) && Named(b) ==> Named(a + b)
  {
    hide FlattenNode, ProperNode, NamedNode;
    if b == [] {
      assert a + b == a;
    } else {
      var n := |b| - 1;
      FlattenCat(a, b[..n]);
      assert (a + b)[..|a + b| - 1] == a + b[..n] && (a + b)[|a + b| - 1] == b[n];
    }
  }

  lemma {:induction false} SoundCat(a: seq<Node>, b: seq<Node>)
    requires Sound(a) && Sound(b)
    ensures Sound(a + b)
  {
    hide Flatten, Proper, Named, IsNewline;
    FlattenCat(a, b);
  }

  lemma {:induction false} SoundLeaf(t: Token)
    requires !IsOpening(t) && t.kind != Close && !IsNewline(t)
    ensures Sound([Leaf(t)]) && Flatten([Leaf(t)]) == [t]
  {
    hide IsNewline, Flatten, Proper, Named;
    OneNode(Leaf(t));
  }

  /** A list of one node. */
  lemma {:induction false} OneNode(n: Node)
    ensures Flatten([n]) == FlattenNode(n) && (Proper([n]) <==> ProperNode(n)) && (Named([n]) <==> NamedNode(n))
  {
    hide FlattenNode, ProperNode, NamedNode;
    FlattenSnoc([], n);
    NothingIsSound();
    assert [] + [n] == [n] && [] + FlattenNode(n) == FlattenNode(n);
  }

  lemma {:induction false} SoundSection(open: Token, kids: seq<Node>, close: Token)
    requires IsOpening(open) && close.kind == Close && open.value == close.value && Sound(kids)
    ensures var n := Section(open, kids, close);
            Sound([n]) && Flatten([n]) == [open] + Flatten(kids) + [close]
  {
    hide IsNewline, Flatten, Proper, Named;
    OneNode(Section(open, kids, close));
    TagsAreNoNewlines(open); TagsAreNoNewlines(close);
  }

  lemma {:induction false} TagsAreNoNewlines(t: Token)
    requires t.kind != Text
    ensures !IsNewline(t)
  {
  }

  lemma {:induction false} SoundText(text: string, pos: nat)
    requires '\n' !in text
    ensures Sound(CharLeaves(text, pos)) && Flatten(CharLeaves(text, pos)) == TextTokens(text, pos)
  {
    if text != "" {
      var n := |text| - 1;
      SoundText(text[..n], pos);
      var t := Token(Text, [text[n]], pos + n, pos + n + 1);
      assert CharLeaves(text, pos) == CharLeaves(text[..n], pos) + [Leaf(t)];
      assert TextTokens(text, pos) == TextTokens(text[..n], pos) + [t];
      SoundLeaf(t);
      SoundCat(CharLeaves(text[..n], pos), [Leaf(t)]);
      FlattenCat(CharLeaves(text[..n], pos), [Leaf(t)]);
    }
  }

  lemma {:induction false} LooseIsSound(docs: seq<Piece>, tags: TagPair, pos: nat, end: bool)
    requires Well(docs, tags, end)
    ensures Sound(Loose(docs, tags, pos))
    decreases docs, 1
  {
    hide Sound, WellPiece, LoosePiece, WrittenPiece;
    if docs == [] {
      NothingIsSound();
    } else {
      LoosePieceIsSound(docs[0], tags, pos, end && |docs| == 1);
      var next := pos + |WrittenPiece(docs[0], tags)|;
      LooseIsSound(docs[1..], tags, next, end);
      SoundCat(LoosePiece(docs[0], tags, pos), Loose(docs[1..], tags, next));
    }
  }

  lemma {:induction false} NothingIsSound()
    ensures Sound([]) && Flatten([]) == [] && Proper([]) && Named([])
  {
  }

  lemma {:induction false} LoosePieceIsSound(d: Piece, tags: TagPair, pos: nat, end: bool)
    requires WellPiece(d, tags, end)
    ensures Sound(LoosePiece(d, tags, pos))
    decreases d, 0
  {
    hide Sound, Readable, Stands, NotIn, Well, Loose;
    match d {
      case Plain(text) => SoundText(text, pos);
      case Tag(kind, parts) => SoundLeaf(Token(kind, parts.value, pos, pos + |Spelling(parts, tags)|));
      case Block(kind, open, kids, close) =>
        var inner := pos + |Spelling(open, tags)|;
        var outer := inner + |Written(kids, tags)|;
        LooseIsSound(kids, tags, inner, false);
        SoundSection(Token(kind, open.value, pos, inner), Loose(kids, tags, inner),
                     Token(Close, close.value, outer, outer + |Spelling(close, tags)|));
    }
  }

  // ---------- squashing ----------

  predicate IsText(n: Node) { n.Leaf? && n.token.kind == Text }

  lemma {:induction false} SquashEnds(nodes: seq<Node>)
    ensures nodes == [] <==> SquashTree(nodes) == []
    ensures nodes != [] ==> (IsText(nodes[|nodes| - 1]) <==> IsText(SquashTree(nodes)[|SquashTree(nodes)| - 1]))
  {
    if nodes != [] { SquashEnds(nodes[..|nodes| - 1]); }
  }

  /** Trees side by side are squashed on their own unless text meets text. */
  lemma {:induction false} SquashCat(a: seq<Node>, b: seq<Node>)
    requires a == [] || b == [] || !IsText(a[|a| - 1]) || !IsText(b[0])
    ensures SquashTree(a + b) == SquashTree(a) + SquashTree(b)
  {
    hide SquashNode, SquashTree, AddNode, IsText;
    if b == [] {
      NoTree();
      assert a + b == a && SquashTree(a) + [] == SquashTree(a);
    } else {
      var (n, x) := (|b| - 1, b[|b| - 1]);
      SquashCat(a, b[..n]);
      SquashEnds(a);
      SquashEnds(b[..n]);
      assert a + b == (a + b[..n]) + [x] && b == b[..n] + [x];
      SquashTreeSnoc(a + b[..n], x);
      SquashTreeSnoc(b[..n], x);
      SquashedKind(x);
      AddToCat(SquashTree(a), SquashTree(b[..n]), SquashNode(x));
    }
  }

  lemma {:induction false} SquashedKind(x: Node)
    ensures IsText(SquashNode(x)) <==> IsText(x)
    ensures SquashNode(x).Leaf? <==> x.Leaf?
  {
  }

  lemma {:induction false} AddToCat(a: seq<Node>, b: seq<Node>, x: Node)
    requires b != [] || a == [] || !IsText(a[|a| - 1]) || !IsText(x)
    ensures AddNode(a + b, x) == a + AddNode(b, x)
  {
    if b != [] {
      assert (a + b)[|a + b| - 1] == b[|b| - 1];
      assert (a + b)[..|a + b| - 1] == a + b[..|b| - 1];
    } else {
      assert a + b == a;
    }
  }

  lemma {:induction false} SquashText(text: string, pos: nat)
    requires text != ""
    ensures SquashTree(CharLeaves(text, pos)) == [Leaf(Token(Text, text, pos, pos + |text|))]
  {
    hide SquashTree, AddNode;
    var n := |text| - 1;
    var last := Token(Text, [text[n]], pos + n, pos + n + 1);
    assert CharLeaves(text, pos) == CharLeaves(text[..n], pos) + [Leaf(last)];
    SquashTreeSnoc(CharLeaves(text[..n], pos), Leaf(last));
    if n > 0 {
      SquashText(text[..n], pos);
      assert text[..n] + [text[n]] == text;
      AddText(Token(Text, text[..n], pos, pos + n), last);
    } else {
      NoTree();
      AddFirst(Leaf(last));
      assert [text[0]] == text;
    }
  }

  lemma {:induction false} AddText(t: Token, u: Token)
    requires t.kind == u.kind == Text
    ensures AddNode([Leaf(t)], Leaf(u)) == [Leaf(Token(Text, t.value + u.value, t.start, u.end))]
  {
    assert [Leaf(t)][..0] == [];
  }

  lemma {:induction false} AddFirst(n: Node)
    ensures AddNode([], n) == [n]
  {
  }

  lemma {:induction false} LooseSquashes(docs: seq<Piece>, tags: TagPair, pos: nat, end: bool)
    requires Well(docs, tags, end)
    ensures SquashTree(Loose(docs, tags, pos)) == Built(docs, tags, pos)
    decreases docs, 1
  {
    hide WellPiece, LoosePiece, WrittenPiece, BuiltPiece, SquashTree;
    if docs == [] {
      NoTree();
    } else {
      var next := pos + |WrittenPiece(docs[0], tags)|;
      LoosePieceSquashes(docs[0], tags, pos, end && |docs| == 1);
      LooseSquashes(docs[1..], tags, next, end);
      LoosePieceEnds(docs[0], tags, pos, end && |docs| == 1);
      if |docs| > 1 {
        LoosePieceEnds(docs[1], tags, next, end && |docs| == 2);
        assert docs[1..][0] == docs[1];
      }
      SquashCat(LoosePiece(docs[0], tags, pos), Loose(docs[1..], tags, next));
    }
  }

  lemma {:induction false} LoosePieceEnds(d: Piece, tags: TagPair, pos: nat, end: bool)
    requires WellPiece(d, tags, end)
    ensures var nodes := LoosePiece(d, tags, pos);
            nodes != [] && (IsText(nodes[0]) <==> d.Plain?) && (IsText(nodes[|nodes| - 1]) <==> d.Plain?)
  {
    hide Readable, Stands, NotIn, Well, Loose, Written, Spelling;
  }

  lemma {:induction false} LoosePieceSquashes(d: Piece, tags: TagPair, pos: nat, end: bool)
    requires WellPiece(d, tags, end)
    ensures SquashTree(LoosePiece(d, tags, pos)) == [BuiltPiece(d, tags, pos)]
    decreases d, 0
  {
    hide Readable, Stands, NotIn, Well, Loose, Written, Spelling, SquashTree;
    if d.Plain? {
      SquashText(d.text, pos);
    } else {
      var n := LoosePiece(d, tags, pos)[0];
      if d.Block? { LooseSquashes(d.kids, tags, pos + |Spelling(d.open, tags)|, false); }
      NoTree();
      SquashTreeSnoc([], n);
      assert [] + [n] == [n] && [] + [SquashNode(n)] == [SquashNode(n)];
    }
  }

  // ---------- lexing ----------

  lemma {:induction false} BeforeBefore(a: seq<Token>, b: seq<Token>, lx: Lexed)
    ensures Before(a, Before(b, lx)) == Before(a + b, lx)
  {
    assert a + (b + lx.tokens) == a + b + lx.tokens;
  }

  lemma {:induction false} LexSpelled(p: Parts, kind: Kind, pos: nat, more: string, tags: Tags)
    requires Readable(p, tags) && Stands(p.symbol, kind) && kind != Delimiters
    ensures var n := |Spelling(p, tags)|;
            Lex(Spelling(p, tags) + more, pos, tags)
            == Before([Token(kind, p.value, pos, pos + n)], Lex(more, pos + n, tags))
  {
    hide ReadTag, Lex, Readable, Stands, Spelling, ScanText, MatchAt;
    var tail := Spelling(p, tags) + more;
    var n := |Spelling(p, tags)|;
    var t := Token(kind, p.value, pos, pos + n);
    TagReadsBack(p, tags, kind, more);
    TagNow(tail, pos, tags, t);
    TagTakes(tail, tags);
    SameTags(tail, tags);
    LexTagAhead(tail, pos, tags, "", tail, t);
    assert TextTokens("", pos) + [t] == [t];
    assert tail[n..] == more;
  }

  lemma {:induction false} SameTags(tail: string, tags: Tags)
    requires ScanText(Opening(tags), tail) != "" && ReadTag(tail, tags).closed
    requires ReadTag(tail, tags).kind != Delimiters
    ensures NextTags(tail, tags) == Some(tags)
  {
    hide ReadTag, ScanText;
  }

  lemma {:induction false} TagNow(tail: string, pos: nat, tags: Tags, t: Token)
    requires MatchAt(Opening(tags), tail).Some? && ScanText(Opening(tags), tail) != ""
    requires var tag := ReadTag(tail, tags); t == Token(tag.kind, tag.value, pos, pos + tag.length)
    ensures NextTag(tail, pos, tags, "", tail, t)
  {
    hide ReadTag, ScanText, MatchAt;
    assert tail[0..] == tail;
    SearchFinds(Opening(tags), tail, 0);
    assert tail != "" by { NoScan(Opening(tags)); }
    IsNextTag(tail, pos, tags, "", tail, t);
  }

  lemma {:induction false} NoScan(re: Regex)
    ensures ScanText(re, "") == ""
  {
  }

  lemma {:induction false} LexPlain(text: string, pos: nat, more: string, tags: Tags)
    requires text != "" && (more == "" || tags.open <= more)
    requires NotIn(tags.open, text, if more == "" then "" else tags.open)
    ensures Lex(text + more, pos, tags) == Before(TextTokens(text, pos), Lex(more, pos + |text|, tags))
  {
    hide ReadTag, ScanText, NextTags, TextTokens, NotIn;
    var (tail, chars) := (text + more, TextTokens(text, pos));
    assert chars + [] == chars;
    if more == "" {
      assert tail == text;
      NoOpening(text, tags);
    } else {
      OpeningAt(text, more, tags);
      assert tail[|text|..] == more;
      LexFrom(text, pos, more, tags);
    }
  }

  lemma {:induction false} NoOpening(text: string, tags: Tags)
    requires NotIn(tags.open, text, "")
    ensures UntilText(Opening(tags), text) == text && ScanText(Opening(tags), "") == ""
  {
    hide UntilText;
    forall i: nat | i <= |text| ensures MatchAt(Opening(tags), text[i..]).None? {
      assert text + "" == text;
    }
    UntilEnd(Opening(tags), text);
  }

  lemma {:induction false} OpeningAt(text: string, more: string, tags: Tags)
    requires tags.open <= more && NotIn(tags.open, text, tags.open)
    ensures UntilText(Opening(tags), text + more) == text && UntilText(Opening(tags), more) == ""
    ensures ScanText(Opening(tags), more) != ""
  {
    hide UntilText, NotIn, Search;
    var tail := text + more;
    var rest := more[|tags.open|..];
    assert more == tags.open + rest && tail == text + (tags.open + rest);
    NotInMore(tags.open, text, tags.open, rest);
    assert tail[|text|..] == more && more[0..] == more;
    forall i: nat | i < |text| ensures MatchAt(Opening(tags), tail[i..]).None? { NotAt(tags.open, text, more, i); }
    SearchFinds(Opening(tags), tail, |text|);
    SearchFinds(Opening(tags), more, 0);
  }

  lemma {:induction false} NotAt(literal: string, value: string, follow: string, i: nat)
    requires NotIn(literal, value, follow) && i < |value|
    ensures !(literal <= (value + follow)[i..])
  {
  }

  lemma {:induction false} LexFrom(text: string, pos: nat, more: string, tags: Tags)
    requires UntilText(Opening(tags), text + more) == text && UntilText(Opening(tags), more) == ""
    requires text != "" && more != "" && ScanText(Opening(tags), more) != ""
    ensures Lex(text + more, pos, tags) == Before(TextTokens(text, pos), Lex(more, pos + |text|, tags))
  {
    hide ReadTag, UntilText, ScanText, TextTokens, NextTags;
    var (tail, chars, start) := (text + more, TextTokens(text, pos), pos + |text|);
    assert tail[|text|..] == more && more[0..] == more;
    assert TextTokens("", start) == [] by { NoText(start); }
    var tag := ReadTag(more, tags);
    var token := Token(tag.kind, tag.value, start, start + tag.length);
    assert [] + [token] == [token] && chars + [] == chars;
    if tag.closed && NextTags(more, tags).Some? {
      TagTakes(more, tags);
      BeforeBefore(chars, [token], Lex(more[tag.length..], token.end, NextTags(more, tags).value));
    }
  }

  lemma {:induction false} NoText(start: nat)
    ensures TextTokens("", start) == []
  {
  }

  lemma {:induction false} StartsWithTag(docs: seq<Piece>, tags: TagPair, more: string, end: bool)
    requires Well(docs, tags, end) && docs != [] && !docs[0].Plain?
    ensures tags.open <= Written(docs, tags) + more
  {
    hide Well, WellPiece;
    hide Spelling;
    var (d, after) := (docs[0], Written(docs[1..], tags) + more);
    if d.Tag? {
      TagStarts(d.parts, tags, after);
      assert Written(docs, tags) + more == Spelling(d.parts, tags) + after;
    } else {
      var rest := Written(d.kids, tags) + Spelling(d.close, tags) + after;
      TagStarts(d.open, tags, rest);
      assert Written(docs, tags) + more == Spelling(d.open, tags) + rest;
    }
  }

  lemma {:induction false} LexWritten(docs: seq<Piece>, pos: nat, more: string, tags: Tags, end: bool)
    requires Well(docs, tags, end) && (if end then more == "" else tags.open <= more)
    ensures Lex(Written(docs, tags) + more, pos, tags)
            == Before(Flatten(Loose(docs, tags, pos)), Lex(more, pos + |Written(docs, tags)|, tags))
    decreases docs, 1
  {
    hide WellPiece, WrittenPiece, LoosePiece, Lex, Flatten;
    if docs == [] {
      assert "" + more == more;
      NothingFlat();
      assert [] + Lex(more, pos, tags).tokens == Lex(more, pos, tags).tokens;
    } else {
      var (d, rest) := (docs[0], docs[1..]);
      var (text, follow, next) := (WrittenPiece(d, tags), Written(rest, tags) + more, pos + |WrittenPiece(d, tags)|);
      if |docs| > 1 && d.Plain? { StartsWithTag(rest, tags, more, end); }
      if |docs| == 1 { assert follow == more; }
      LexPiece(d, pos, follow, tags, end && |docs| == 1);
      LexWritten(rest, next, more, tags, end);
      assert Written(docs, tags) + more == text + follow;
      FlattenCat(LoosePiece(d, tags, pos), Loose(rest, tags, next));
      BeforeBefore(Flatten(LoosePiece(d, tags, pos)), Flatten(Loose(rest, tags, next)),
                   Lex(more, next + |Written(rest, tags)|, tags));
    }
  }

  lemma {:induction false} NothingFlat()
    ensures Flatten([]) == []
  {
  }

  lemma {:induction false} LexPiece(d: Piece, pos: nat, more: string, tags: Tags, end: bool)
    requires WellPiece(d, tags, end) && (d.Plain? ==> if end then more == "" else tags.open <= more)
    ensures Lex(WrittenPiece(d, tags) + more, pos, tags)
            == Before(Flatten(LoosePiece(d, tags, pos)), Lex(more, pos + |WrittenPiece(d, tags)|, tags))
    decreases d, 0
  {
    hide Readable, Stands, NotIn, Well, Loose, Written, Spelling, Lex, Flatten, Sound;
    match d {
      case Plain(text) =>
        LexPlain(text, pos, more, tags);
        SoundText(text, pos);
      case Tag(kind, parts) =>
        LexSpelled(parts, kind, pos, more, tags);
        SoundLeaf(Token(kind, parts.value, pos, pos + |Spelling(parts, tags)|));
      case Block(kind, open, kids, close) => LexBlock(d, pos, more, tags);
    }
  }

  lemma {:induction false} LexBlock(d: Piece, pos: nat, more: string, tags: Tags)
    requires d.Block? && WellPiece(d, tags, false)
    ensures Lex(WrittenPiece(d, tags) + more, pos, tags)
            == Before(Flatten(LoosePiece(d, tags, pos)), Lex(more, pos + |WrittenPiece(d, tags)|, tags))
    decreases d, 0, 0
  {
    hide Readable, NotIn, Well, Loose, Written, Spelling, Lex, Flatten, Sound;
    var (a, b, c) := (Spelling(d.open, tags), Written(d.kids, tags), Spelling(d.close, tags));
    var (inner, outer) := (pos + |a|, pos + |a| + |b|);
    var (open, close) := (Token(d.kind, d.open.value, pos, inner), Token(Close, d.close.value, outer, outer + |c|));
    assert WrittenPiece(d, tags) + more == a + (b + (c + more));
    LexSpelled(d.open, d.kind, pos, b + (c + more), tags);
    TagStarts(d.close, tags, more);
    LexWritten(d.kids, inner, c + more, tags, false);
    LexSpelled(d.close, Close, outer, more, tags);
    LooseIsSound(d.kids, tags, inner, false);
    var kids := Loose(d.kids, tags, inner);
    SoundSection(open, kids, close);
    var after := Lex(more, outer + |c|, tags);
    BeforeBefore(Flatten(kids), [close], after);
    BeforeBefore([open], Flatten(kids) + [close], after);
    assert [open] + (Flatten(kids) + [close]) == [open] + Flatten(kids) + [close];
  }

  lemma {:induction false} TagStarts(p: Parts, tags: TagPair, more: string)
    ensures tags.open <= Spelling(p, tags) + more
  {
    assert (Spelling(p, tags) + more)[..|tags.open|] == tags.open;
  }

  // ---------- parsing ----------

  /** A template whose tokens are a sound tree's is parsed to the tree with its text joined. */
  lemma {:induction false} ParseSound(template: string, tags: Tags, nodes: seq<Node>)
    requires Lex(template, 0, tags) == Lexed(Flatten(nodes), None) && Sound(nodes)
    ensures Parse(template, tags) == Success(SquashTree(nodes))
  {
    hide Lex, Flatten, Proper, Named, CheckRun, Strip, Squash, SquashTree, Nest, Balanced;
    var raw := Flatten(nodes);
    assert TreeOfTokens(nodes, raw);
    CheckDecidesNesting(raw);
    NothingDropped(raw);
    EndVerdict(template, tags, raw);
    NestAfterFlatten(nodes);
    NestOfSquash(raw);
    SquashIsRun(Strip(raw));
  }

  lemma {:induction false} SquashIsRun(tokens: seq<Option<Token>>)
    ensures Squash(tokens) == SquashRun(Compact(tokens))
  {
  }

  lemma {:induction false} NothingDropped(raw: seq<Token>)
    requires forall k | 0 <= k < |raw| :: !IsNewline(raw[k])
    ensures Compact(Strip(raw)) == raw
  {
    hide IsNewline;
    forall i | 0 <= i < |raw| ensures Strip(raw)[i] == Some(raw[i]) { }
    CompactAll(Strip(raw), raw);
  }

  lemma {:induction false} CompactAll(holes: seq<Option<Token>>, tokens: seq<Token>)
    requires |holes| == |tokens| && forall i | 0 <= i < |tokens| :: holes[i] == Some(tokens[i])
    ensures Compact(holes) == tokens
  {
    if tokens != [] {
      var n := |tokens| - 1;
      CompactAll(holes[..n], tokens[..n]);
      assert tokens[..n] + [tokens[n]] == tokens;
    }
  }

  lemma {:induction false} LexEnd(pos: nat, tags: Tags, tokens: seq<Token>)
    ensures Before(tokens, Lex("", pos, tags)) == Lexed(tokens, None)
  {
    NothingLeft("", pos, tags, tokens);
  }

  /** What is written out is parsed back, with every node where it was written. */
  lemma {:induction false} WrittenParsesBack(docs: seq<Piece>, tags: Tags)
    requires Well(docs, tags, true)
    ensures Parse(Written(docs, tags), tags) == Success(Built(docs, tags, 0))
  {
    hide Lex, Flatten, Sound, Well, Written, Loose, Built, Parse;
    LexWritten(docs, 0, "", tags, true);
    assert Written(docs, tags) + "" == Written(docs, tags);
    LexEnd(|Written(docs, tags)|, tags, Flatten(Loose(docs, tags, 0)));
    LooseIsSound(docs, tags, 0, true);
    ParseSound(Written(docs, tags), tags, Loose(docs, tags, 0));
    LooseSquashes(docs, tags, 0, true);
  }

  /** Behind a set-delimiter tag, what is written out in the delimiters it names is parsed back. */
  lemma {:induction false} SetThenParsesBack(docs: seq<Piece>, tags: Tags, lead: string, gap: string, w: Words,
                                             space: string, last: string)
    requires w.Usable() && AllSpace(lead) && AllSpace(gap) && AllSpace(space) && AllSpace(last)
    requires Well(docs, TagPair(w.a, w.b), true)
    ensures var (text, next) := (SetText(tags, lead, gap, w, space, last), TagPair(w.a, w.b));
            Parse(text + Written(docs, next), tags)
            == Success([Leaf(Token(Delimiters, w.Text(), 0, |text|))] + Built(docs, next, |text|))
  {
    hide Lex, Flatten, Sound, Well, Written, Loose, Built, Parse, SetText, SquashTree, Words.Usable, Words.Text;
    UsablePair(w);
    var next: Tags := TagPair(w.a, w.b);
    var (text, more) := (SetText(tags, lead, gap, w, space, last), Written(docs, next));
    var token := Token(Delimiters, w.Text(), 0, |text|);
    LexSet(docs, tags, lead, gap, w, space, last);
    var loose := Loose(docs, next, |text|);
    LooseIsSound(docs, next, |text|, true);
    TagsAreNoNewlines(token);
    SoundLeaf(token);
    SoundCat([Leaf(token)], loose);
    FlattenCat([Leaf(token)], loose);
    ParseSound(text + more, tags, [Leaf(token)] + loose);
    SquashCat([Leaf(token)], loose);
    NoTree();
    SquashTreeSnoc([], Leaf(token));
    assert [] + [Leaf(token)] == [Leaf(token)];
    LooseSquashes(docs, next, |text|, true);
  }

  lemma {:induction false} UsablePair(w: Words)
    requires w.Usable()
    ensures IsDelimiter(w.a) && IsDelimiter(w.b)
  {
  }

  lemma {:induction false} LexSet(docs: seq<Piece>, tags: Tags, lead: string, gap: string, w: Words,
                                  space: string, last: string)
    requires w.Usable() && AllSpace(lead) && AllSpace(gap) && AllSpace(space) && AllSpace(last)
    requires Well(docs, TagPair(w.a, w.b), true)
    ensures var (text, next) := (SetText(tags, lead, gap, w, space, last), TagPair(w.a, w.b));
            Lex(text + Written(docs, next), 0, tags)
            == Lexed([Token(Delimiters, w.Text(), 0, |text|)] + Flatten(Loose(docs, next, |text|)), None)
  {
    hide Lex, Flatten, Well, Written, Loose, SetText, ReadTag, ScanText, MatchAt, NextTags, AllSpace, After, NextTag;
    hide Words.Usable, Words.Text;
    UsablePair(w);
    var next: Tags := TagPair(w.a, w.b);
    var (text, more) := (SetText(tags, lead, gap, w, space, last), Written(docs, next));
    var token := Token(Delimiters, w.Text(), 0, |text|);
    SetReadsBack(tags, lead, gap, w, space, last, more);
    TagOpens(text + more, tags);
    TagNow(text + more, 0, tags, token);
    TagTakes(text + more, tags);
    LexTagAhead(text + more, 0, tags, "", text + more, token);
    assert TextTokens("", 0) + [token] == [token];
    assert (text + more)[|text|..] == more;
    LexWritten(docs, |text|, "", next, true);
    assert more + "" == more;
    LexEnd(|text| + |more|, next, Flatten(Loose(docs, next, |text|)));
  }
}
