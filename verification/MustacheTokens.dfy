/** Flat tokens, the token tree, and the two passes that lead from one to the other. */
module MustacheTokens {
  import opened Wrappers

  datatype Kind = Text | Name | Open | Inverted | Close | Partial | Raw | Delimiters | Comment

  datatype Token = Token(kind: Kind, value: string, start: nat, end: nat)

  /** A token tree. A section keeps its closing token, of which a renderer needs the start only. */
  datatype Node = Leaf(token: Token) | Section(open: Token, kids: seq<Node>, close: Token)

  predicate IsOpening(t: Token) { t.kind.Open? || t.kind.Inverted? }

  // ---------- the tree as a flat list ----------

  function FlattenNode(n: Node): seq<Token> {
    match n
    case Leaf(t) => [t]
    case Section(open, kids, close) => [open] + Flatten(kids) + [close]
  }

  /** The flat list of a tree, closing tags put back. */
  function Flatten(nodes: seq<Node>): seq<Token> {
    if nodes == [] then [] else Flatten(nodes[..|nodes| - 1]) + FlattenNode(nodes[|nodes| - 1])
  }

  /** Sections stand on opening and closing tags, leaves on anything else. */
  ghost predicate ProperNode(n: Node) {
    match n
    case Leaf(t) => !IsOpening(t) && !t.kind.Close?
    case Section(open, kids, close) => IsOpening(open) && close.kind.Close? && Proper(kids)
  }

  ghost predicate Proper(nodes: seq<Node>) {
    nodes == [] || (Proper(nodes[..|nodes| - 1]) && ProperNode(nodes[|nodes| - 1]))
  }

  /** Opening and closing tags of a section carry the same name. */
  ghost predicate NamedNode(n: Node) {
    match n
    case Leaf(t) => true
    case Section(open, kids, close) => open.value == close.value && Named(kids)
  }

  ghost predicate Named(nodes: seq<Node>) {
    nodes == [] || (Named(nodes[..|nodes| - 1]) && NamedNode(nodes[|nodes| - 1]))
  }

  // ---------- nesting ----------

  /** An open section and the nodes that stood before it at its level. */
  datatype Frame = Frame(before: seq<Node>, open: Token)

  /** The nester between two tokens: the nodes collected at the current level, and the open sections. */
  datatype Nesting = Nesting(collector: seq<Node>, sections: seq<Frame>)

  /** One token; closing with no section open has no result. */
  function NestStep(st: Nesting, t: Token): Option<Nesting> {
    if IsOpening(t) then Some(Nesting([], st.sections + [Frame(st.collector, t)]))
    else if t.kind.Close? then
      if st.sections == [] then None
      else
        var n := |st.sections| - 1;
        var frame := st.sections[n];
        Some(Nesting(frame.before + [Section(frame.open, st.collector, t)], st.sections[..n]))
    else Some(Nesting(st.collector + [Leaf(t)], st.sections))
  }

  function NestRun(tokens: seq<Token>): Option<Nesting> {
    if tokens == [] then Some(Nesting([], []))
    else match NestRun(tokens[..|tokens| - 1])
      case None => None
      case Some(st) => NestStep(st, tokens[|tokens| - 1])
  }

  /** Every section is opened before it is closed, and closed. */
  predicate Balanced(tokens: seq<Token>) {
    NestRun(tokens).Some? && NestRun(tokens).value.sections == []
  }

  function Nest(tokens: seq<Token>): seq<Node>
    requires Balanced(tokens)
  {
    NestRun(tokens).value.collector
  }

  lemma {:induction false} NestSnoc(a: seq<Token>, t: Token)
    ensures NestRun(a + [t]) == match NestRun(a) case None => None case Some(st) => NestStep(st, t)
  {
    hide NestStep;
    assert (a + [t])[..|a + [t]| - 1] == a;
  }

  /** Running on over a flattened tree collects the tree at the current level. */
  lemma {:induction false} NestFlatten(a: seq<Token>, st: Nesting, nodes: seq<Node>)
    requires NestRun(a) == Some(st) && Proper(nodes)
    ensures NestRun(a + Flatten(nodes)) == Some(Nesting(st.collector + nodes, st.sections))
    decreases nodes, 1
  {
    hide NestRun, NestStep, FlattenNode, ProperNode;
    if nodes == [] {
      assert a + [] == a && st.collector + [] == st.collector;
    } else {
      var before, n := nodes[..|nodes| - 1], nodes[|nodes| - 1];
      NestFlatten(a, st, before);
      NestFlattenNode(a + Flatten(before), Nesting(st.collector + before, st.sections), n);
      assert a + Flatten(nodes) == a + Flatten(before) + FlattenNode(n);
      assert st.collector + before + [n] == st.collector + nodes;
    }
  }

  lemma {:induction false} NestFlattenNode(a: seq<Token>, st: Nesting, n: Node)
    requires NestRun(a) == Some(st) && ProperNode(n)
    ensures NestRun(a + FlattenNode(n)) == Some(Nesting(st.collector + [n], st.sections))
    decreases n, 0
  {
    hide NestRun;
    match n {
      case Leaf(t) => NestSnoc(a, t);
      case Section(open, kids, close) =>
        NestSnoc(a, open);
        var inner := Nesting([], st.sections + [Frame(st.collector, open)]);
        NestFlatten(a + [open], inner, kids);
        assert [] + kids == kids;
        NestSnoc(a + [open] + Flatten(kids), close);
        assert a + FlattenNode(n) == a + [open] + Flatten(kids) + [close];
        assert (st.sections + [Frame(st.collector, open)])[..|st.sections|] == st.sections;
    }
  }

  /** Nesting undoes flattening. */
  lemma {:induction false} NestAfterFlatten(nodes: seq<Node>)
    requires Proper(nodes)
    ensures Balanced(Flatten(nodes)) && Nest(Flatten(nodes)) == nodes
  {
    hide NestStep;
    NestFlatten([], Nesting([], []), nodes);
    assert [] + Flatten(nodes) == Flatten(nodes) && [] + nodes == nodes;
  }

  /** The tokens behind the open sections. */
  function FlattenFrames(frames: seq<Frame>): seq<Token> {
    if frames == [] then []
    else
      var f := frames[|frames| - 1];
      FlattenFrames(frames[..|frames| - 1]) + (Flatten(f.before) + [f.open])
  }

  ghost predicate ProperFrames(frames: seq<Frame>) {
    forall k | 0 <= k < |frames| :: Proper(frames[k].before) && IsOpening(frames[k].open)
  }

  lemma {:induction false} FlattenSnoc(nodes: seq<Node>, n: Node)
    ensures Flatten(nodes + [n]) == Flatten(nodes) + FlattenNode(n)
    ensures Proper(nodes + [n]) <==> Proper(nodes) && ProperNode(n)
    ensures Named(nodes + [n]) <==> Named(nodes) && NamedNode(n)
  {
    hide FlattenNode, ProperNode, NamedNode;
    assert (nodes + [n])[..|nodes + [n]| - 1] == nodes;
  }

  lemma {:induction false} FlattenFramesSnoc(frames: seq<Frame>, f: Frame)
    ensures FlattenFrames(frames + [f]) == FlattenFrames(frames) + (Flatten(f.before) + [f.open])
  {
    hide Flatten;
    assert (frames + [f])[..|frames + [f]| - 1] == frames;
  }

  /** The nester never loses or reorders a token. */
  lemma {:induction false} NestKeepsTokens(tokens: seq<Token>)
    requires NestRun(tokens).Some?
    ensures var st := NestRun(tokens).value;
            && FlattenFrames(st.sections) + Flatten(st.collector) == tokens
            && ProperFrames(st.sections) && Proper(st.collector)
  {
    hide NestStep, FlattenFrames, Flatten;
    if tokens == [] {
      NothingFlattened();
    } else {
      var before, t := tokens[..|tokens| - 1], tokens[|tokens| - 1];
      NestKeepsTokens(before);
      StepKeepsTokens(NestRun(before).value, t, before);
      assert before + [t] == tokens;
    }
  }

  lemma {:induction false} NothingFlattened()
    ensures FlattenFrames([]) + Flatten([]) == [] && Proper([])
  {
  }

  lemma {:induction false} StepKeepsTokens(st: Nesting, t: Token, before: seq<Token>)
    requires NestStep(st, t).Some?
    requires FlattenFrames(st.sections) + Flatten(st.collector) == before
    requires ProperFrames(st.sections) && Proper(st.collector)
    ensures var next := NestStep(st, t).value;
            && FlattenFrames(next.sections) + Flatten(next.collector) == before + [t]
            && ProperFrames(next.sections) && Proper(next.collector)
  {
    hide FlattenFrames, Flatten, Proper;
    if IsOpening(t) {
      FlattenFramesSnoc(st.sections, Frame(st.collector, t));
      NothingFlattened();
      EmptyFlat();
      assert FlattenFrames(st.sections) + (Flatten(st.collector) + [t]) == before + [t];
    } else if t.kind.Close? {
      var n := |st.sections| - 1;
      var (outer, f) := (st.sections[..n], st.sections[n]);
      assert outer + [f] == st.sections;
      FlattenFramesSnoc(outer, f);
      var s := Section(f.open, st.collector, t);
      FlattenSnoc(f.before, s);
      SectionFlat(s);
      assert ProperNode(s);
      assert FlattenFrames(outer) + (Flatten(f.before) + ([f.open] + Flatten(st.collector) + [t]))
          == FlattenFrames(outer) + (Flatten(f.before) + [f.open]) + Flatten(st.collector) + [t];
    } else {
      FlattenSnoc(st.collector, Leaf(t));
      LeafFlat(t);
      assert FlattenFrames(st.sections) + (Flatten(st.collector) + [t]) == before + [t];
    }
  }

  lemma {:induction false} EmptyFlat()
    ensures Flatten([]) == [] && Proper([])
  {
  }

  lemma {:induction false} LeafFlat(t: Token)
    ensures FlattenNode(Leaf(t)) == [t]
  {
  }

  lemma {:induction false} SectionFlat(s: Node)
    requires s.Section?
    ensures FlattenNode(s) == [s.open] + Flatten(s.kids) + [s.close]
  {
    hide Flatten;
  }

  /** Flattening undoes nesting. */
  lemma {:induction false} FlattenAfterNest(tokens: seq<Token>)
    requires Balanced(tokens)
    ensures Flatten(Nest(tokens)) == tokens && Proper(Nest(tokens))
  {
    hide NestRun, Flatten, Proper;
    NestKeepsTokens(tokens);
    NothingFlattened();
    assert FlattenFrames([]) == [];
    assert [] + Flatten(Nest(tokens)) == Flatten(Nest(tokens));
  }

  /** Builds the tree with one collector and a stack of open sections. */
  method NestTokens(tokens: seq<Token>) returns (nested: seq<Node>)
    requires Balanced(tokens)
    ensures nested == Nest(tokens)
  {
    hide NestRun;
    nested := [];
    var collector, sections := [], [];
    NestNothing(tokens);
    for i := 0 to |tokens|
      invariant NestRun(tokens[..i]) == Some(Nesting(collector, sections))
    {
      var token := tokens[i];
      NestNext(tokens, i);
      match token.kind {
        case Open =>
          sections := sections + [Frame(collector, token)];
          collector := [];
        case Inverted =>
          sections := sections + [Frame(collector, token)];
          collector := [];
        case Close =>
          var section := sections[|sections| - 1];
          sections := sections[..|sections| - 1];
          collector := section.before + [Section(section.open, collector, token)];
        case _ =>
          collector := collector + [Leaf(token)];
      }
    }
    assert tokens[..|tokens|] == tokens;
    nested := collector;
  }

  lemma {:induction false} NestNothing(tokens: seq<Token>)
    ensures NestRun(tokens[..0]) == Some(Nesting([], []))
  {
  }

  /** No prefix of a balanced list closes a section that is not open. */
  lemma {:induction false} NestNext(tokens: seq<Token>, i: nat)
    requires i < |tokens| && NestRun(tokens).Some? && NestRun(tokens[..i]).Some?
    ensures NestStep(NestRun(tokens[..i]).value, tokens[i]).Some?
    ensures NestRun(tokens[..i + 1]) == NestStep(NestRun(tokens[..i]).value, tokens[i])
  {
    hide NestStep, NestRun;
    NestSnoc(tokens[..i], tokens[i]);
    assert tokens[..i] + [tokens[i]] == tokens[..i + 1];
    NestPrefix(tokens, i + 1);
  }

  lemma {:induction false} NestPrefix(tokens: seq<Token>, n: nat)
    requires n <= |tokens| && NestRun(tokens).Some?
    ensures NestRun(tokens[..n]).Some?
    decreases |tokens|
  {
    hide NestStep;
    if n < |tokens| {
      assert tokens[..|tokens| - 1][..n] == tokens[..n];
      NestPrefix(tokens[..|tokens| - 1], n);
    } else {
      assert tokens[..n] == tokens;
    }
  }
}
