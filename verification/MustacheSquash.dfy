/** Joining runs of text tokens, on flat lists and on trees. */
module MustacheSquash {
  import opened Wrappers
  import opened MustacheTokens

  /** A flat list with holes, the holes removed. */
  function Compact(tokens: seq<Option<Token>>): seq<Token> {
    if tokens == [] then []
    else
      Compact(tokens[..|tokens| - 1])
      + match tokens[|tokens| - 1] case None => [] case Some(t) => [t]
  }

  /** Two adjacent text tokens become one. */
  predicate Joins(last: Token, t: Token) { last.kind.Text? && t.kind.Text? }

  function Join(last: Token, t: Token): Token { last.(value := last.value + t.value, end := t.end) }

  function SquashStep(squashed: seq<Token>, t: Token): seq<Token> {
    var n := |squashed| - 1;
    if n >= 0 && Joins(squashed[n], t) then squashed[..n] + [Join(squashed[n], t)] else squashed + [t]
  }

  function SquashRun(tokens: seq<Token>): seq<Token> {
    if tokens == [] then [] else SquashStep(SquashRun(tokens[..|tokens| - 1]), tokens[|tokens| - 1])
  }

  function Squash(tokens: seq<Option<Token>>): seq<Token> { SquashRun(Compact(tokens)) }

  /** Extends the last text token in place while text follows text. */
  method SquashTokens(tokens: seq<Option<Token>>) returns (squashedTokens: seq<Token>)
    ensures squashedTokens == Squash(tokens)
  {
    hide Squash;
    squashedTokens := [];
    var lastToken := None;
    SquashNothing(tokens);
    for i := 0 to |tokens|
      invariant squashedTokens == Squash(tokens[..i])
      invariant lastToken == if squashedTokens == [] then None else Some(squashedTokens[|squashedTokens| - 1])
    {
      SquashNext(tokens, i);
      if tokens[i].Some? {
        var token := tokens[i].value;
        if token.kind.Text? && lastToken.Some? && lastToken.value.kind.Text? {
          lastToken := Some(Join(lastToken.value, token));
          squashedTokens := squashedTokens[..|squashedTokens| - 1] + [lastToken.value];
        } else {
          squashedTokens := squashedTokens + [token];
          lastToken := Some(token);
        }
      }
    }
    assert tokens[..|tokens|] == tokens;
  }

  lemma {:induction false} SquashNothing(tokens: seq<Option<Token>>)
    ensures Squash(tokens[..0]) == []
  {
  }

  lemma {:induction false} SquashNext(tokens: seq<Option<Token>>, i: nat)
    requires i < |tokens|
    ensures Squash(tokens[..i + 1]) ==
            match tokens[i] case None => Squash(tokens[..i]) case Some(t) => SquashStep(Squash(tokens[..i]), t)
  {
    hide SquashStep, SquashRun;
    assert tokens[..i + 1][..i] == tokens[..i];
    var c := Compact(tokens[..i]);
    if tokens[i].Some? {
      assert Compact(tokens[..i + 1]) == c + [tokens[i].value];
      SquashSnoc(c, tokens[i].value);
    } else {
      assert c + [] == c;
    }
  }

  lemma {:induction false} SquashSnoc(tokens: seq<Token>, t: Token)
    ensures SquashRun(tokens + [t]) == SquashStep(SquashRun(tokens), t)
  {
    hide SquashStep;
    assert (tokens + [t])[..|tokens + [t]| - 1] == tokens;
  }

  // ---------- squashing a tree ----------

  /** Appending a node, joining text to text. */
  function AddNode(nodes: seq<Node>, n: Node): seq<Node> {
    var k := |nodes| - 1;
    if k >= 0 && nodes[k].Leaf? && n.Leaf? && Joins(nodes[k].token, n.token) then
      nodes[..k] + [Leaf(Join(nodes[k].token, n.token))]
    else nodes + [n]
  }

  function SquashNode(n: Node): Node {
    match n
    case Leaf(_) => n
    case Section(open, kids, close) => Section(open, SquashTree(kids), close)
  }

  /** Every run of text leaves among siblings becomes one leaf. */
  function SquashTree(nodes: seq<Node>): seq<Node> {
    if nodes == [] then [] else AddNode(SquashTree(nodes[..|nodes| - 1]), SquashNode(nodes[|nodes| - 1]))
  }

  function SquashFrames(frames: seq<Frame>): (r: seq<Frame>)
    ensures |r| == |frames|
  {
    seq(|frames|, k requires 0 <= k < |frames| => Frame(SquashTree(frames[k].before), frames[k].open))
  }

  /** What nesting leads to, squashed. */
  function SquashNesting(st: Nesting): Nesting { Nesting(SquashTree(st.collector), SquashFrames(st.sections)) }

  lemma {:induction false} SquashTreeSnoc(nodes: seq<Node>, n: Node)
    ensures SquashTree(nodes + [n]) == AddNode(SquashTree(nodes), SquashNode(n))
  {
    hide AddNode, SquashNode;
    assert (nodes + [n])[..|nodes + [n]| - 1] == nodes;
  }

  /** The last flat token is text exactly when the last collected node is a text leaf, and then they agree. */
  ghost predicate SameEnd(flat: seq<Token>, st: Nesting) {
    var (k, m) := (|flat| - 1, |st.collector| - 1);
    if k >= 0 && flat[k].kind.Text? then m >= 0 && st.collector[m] == Leaf(flat[k])
    else m < 0 || !st.collector[m].Leaf? || !st.collector[m].token.kind.Text?
  }

  /** Nesting a list that ends in text: the text can be replaced by other text. */
  lemma {:induction false} NestTextEnd(flat: seq<Token>, t: Token)
    requires flat != [] && flat[|flat| - 1].kind.Text? && t.kind.Text? && NestRun(flat).Some?
    ensures var (st, k) := (NestRun(flat).value, |flat| - 1);
            && st.collector != []
            && NestRun(flat[..k] + [t]) == Some(Nesting(st.collector[..|st.collector| - 1] + [Leaf(t)], st.sections))
  {
    hide NestRun;
    var k := |flat| - 1;
    assert flat[..k] + [flat[k]] == flat;
    NestSnoc(flat[..k], flat[k]);
    NestSnoc(flat[..k], t);
  }

  /** Squashing the flat list and nesting it is nesting and squashing the tree. */
  lemma {:induction false} NestSquash(tokens: seq<Token>)
    requires NestRun(tokens).Some?
    ensures NestRun(SquashRun(tokens)) == Some(SquashNesting(NestRun(tokens).value))
    ensures SameEnd(SquashRun(tokens), SquashNesting(NestRun(tokens).value))
  {
    hide NestStep, SquashStep, SquashNesting, SameEnd;
    if tokens == [] {
      SquashedNothing();
    } else {
      var before, t := tokens[..|tokens| - 1], tokens[|tokens| - 1];
      NestSquash(before);
      NestSquashStep(SquashRun(before), NestRun(before).value, t);
    }
  }

  lemma {:induction false} SquashedNothing()
    ensures SquashNesting(Nesting([], [])) == Nesting([], []) && SameEnd([], Nesting([], []))
  {
  }

  lemma {:induction false} NestSquashStep(flat: seq<Token>, st: Nesting, t: Token)
    requires NestRun(flat) == Some(SquashNesting(st)) && SameEnd(flat, SquashNesting(st))
    requires NestStep(st, t).Some?
    ensures var next := NestStep(st, t).value;
            && NestRun(SquashStep(flat, t)) == Some(SquashNesting(next))
            && SameEnd(SquashStep(flat, t), SquashNesting(next))
  {
    hide NestRun, SquashNesting, SameEnd;
    if t.kind.Text? && flat != [] && flat[|flat| - 1].kind.Text? {
      NestSquashJoin(flat, st, t);
    } else if IsOpening(t) {
      NestSquashOpen(flat, st, t);
    } else if t.kind.Close? {
      NestSquashClose(flat, st, t);
    } else {
      NestSquashLeaf(flat, st, t);
    }
  }

  lemma {:induction false} NestSquashJoin(flat: seq<Token>, st: Nesting, t: Token)
    requires NestRun(flat) == Some(SquashNesting(st)) && SameEnd(flat, SquashNesting(st))
    requires t.kind.Text? && flat != [] && flat[|flat| - 1].kind.Text?
    ensures var next := st.(collector := st.collector + [Leaf(t)]);
            && NestRun(SquashStep(flat, t)) == Some(SquashNesting(next))
            && SameEnd(SquashStep(flat, t), SquashNesting(next))
  {
    hide NestRun, SquashTree, SquashFrames;
    SquashTreeSnoc(st.collector, Leaf(t));
    NestTextEnd(flat, Join(flat[|flat| - 1], t));
  }

  lemma {:induction false} NestSquashOpen(flat: seq<Token>, st: Nesting, t: Token)
    requires NestRun(flat) == Some(SquashNesting(st)) && IsOpening(t)
    ensures var next := Nesting([], st.sections + [Frame(st.collector, t)]);
            && NestRun(SquashStep(flat, t)) == Some(SquashNesting(next))
            && SameEnd(SquashStep(flat, t), SquashNesting(next))
  {
    hide NestRun, SquashTree, SquashFrames;
    NestSnoc(flat, t);
    OpenSquashed(st.sections, Frame(st.collector, t));
    NoTree();
  }

  lemma {:induction false} NestSquashClose(flat: seq<Token>, st: Nesting, t: Token)
    requires NestRun(flat) == Some(SquashNesting(st)) && t.kind.Close? && st.sections != []
    ensures var n := |st.sections| - 1;
            var section := Section(st.sections[n].open, st.collector, t);
            var next := Nesting(st.sections[n].before + [section], st.sections[..n]);
            && NestRun(SquashStep(flat, t)) == Some(SquashNesting(next))
            && SameEnd(SquashStep(flat, t), SquashNesting(next))
  {
    hide NestRun, SquashTree, SquashFrames;
    NestSnoc(flat, t);
    var n := |st.sections| - 1;
    CloseSquashed(st.sections);
    SquashTreeSnoc(st.sections[n].before, Section(st.sections[n].open, st.collector, t));
  }

  lemma {:induction false} NestSquashLeaf(flat: seq<Token>, st: Nesting, t: Token)
    requires NestRun(flat) == Some(SquashNesting(st)) && SameEnd(flat, SquashNesting(st))
    requires !IsOpening(t) && !t.kind.Close? && !(t.kind.Text? && flat != [] && flat[|flat| - 1].kind.Text?)
    ensures var next := st.(collector := st.collector + [Leaf(t)]);
            && NestRun(SquashStep(flat, t)) == Some(SquashNesting(next))
            && SameEnd(SquashStep(flat, t), SquashNesting(next))
  {
    hide NestRun, SquashTree, SquashFrames;
    NestSnoc(flat, t);
    SquashTreeSnoc(st.collector, Leaf(t));
  }

  lemma {:induction false} NoTree()
    ensures SquashTree([]) == []
  {
  }

  lemma {:induction false} OpenSquashed(frames: seq<Frame>, f: Frame)
    ensures SquashFrames(frames + [f]) == SquashFrames(frames) + [Frame(SquashTree(f.before), f.open)]
  {
    hide SquashTree;
  }

  lemma {:induction false} CloseSquashed(frames: seq<Frame>)
    requires frames != []
    ensures var n := |frames| - 1;
            && SquashFrames(frames)[..n] == SquashFrames(frames[..n])
            && SquashFrames(frames)[n] == Frame(SquashTree(frames[n].before), frames[n].open)
  {
    hide SquashTree;
  }

  /** The parser's last two passes, on any balanced list: the squashed tree of the tokens that are left. */
  lemma {:induction false} NestOfSquash(tokens: seq<Token>)
    requires Balanced(tokens)
    ensures Balanced(SquashRun(tokens)) && Nest(SquashRun(tokens)) == SquashTree(Nest(tokens))
  {
    hide NestRun, SquashTree, SquashRun;
    NestSquash(tokens);
  }
}
