/** The spans of a tree's tokens in the template: order, nesting, coverage, and the text of sections. */
module MustacheSpans {
  import opened Wrappers
  import opened MustacheScanner
  import opened MustacheTokens
  import opened MustacheSquash
  import opened MustacheLines
  import opened MustacheLexer
  import opened MustacheTiles
  import opened MustacheParser
  import opened MustacheFidelity

  // ---------- tiles ----------

  lemma {:induction false} TileIndex(tokens: seq<Token>, lo: nat, hi: nat, i: nat)
    requires Tile(tokens, lo, hi) && i < |tokens|
    ensures lo <= tokens[i].start < tokens[i].end <= hi
    ensures i + 1 < |tokens| ==> tokens[i].end == tokens[i + 1].start
    ensures i + 1 == |tokens| ==> tokens[i].end == hi
  {
    var t := tokens[|tokens| - 1];
    TileBounds(tokens, lo, hi);
    TileBounds(tokens[..|tokens| - 1], lo, t.start);
    if i + 1 < |tokens| { TileIndex(tokens[..|tokens| - 1], lo, t.start, i); }
  }

  lemma {:induction false} TileBounds(tokens: seq<Token>, lo: nat, hi: nat)
    requires Tile(tokens, lo, hi)
    ensures lo <= hi
  {
    if tokens != [] { TileBounds(tokens[..|tokens| - 1], lo, tokens[|tokens| - 1].start); }
  }

  lemma {:induction false} TileSplit(a: seq<Token>, b: seq<Token>, lo: nat, hi: nat) returns (mid: nat)
    requires Tile(a + b, lo, hi)
    ensures Tile(a, lo, mid) && Tile(b, mid, hi)
  {
    if b == [] {
      assert a + b == a;
      mid := hi;
    } else {
      var n := |b| - 1;
      assert (a + b)[..|a + b| - 1] == a + b[..n];
      mid := TileSplit(a, b[..n], lo, b[n].start);
    }
  }

  /** The template text that tokens lie on. */
  function Source(template: string, tokens: seq<Token>): string {
    if tokens == [] then ""
    else
      var t := tokens[|tokens| - 1];
      Source(template, tokens[..|tokens| - 1])
      + (if t.start <= t.end <= |template| then template[t.start..t.end] else "")
  }

  lemma {:induction false} TileSource(template: string, tokens: seq<Token>, lo: nat, hi: nat)
    requires Tile(tokens, lo, hi) && hi <= |template|
    ensures lo <= hi && Source(template, tokens) == template[lo..hi]
  {
    if tokens != [] {
      var t := tokens[|tokens| - 1];
      TileSource(template, tokens[..|tokens| - 1], lo, t.start);
      assert template[lo..t.start] + template[t.start..t.end] == template[lo..t.end];
    }
  }

  // ---------- squashing what is left ----------

  predicate CoversAt(t: Token, p: nat) { t.start <= p < t.end }

  ghost predicate Covers(tokens: seq<Token>, p: nat) { exists k | 0 <= k < |tokens| :: CoversAt(tokens[k], p) }

  /** Tokens in the order of the template, between two positions. */
  ghost predicate Ordered(tokens: seq<Token>, lo: nat, hi: nat) {
    if tokens == [] then lo <= hi
    else
      var t := tokens[|tokens| - 1];
      Ordered(tokens[..|tokens| - 1], lo, t.start) && t.start < t.end <= hi
  }

  lemma {:induction false} OrderedSnoc(tokens: seq<Token>, t: Token, lo: nat, hi: nat)
    ensures Ordered(tokens + [t], lo, hi) <==> Ordered(tokens, lo, t.start) && t.start < t.end <= hi
  {
    assert (tokens + [t])[..|tokens + [t]| - 1] == tokens;
  }

  lemma {:induction false} OrderedWiden(tokens: seq<Token>, lo: nat, hi: nat, hi': nat)
    requires Ordered(tokens, lo, hi) && hi <= hi'
    ensures Ordered(tokens, lo, hi')
  {
  }

  /** If the last squashed token is text, it ends with the last kept token, after which all is dropped. */
  ghost predicate TextEndsAt(raw: seq<Token>, n: nat, flat: seq<Token>, k: nat)
    requires n <= |raw|
  {
    && k < n && flat != [] && raw[k].kind.Text? && !Dropped(raw, k) && flat[|flat| - 1].end == raw[k].end
    && forall j | k < j < n :: Dropped(raw, j)
  }

  /** The squashed list of the first `n` tokens, against the template. */
  ghost predicate SquashedWell(template: string, raw: seq<Token>, tags: TagPair, n: nat, flat: seq<Token>)
    requires n <= |raw|
  {
    && AllFaithful(template, flat, tags) && InForce(flat, tags) == InForce(raw[..n], tags)
    && Ordered(flat, 0, if n < |raw| then raw[n].start else |template|)
    && (flat != [] && flat[|flat| - 1].kind.Text? ==> exists k :: TextEndsAt(raw, n, flat, k))
    && (forall p: nat :: Covers(flat, p) <==> exists i | 0 <= i < n :: !Dropped(raw, i) && CoversAt(raw[i], p))
  }

  lemma {:induction false} SquashFaithful(template: string, raw: seq<Token>, tags: TagPair, n: nat)
    requires n <= |raw| && Tile(raw, 0, |template|)
    requires AllFaithful(template, raw, tags)
    ensures SquashedWell(template, raw, tags, n, Squash(Strip(raw)[..n]))
  {
    hide SquashedWell, Faithful, AllFaithful, Tile, Dropped, Squash, InForce;
    if n == 0 {
      NothingSquashed(template, raw, tags, Squash(Strip(raw)[..0]));
    } else {
      SquashFaithful(template, raw, tags, n - 1);
      SquashNext(Strip(raw), n - 1);
      var flat := Squash(Strip(raw)[..n - 1]);
      TileIndex(raw, 0, |template|, n - 1);
      FaithfulAt(template, raw, tags, n - 1);
      if Dropped(raw, n - 1) {
        DroppedStep(template, raw, tags, n - 1, flat);
      } else {
        var t := raw[n - 1];
        if flat != [] && Joins(flat[|flat| - 1], t) {
          JoinStep(template, raw, tags, n - 1, flat);
        } else {
          PushStep(template, raw, tags, n - 1, flat);
        }
      }
    }
  }

  lemma {:induction false} NothingSquashed(template: string, raw: seq<Token>, tags: TagPair, flat: seq<Token>)
    requires flat == Squash(Strip(raw)[..0]) && Tile(raw, 0, |template|)
    ensures SquashedWell(template, raw, tags, 0, flat)
  {
    assert flat == [];
    if raw != [] { TileIndex(raw, 0, |template|, 0); }
  }

  lemma {:induction false} DroppedStep(template: string, raw: seq<Token>, tags: TagPair, n: nat, flat: seq<Token>)
    requires n < |raw| && Tile(raw, 0, |template|) && SquashedWell(template, raw, tags, n, flat) && Dropped(raw, n)
    ensures SquashedWell(template, raw, tags, n + 1, flat)
  {
    hide AllFaithful, InForce, Tile, Dropped, Covers;
    TileIndex(raw, 0, |template|, n);
    InForceNext(raw, n, tags);
    DroppedText(raw, n);
    OrderedWiden(flat, 0, raw[n].start, raw[n].end);
    if flat != [] && flat[|flat| - 1].kind.Text? {
      var k :| TextEndsAt(raw, n, flat, k);
      assert TextEndsAt(raw, n + 1, flat, k);
    }
    forall p: nat ensures Covers(flat, p) <==> exists i | 0 <= i < n + 1 :: !Dropped(raw, i) && CoversAt(raw[i], p) {
      if i: nat :| i < n + 1 && !Dropped(raw, i) && CoversAt(raw[i], p) { assert i < n; }
    }
  }

  lemma {:induction false} CoversSnoc(flat: seq<Token>, t: Token, p: nat)
    ensures Covers(flat + [t], p) <==> Covers(flat, p) || CoversAt(t, p)
  {
    var all := flat + [t];
    assert all[|flat|] == t;
    if k :| 0 <= k < |flat| && CoversAt(flat[k], p) { assert CoversAt(all[k], p); }
  }

  lemma {:induction false} KeptSnoc(raw: seq<Token>, n: nat, p: nat)
    requires n < |raw| && !Dropped(raw, n)
    ensures (exists i | 0 <= i < n + 1 :: !Dropped(raw, i) && CoversAt(raw[i], p))
        <==> (exists i | 0 <= i < n :: !Dropped(raw, i) && CoversAt(raw[i], p)) || CoversAt(raw[n], p)
  {
    hide Dropped, CoversAt;
    if i: nat :| i < n && !Dropped(raw, i) && CoversAt(raw[i], p) { assert i < n + 1; }
    if CoversAt(raw[n], p) { assert !Dropped(raw, n) && CoversAt(raw[n], p); }
  }

  lemma {:induction false} PushStep(template: string, raw: seq<Token>, tags: TagPair, n: nat, flat: seq<Token>)
    requires n < |raw| && Tile(raw, 0, |template|) && SquashedWell(template, raw, tags, n, flat) && !Dropped(raw, n)
    requires Faithful(template, raw[n], InForce(raw[..n], tags))
    ensures SquashedWell(template, raw, tags, n + 1, flat + [raw[n]])
  {
    hide Faithful, AllFaithful, InForce, After, Tile, Dropped, Covers;
    var t := raw[n];
    InForceNext(raw, n, tags);
    InForceSnoc(flat, t, tags);
    FaithfulSnoc(template, flat, t, tags);
    TileIndex(raw, 0, |template|, n);
    OrderedSnoc(flat, t, 0, t.end);
    if t.kind.Text? { assert TextEndsAt(raw, n + 1, flat + [t], n); }
    forall p: nat
      ensures Covers(flat + [t], p) <==> exists i | 0 <= i < n + 1 :: !Dropped(raw, i) && CoversAt(raw[i], p)
    {
      CoversSnoc(flat, t, p);
      KeptSnoc(raw, n, p);
    }
  }

  /** Text joins only text it touches, so the joined token still shows what it covers. */
  lemma {:induction false} JoinStep(template: string, raw: seq<Token>, tags: TagPair, n: nat, flat: seq<Token>)
    requires n < |raw| && Tile(raw, 0, |template|) && SquashedWell(template, raw, tags, n, flat) && !Dropped(raw, n)
    requires Faithful(template, raw[n], InForce(raw[..n], tags)) && flat != [] && Joins(flat[|flat| - 1], raw[n])
    ensures SquashedWell(template, raw, tags, n + 1, flat[..|flat| - 1] + [Join(flat[|flat| - 1], raw[n])])
  {
    hide Tile, Dropped, Covers, Faithful, AllFaithful, InForce;
    var (m, t) := (|flat| - 1, raw[n]);
    var (before, last) := (flat[..m], flat[m]);
    var k :| TextEndsAt(raw, n, flat, k);
    NoHoleInText(raw, k, n);
    TileIndex(raw, 0, |template|, k);
    TileIndex(raw, 0, |template|, n);
    assert last.end == t.start;
    var joined := Join(last, t);
    assert before + [last] == flat;
    JoinKeepsFaithful(template, raw, tags, n, before, last);
    OrderedSnoc(before, last, 0, t.start);
    OrderedSnoc(before, joined, 0, t.end);
    assert TextEndsAt(raw, n + 1, before + [joined], n);
    forall p: nat
      ensures Covers(before + [joined], p) <==> exists i | 0 <= i < n + 1 :: !Dropped(raw, i) && CoversAt(raw[i], p)
    {
      CoversSnoc(before, last, p);
      CoversSnoc(before, joined, p);
      KeptSnoc(raw, n, p);
    }
  }

  lemma {:induction false} InForceNext(raw: seq<Token>, n: nat, tags: TagPair)
    requires n < |raw|
    ensures InForce(raw[..n + 1], tags) == After(InForce(raw[..n], tags), raw[n])
  {
    hide After;
    assert raw[..n + 1] == raw[..n] + [raw[n]];
    InForceSnoc(raw[..n], raw[n], tags);
  }

  lemma {:induction false} JoinKeepsFaithful(template: string, raw: seq<Token>, tags: TagPair, n: nat,
                                             before: seq<Token>, last: Token)
    requires n < |raw| && Joins(last, raw[n]) && last.end == raw[n].start
    requires AllFaithful(template, before + [last], tags) && InForce(before + [last], tags) == InForce(raw[..n], tags)
    requires Faithful(template, raw[n], InForce(raw[..n], tags))
    ensures var flat := before + [Join(last, raw[n])];
            AllFaithful(template, flat, tags) && InForce(flat, tags) == InForce(raw[..n + 1], tags)
  {
    hide Faithful, AllFaithful, InForce;
    var joined := Join(last, raw[n]);
    InForceNext(raw, n, tags);
    InForceSnoc(before, last, tags);
    InForceSnoc(before, joined, tags);
    FaithfulSnoc(template, before, last, tags);
    FaithfulSnoc(template, before, joined, tags);
    JoinFaithful(template, last, raw[n], InForce(before, tags));
  }

  lemma {:induction false} JoinFaithful(template: string, last: Token, t: Token, tags: TagPair)
    requires Joins(last, t) && last.end == t.start
    requires Faithful(template, last, tags) && Faithful(template, t, tags)
    ensures Faithful(template, Join(last, t), tags)
  {
    assert template[last.start..last.end] + template[t.start..t.end] == template[last.start..t.end];
  }

  // ---------- spans of the tree ----------

  function NodeStart(n: Node): nat { if n.Leaf? then n.token.start else n.open.start }
  function NodeEnd(n: Node): nat { if n.Leaf? then n.token.end else n.close.end }

  /** A node's parts lie in order inside it. */
  ghost predicate NodeSpan(n: Node) {
    match n
    case Leaf(t) => t.start < t.end
    case Section(open, kids, close) =>
      open.start < open.end && Spans(kids, open.end, close.start) && close.start < close.end
  }

  /** Siblings lie one after the other between two positions, and everything in them inside them. */
  ghost predicate Spans(nodes: seq<Node>, lo: nat, hi: nat) {
    if nodes == [] then lo <= hi
    else
      var n := nodes[|nodes| - 1];
      Spans(nodes[..|nodes| - 1], lo, NodeStart(n)) && NodeSpan(n) && NodeEnd(n) <= hi
  }

  /** Ordered tokens from the front. */
  lemma {:induction false} OrderedTail(t: Token, rest: seq<Token>, lo: nat, hi: nat)
    requires Ordered([t] + rest, lo, hi)
    ensures lo <= t.start < t.end && Ordered(rest, t.end, hi)
  {
    if rest == [] {
      assert [t] + rest == [] + [t];
      OrderedSnoc([], t, lo, hi);
    } else {
      var n := |rest| - 1;
      assert [t] + rest == ([t] + rest[..n]) + [rest[n]];
      OrderedSnoc([t] + rest[..n], rest[n], lo, hi);
      OrderedTail(t, rest[..n], lo, rest[n].start);
    }
  }

  lemma {:induction false} OrderedSplit(a: seq<Token>, t: Token, b: seq<Token>, lo: nat, hi: nat)
    requires Ordered(a + ([t] + b), lo, hi)
    ensures Ordered(a, lo, t.start) && Ordered([t] + b, t.start, hi)
  {
    if b == [] {
      assert a + ([t] + b) == a + [t] && [t] + b == [] + [t];
      OrderedSnoc(a, t, lo, hi);
      OrderedSnoc([], t, t.start, hi);
    } else {
      var n := |b| - 1;
      assert a + ([t] + b) == a + ([t] + b[..n]) + [b[n]] && [t] + b == [t] + b[..n] + [b[n]];
      OrderedSnoc(a + ([t] + b[..n]), b[n], lo, hi);
      OrderedSplit(a, t, b[..n], lo, b[n].start);
      OrderedSnoc([t] + b[..n], b[n], t.start, hi);
    }
  }

  lemma {:induction false} TreeSpans(nodes: seq<Node>, lo: nat, hi: nat)
    requires Ordered(Flatten(nodes), lo, hi)
    ensures Spans(nodes, lo, hi)
    decreases nodes, 1
  {
    if nodes != [] {
      var before, n := nodes[..|nodes| - 1], nodes[|nodes| - 1];
      var flat := FlattenNode(n);
      assert flat == [flat[0]] + flat[1..] && flat[0].start == NodeStart(n) by { FlatHead(n); }
      OrderedSplit(Flatten(before), flat[0], flat[1..], lo, hi);
      TreeSpans(before, lo, NodeStart(n));
      NodeSpans(n, NodeStart(n), hi);
    }
  }

  lemma {:induction false} FlatHead(n: Node)
    ensures var flat := FlattenNode(n); flat != [] && flat[0].start == NodeStart(n) && flat == [flat[0]] + flat[1..]
  {
    hide Flatten;
  }

  lemma {:induction false} NodeSpans(n: Node, lo: nat, hi: nat)
    requires Ordered(FlattenNode(n), lo, hi)
    ensures NodeSpan(n) && NodeEnd(n) <= hi
    decreases n, 0
  {
    hide Ordered;
    match n {
      case Leaf(t) =>
        assert [t] == [] + [t];
        OrderedSnoc([], t, lo, hi);
      case Section(open, kids, close) =>
        OrderedSnoc([open] + Flatten(kids), close, lo, hi);
        OrderedTail(open, Flatten(kids), lo, close.start);
        TreeSpans(kids, open.end, close.start);
    }
  }

  /**
   * The spans of an accepted template's tree: siblings in increasing order without overlap,
   * everything inside a section between its two tags, and the text of every leaf, joined or not,
   * exactly the template text of its span.
   */
  lemma {:induction false} TreeLiesInTemplate(template: string, tags: Tags)
    requires Parse(template, tags).Success?
    ensures var tree := Parse(template, tags).value;
            && Spans(tree, 0, |template|)
            && AllFaithful(template, Flatten(tree), tags)
  {
    hide Parse, Lex, Strip, Squash, Flatten, Spans, Ordered, AllFaithful, CheckRun, TreeOf;
    var raw := Lex(template, 0, tags).tokens;
    AcceptedRaw(template, tags);
    TreeIsFlatList(template, tags);
    SquashFaithful(template, raw, tags, |raw|);
    assert Strip(raw)[..|raw|] == Strip(raw);
    TreeSpans(Parse(template, tags).value, 0, |template|);
  }

  /**
   * White space stripping is exact: a character is missing from the tree exactly when it is white
   * space in text, on a line that a newline ends and that carries a tag and nothing solid.
   */
  lemma {:induction false} OnlyStandaloneSpaceIsDropped(template: string, tags: Tags, p: nat)
    requires Parse(template, tags).Success? && p < |template|
    ensures var (tree, raw) := (Parse(template, tags).value, Lex(template, 0, tags).tokens);
            exists i | 0 <= i < |raw| ::
              && CoversAt(raw[i], p)
              && (Covers(Flatten(tree), p) <==> !Dropped(raw, i))
              && (Dropped(raw, i) ==> raw[i].kind.Text? && IsSpace(template[p]))
  {
    hide Parse, Lex, Strip, Squash, Flatten, CheckRun, TreeOf, Covers, Dropped, AllFaithful, InForce, Faithful;
    var raw := Lex(template, 0, tags).tokens;
    AcceptedRaw(template, tags);
    TreeIsFlatList(template, tags);
    SquashFaithful(template, raw, tags, |raw|);
    assert Strip(raw)[..|raw|] == Strip(raw);
    var i := TokenAt(raw, 0, |template|, p);
    forall j: nat | j < |raw| && CoversAt(raw[j], p) ensures j == i { OneTokenAt(raw, 0, |template|, p, i, j); }
    if Dropped(raw, i) {
      DroppedIsBlank(raw, i);
      FaithfulAt(template, raw, tags, i);
      BlankCharacter(template, raw[i], p, InForce(raw[..i], tags));
    }
  }

  lemma {:induction false} BlankCharacter(template: string, t: Token, p: nat, tags: TagPair)
    requires Faithful(template, t, tags) && CoversAt(t, p) && IsBlank(t)
    ensures p < |template| && IsSpace(template[p])
  {
    assert template[t.start..t.end][p - t.start] == template[p];
  }

  lemma {:induction false} TokenAt(tokens: seq<Token>, lo: nat, hi: nat, p: nat) returns (i: nat)
    requires Tile(tokens, lo, hi) && lo <= p < hi
    ensures i < |tokens| && CoversAt(tokens[i], p)
  {
    var n := |tokens| - 1;
    if p >= tokens[n].start {
      i := n;
    } else {
      i := TokenAt(tokens[..n], lo, tokens[n].start, p);
    }
  }

  lemma {:induction false} OneTokenAt(tokens: seq<Token>, lo: nat, hi: nat, p: nat, i: nat, j: nat)
    requires Tile(tokens, lo, hi) && i < |tokens| && j < |tokens| && CoversAt(tokens[i], p) && CoversAt(tokens[j], p)
    ensures i == j
  {
    var n := |tokens| - 1;
    if i < n { TileIndex(tokens[..n], lo, tokens[n].start, i); }
    if j < n { TileIndex(tokens[..n], lo, tokens[n].start, j); }
    if i < n && j < n { OneTokenAt(tokens[..n], lo, tokens[n].start, p, i, j); }
  }

  // ---------- the text of a section ----------

  /** Finds a tag among the tokens. */
  lemma {:induction false} Locate(tokens: seq<Token>, a: seq<Token>, t: Token, b: seq<Token>)
    returns (x: seq<Token>, y: seq<Token>)
    requires TagTokens(tokens) == a + [t] + b
    ensures tokens == x + [t] + y && TagTokens(x) == a && TagTokens(y) == b
  {
    hide TagTokens;
    LocateNeedsTag(tokens, a, t, b);
    var (front, last) := (tokens[..|tokens| - 1], tokens[|tokens| - 1]);
    TagTokensSnoc(front, last);
    assert tokens == front + [last];
    if last.kind.Text? {
      x, y := Locate(front, a, t, b);
      LocateMore(front, x, t, y, last);
      y := y + [last];
    } else if b == [] {
      SameSnoc(TagTokens(front), last, a, t);
      x, y := front, [];
    } else {
      var m := |b| - 1;
      assert a + [t] + b == (a + [t] + b[..m]) + [b[m]];
      SameSnoc(TagTokens(front), last, a + [t] + b[..m], b[m]);
      x, y := Locate(front, a, t, b[..m]);
      LocateMore(front, x, t, y, last);
      y := y + [last];
    }
  }

  lemma {:induction false} LocateNeedsTag(tokens: seq<Token>, a: seq<Token>, t: Token, b: seq<Token>)
    requires TagTokens(tokens) == a + [t] + b
    ensures tokens != [] && TagTokens([]) == []
  {
    assert |a + [t] + b| > 0;
  }

  lemma {:induction false} LocateMore(front: seq<Token>, x: seq<Token>, t: Token, y: seq<Token>, last: Token)
    requires front == x + [t] + y
    ensures front + [last] == x + [t] + (y + [last])
    ensures TagTokens(y + [last]) == TagTokens(y) + if last.kind.Text? then [] else [last]
  {
    TagTokensSnoc(y, last);
  }

  lemma {:induction false} SameSnoc<T>(p: seq<T>, x: T, q: seq<T>, y: T)
    requires p + [x] == q + [y]
    ensures p == q && x == y
  {
    assert (p + [x])[..|p|] == p && (q + [y])[..|q|] == q;
    assert (p + [x])[|p|] == x && (q + [y])[|q|] == y;
    assert |p + [x]| == |q + [y]|;
  }

  lemma {:induction false} TagTokensConcat(a: seq<Token>, b: seq<Token>)
    ensures TagTokens(a + b) == TagTokens(a) + TagTokens(b)
  {
    if b == [] {
      assert a + b == a;
    } else {
      TagTokensConcat(a, b[..|b| - 1]);
      assert (a + b)[..|a + b| - 1] == a + b[..|b| - 1];
    }
  }

  /**
   * For any section of the tree, at any depth: its tags are two tokens of the template, the slice
   * from the end of the opening one to the start of the closing one is exactly the text of all the
   * tokens between them, and the tags among those are the section's own contents.
   */
  lemma {:induction false} SectionText(template: string, tags: Tags, before: seq<Token>, s: Node, after: seq<Token>)
    returns (x: seq<Token>, inner: seq<Token>, y: seq<Token>)
    requires Parse(template, tags).Success? && s.Section? && ProperNode(s)
    requires Flatten(Parse(template, tags).value) == before + FlattenNode(s) + after
    ensures Lex(template, 0, tags).tokens == x + [s.open] + inner + [s.close] + y
    ensures TagTokens(inner) == TagTokens(Flatten(s.kids))
    ensures s.open.end <= s.close.start <= |template|
    ensures template[s.open.end..s.close.start] == Source(template, inner)
  {
    hide Lex, Parse, Strip, Squash, CheckRun, TreeOf, Flatten, TagTokens, Tile, AllFaithful;
    var raw := Lex(template, 0, tags).tokens;
    AcceptedRaw(template, tags);
    TreeIsFlatList(template, tags);
    var (kids, ta) := (TagTokens(Flatten(s.kids)), TagTokens(after));
    SectionTags(before, s, after);
    var rest;
    x, rest := Locate(raw, TagTokens(before), s.open, kids + [s.close] + ta);
    inner, y := Locate(rest, kids, s.close, ta);
    assert raw == x + [s.open] + inner + [s.close] + y;
    TextBetween(template, x, s.open, inner, s.close, y);
  }

  /** The text between two tokens is that of the tokens between them. */
  lemma {:induction false} TextBetween(template: string, x: seq<Token>, open: Token, inner: seq<Token>,
                                       close: Token, y: seq<Token>)
    requires Tile(x + [open] + inner + [close] + y, 0, |template|)
    ensures open.end <= close.start <= |template|
    ensures template[open.end..close.start] == Source(template, inner)
  {
    hide Tile;
    assert x + [open] + inner + [close] + y == (x + [open]) + (inner + ([close] + y));
    var mid := TileSplit(x + [open], inner + ([close] + y), 0, |template|);
    TileIndex(x + [open], 0, mid, |x|);
    var end := TileSplit(inner, [close] + y, mid, |template|);
    TileStart(close, y, end, |template|);
    TileSource(template, inner, mid, end);
  }

  lemma {:induction false} TileStart(t: Token, y: seq<Token>, lo: nat, hi: nat)
    requires Tile([t] + y, lo, hi)
    ensures t.start == lo && lo <= hi
  {
    var mid := TileSplit([t], y, lo, hi);
    TileBounds([t] + y, lo, hi);
    assert [t][..0] == [];
  }

  lemma {:induction false} SectionTags(before: seq<Token>, s: Node, after: seq<Token>)
    requires s.Section? && ProperNode(s)
    ensures TagTokens(before + FlattenNode(s) + after)
            == TagTokens(before) + [s.open] + (TagTokens(Flatten(s.kids)) + [s.close] + TagTokens(after))
  {
    hide Flatten, TagTokens;
    var flat := [s.open] + Flatten(s.kids) + [s.close];
    assert FlattenNode(s) == flat;
    TagTokensConcat(before + flat, after);
    TagTokensConcat(before, flat);
    TagTokensConcat([s.open] + Flatten(s.kids), [s.close]);
    TagTokensConcat([s.open], Flatten(s.kids));
    OneTag(s.open);
    OneTag(s.close);
  }

  lemma {:induction false} OneTag(t: Token)
    requires !t.kind.Text?
    ensures TagTokens([t]) == [t]
  {
    assert [t][..0] == [];
  }
}
