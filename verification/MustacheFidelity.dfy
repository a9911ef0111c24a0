/** How the tree of an accepted template relates to the template's text. */
module MustacheFidelity {
  import opened Wrappers
  import opened MustacheScanner
  import opened MustacheTokens
  import opened MustacheSquash
  import opened MustacheLines
  import opened MustacheLexer
  import opened MustacheTiles
  import opened MustacheParser

  // ---------- which templates are accepted ----------

  /** A flattened well-named tree leaves the open sections as they were. */
  lemma {:induction false} CheckFlatten(a: seq<Token>, nodes: seq<Node>)
    requires CheckRun(a).Opened? && Proper(nodes) && Named(nodes)
    ensures CheckRun(a + Flatten(nodes)) == CheckRun(a)
    decreases nodes, 1
  {
    hide CheckRun;
    if nodes == [] {
      assert a + [] == a;
    } else {
      var before, n := nodes[..|nodes| - 1], nodes[|nodes| - 1];
      CheckFlatten(a, before);
      CheckFlattenNode(a + Flatten(before), n);
      assert a + Flatten(nodes) == a + Flatten(before) + FlattenNode(n);
    }
  }

  lemma {:induction false} CheckFlattenNode(a: seq<Token>, n: Node)
    requires CheckRun(a).Opened? && ProperNode(n) && NamedNode(n)
    ensures CheckRun(a + FlattenNode(n)) == CheckRun(a)
    decreases n, 0
  {
    hide CheckRun;
    match n {
      case Leaf(t) => CheckSnoc(a, t);
      case Section(open, kids, close) =>
        CheckSnoc(a, open);
        CheckFlatten(a + [open], kids);
        CheckSnoc(a + [open] + Flatten(kids), close);
        assert a + FlattenNode(n) == a + [open] + Flatten(kids) + [close];
        var s := CheckRun(a).sections;
        assert (s + [open])[..|s|] == s;
    }
  }

  /** `nodes` is a tree of `tokens` whose sections are closed under the name they were opened with. */
  ghost predicate TreeOfTokens(nodes: seq<Node>, tokens: seq<Token>) {
    Proper(nodes) && Named(nodes) && Flatten(nodes) == tokens
  }

  /** The nesting check passes exactly when the tokens are the flattening of some well-named tree. */
  lemma {:induction false} CheckDecidesNesting(tokens: seq<Token>)
    ensures CheckRun(tokens) == Opened([]) <==> exists nodes :: TreeOfTokens(nodes, tokens)
  {
    hide CheckRun, NestRun, Flatten, Proper, Named;
    if CheckRun(tokens) == Opened([]) {
      CheckedNests(tokens);
      FlattenAfterNest(tokens);
      assert TreeOfTokens(Nest(tokens), tokens);
    }
    forall nodes | TreeOfTokens(nodes, tokens) ensures CheckRun(tokens) == Opened([]) {
      assert CheckRun([]) == Opened([]) by { NothingChecked(); }
      CheckFlatten([], nodes);
      assert [] + tokens == tokens;
    }
  }

  lemma {:induction false} NothingChecked()
    ensures CheckRun([]) == Opened([])
  {
  }

  /**
   * The parser accepts exactly the templates whose tags can all be read and whose section tags form
   * a properly nested word with equal names.
   */
  lemma {:induction false} AcceptsExactlyNested(template: string, tags: Tags)
    ensures Parse(template, tags).Success? <==>
              var lx := Lex(template, 0, tags);
              lx.error.None? && exists nodes :: TreeOfTokens(nodes, lx.tokens)
  {
    hide Lex, CheckRun, TreeOfTokens, TreeOf;
    CheckDecidesNesting(Lex(template, 0, tags).tokens);
  }

  // ---------- the tree and the flat list ----------

  lemma {:induction false} SquashKeepsTags(tokens: seq<Token>)
    ensures TagTokens(SquashRun(tokens)) == TagTokens(tokens)
  {
    hide SquashStep;
    if tokens != [] {
      SquashKeepsTags(tokens[..|tokens| - 1]);
      SquashStepTags(SquashRun(tokens[..|tokens| - 1]), tokens[|tokens| - 1]);
    }
  }

  lemma {:induction false} SquashStepTags(flat: seq<Token>, t: Token)
    ensures TagTokens(SquashStep(flat, t)) == TagTokens(flat) + if t.kind.Text? then [] else [t]
  {
    hide TagTokens;
    TagTokensSnoc(flat, t);
    var k := |flat| - 1;
    if k >= 0 && Joins(flat[k], t) {
      assert flat[..k] + [flat[k]] == flat;
      TagTokensSnoc(flat[..k], flat[k]);
      TagTokensSnoc(flat[..k], Join(flat[k], t));
      assert TagTokens(flat) + [] == TagTokens(flat);
    }
  }

  /**
   * Flattening the tree, closing tags put back, gives the squashed flat list; the template's tags
   * are all there, in order and unchanged.
   */
  lemma {:induction false} TreeIsFlatList(template: string, tags: Tags)
    requires Parse(template, tags).Success?
    ensures var (tree, raw) := (Parse(template, tags).value, Lex(template, 0, tags).tokens);
            && Proper(tree)
            && Flatten(tree) == Squash(Strip(raw))
            && TagTokens(Flatten(tree)) == TagTokens(raw)
  {
    hide Lex, CheckRun, Strip, SquashRun, Flatten, Proper, NestRun, Compact, TagTokens;
    var raw := Lex(template, 0, tags).tokens;
    AcceptedRaw(template, tags);
    StrippedNests(raw);
    FlattenAfterNest(Squash(Strip(raw)));
    StripThins(raw);
    ThinnedAlike(Strip(raw), raw);
    SquashKeepsTags(Compact(Strip(raw)));
  }

  lemma {:induction false} AcceptedRaw(template: string, tags: Tags)
    requires Parse(template, tags).Success?
    ensures var lx := Lex(template, 0, tags);
            && lx.error.None? && CheckRun(lx.tokens) == Opened([])
            && Parse(template, tags).value == TreeOf(lx.tokens)
            && Tile(lx.tokens, 0, |template|) && AllFaithful(template, lx.tokens, tags)
  {
    hide Lex, CheckRun, TreeOf, Tile, AllFaithful;
    LexTiles(template, 0, tags);
    assert template[0..] == template;
  }

  // ---------- dropped text ----------

  /** A dropped token is white space on a standalone line. */
  lemma {:induction false} DroppedIsBlank(tokens: seq<Token>, i: nat)
    requires i < |tokens| && Dropped(tokens, i)
    ensures IsBlank(tokens[i])
  {
    hide Standalone, IsSpace;
    var (lo, end) := (LineStart(tokens, i), LineEnd(tokens, i));
    InStandalone(tokens[lo..end + 1], i - lo);
  }

  lemma {:induction false} InStandalone(line: seq<Token>, k: nat)
    requires Standalone(line) && k < |line| && line[k].kind.Text?
    ensures IsBlank(line[k])
  {
    hide IsSpace;
    assert !IsSolid(line[k]);
  }

  /**
   * The tokens of a line, its newline last: at least one tag, no tag that prints a value, and no text
   * but white space.
   */
  ghost predicate StandaloneLine(tokens: seq<Token>, lo: nat, hi: nat) {
    && lo <= hi < |tokens| && tokens[hi].kind == Text && tokens[hi].value == "\n"
    && (lo > 0 ==> tokens[lo - 1].kind == Text && tokens[lo - 1].value == "\n")
    && (forall k | lo <= k < hi :: !(tokens[k].kind == Text && tokens[k].value == "\n"))
    && (exists k | lo <= k < hi :: tokens[k].kind != Text)
    && forall k | lo <= k <= hi ::
         if tokens[k].kind == Text then |tokens[k].value| == 1 && IsSpace(tokens[k].value[0])
         else tokens[k].kind in {Open, Inverted, Close, Partial, Delimiters, Comment}
  }

  /** Exactly the text of such lines is dropped. */
  lemma {:induction false} DroppedExactly(tokens: seq<Token>, i: nat)
    requires i < |tokens|
    ensures Dropped(tokens, i) <==>
              tokens[i].kind == Text && exists lo: nat, hi: nat | lo <= i <= hi :: StandaloneLine(tokens, lo, hi)
  {
    hide Dropped, StandaloneLine;
    if Dropped(tokens, i) {
      DroppedLine(tokens, i);
      assert StandaloneLine(tokens, LineStart(tokens, i), LineEnd(tokens, i));
    }
    forall lo: nat, hi: nat | lo <= i <= hi && StandaloneLine(tokens, lo, hi) && tokens[i].kind == Text
      ensures Dropped(tokens, i)
    {
      LineIsDropped(tokens, lo, i, hi);
    }
  }

  lemma {:induction false} DroppedLine(tokens: seq<Token>, i: nat)
    requires i < |tokens| && Dropped(tokens, i)
    ensures tokens[i].kind == Text && StandaloneLine(tokens, LineStart(tokens, i), LineEnd(tokens, i))
  {
    hide Standalone, IsSpace;
    var (lo, hi) := (LineStart(tokens, i), LineEnd(tokens, i));
    StandaloneIsLine(tokens, lo, hi);
    forall k | lo <= k < hi ensures !IsNewline(tokens[k]) { }
  }

  lemma {:induction false} LineIsDropped(tokens: seq<Token>, lo: nat, i: nat, hi: nat)
    requires lo <= i <= hi && StandaloneLine(tokens, lo, hi) && tokens[i].kind == Text
    ensures Dropped(tokens, i)
  {
    hide Standalone, IsSpace;
    StandaloneIsLine(tokens, lo, hi);
    SameLine(tokens, lo, i);
    SameLineEnd(tokens, i, hi);
  }

  lemma {:induction false} StandaloneIsLine(tokens: seq<Token>, lo: nat, hi: nat)
    requires lo <= hi < |tokens| && IsNewline(tokens[hi])
    ensures Standalone(tokens[lo..hi + 1]) <==>
              && (exists k | lo <= k < hi :: tokens[k].kind != Text)
              && forall k | lo <= k <= hi ::
                   if tokens[k].kind == Text then |tokens[k].value| == 1 && IsSpace(tokens[k].value[0])
                   else tokens[k].kind in {Open, Inverted, Close, Partial, Delimiters, Comment}
  {
    var line := tokens[lo..hi + 1];
    hide IsSpace;
    if Standalone(line) {
      var k :| 0 <= k < |line| && !line[k].kind.Text?;
      assert tokens[lo + k].kind != Text;
      forall k | lo <= k <= hi ensures !IsSolid(tokens[k]) { assert line[k - lo] == tokens[k]; }
    }
    if k :| lo <= k < hi && tokens[k].kind != Text { assert !line[k - lo].kind.Text?; }
  }

  /** Text on the same line as a dropped token is dropped. */
  lemma {:induction false} LineDropped(tokens: seq<Token>, i: nat, j: nat)
    requires i < |tokens| && j < |tokens| && Dropped(tokens, i) && LineStart(tokens, i) <= j <= LineEnd(tokens, i)
    requires tokens[j].kind.Text?
    ensures Dropped(tokens, j)
  {
    var (lo, end) := (LineStart(tokens, i), LineEnd(tokens, i));
    if i <= j {
      SameLine(tokens, i, j);
      SameLineEnd(tokens, i, j);
    } else {
      SameLine(tokens, j, i);
      SameLineEnd(tokens, j, i);
    }
  }

  lemma {:induction false} SameLineEnd(tokens: seq<Token>, i: nat, j: nat)
    requires i <= j <= |tokens| && forall k | i <= k < j :: !IsNewline(tokens[k])
    ensures LineEnd(tokens, i) == LineEnd(tokens, j)
    decreases j - i
  {
    if i < j { SameLineEnd(tokens, i + 1, j); }
  }

  /** Between two kept text tokens with only text dropped between them, nothing is dropped: a tag would stand there. */
  lemma {:induction false} NoHoleInText(tokens: seq<Token>, i: nat, j: nat)
    requires i < j < |tokens| && tokens[i].kind.Text? && tokens[j].kind.Text?
    requires !Dropped(tokens, i) && !Dropped(tokens, j)
    requires forall k | i < k < j :: Dropped(tokens, k)
    ensures j == i + 1
  {
    hide Dropped, HasSolid;
    if j > i + 1 {
      var k := i + 1;
      assert Dropped(tokens, k);
      TagOnDroppedLine(tokens, k);
      var m :| LineStart(tokens, k) <= m <= LineEnd(tokens, k) < |tokens| && !tokens[m].kind.Text?;
      if m < k {
        LineDropped(tokens, k, i);
      } else {
        assert m > j by { forall k | i < k < j ensures tokens[k].kind.Text? { DroppedText(tokens, k); } }
        LineDropped(tokens, k, j);
      }
      assert false;
    }
  }

  lemma {:induction false} DroppedText(tokens: seq<Token>, i: nat)
    requires i < |tokens| && Dropped(tokens, i)
    ensures tokens[i].kind.Text?
  {
  }

  lemma {:induction false} TagOnDroppedLine(tokens: seq<Token>, i: nat)
    requires i < |tokens| && Dropped(tokens, i)
    ensures exists m :: LineStart(tokens, i) <= m <= LineEnd(tokens, i) < |tokens| && !tokens[m].kind.Text?
  {
    var (lo, end) := (LineStart(tokens, i), LineEnd(tokens, i));
    var k :| 0 <= k < end + 1 - lo && !tokens[lo..end + 1][k].kind.Text?;
    assert tokens[lo + k] == tokens[lo..end + 1][k];
  }
}
