/** From the text of a template to what it prints. */
module MustacheEndToEnd {
  import opened MustacheTokens
  import opened MustacheLexer
  import opened MustacheParser
  import opened MustacheReading
  import opened MustacheWritten
  import opened MustacheContext
  import opened MustacheRender
  import opened MustacheOutcomes

  /** A written template renders as the tree it was written from. */
  lemma {:induction false} WrittenRenders(host: Host, partials: Partials, docs: seq<Piece>, views: seq<Value>,
                                          fuel: nat)
    requires views != [] && Well(docs, DEFAULT_TAGS, true)
    ensures var template := Written(docs, DEFAULT_TAGS);
            RenderTemplate(host, partials, template, views, fuel)
            == RenderNodes(host, partials, Built(docs, DEFAULT_TAGS, 0), views, template, fuel)
  {
    hide Written, Well, Built, RenderNodes, Parse;
    WrittenParsesBack(docs, DEFAULT_TAGS);
  }

  lemma {:induction false} OneNodeRenders(host: Host, partials: Partials, n: Node, views: seq<Value>,
                                          template: string, fuel: nat)
    requires views != []
    ensures RenderNodes(host, partials, [n], views, template, fuel)
            == RenderNode(host, partials, n, views, template, fuel)
  {
    hide RenderNode;
    var r := RenderNode(host, partials, n, views, template, fuel);
    assert [n][..0] == [];
    if r.Done? { assert "" + r.text == r.text; }
  }

  lemma {:induction false} OnePiece(d: Piece, pos: nat)
    ensures Built([d], DEFAULT_TAGS, pos) == [BuiltPiece(d, DEFAULT_TAGS, pos)]
    ensures Written([d], DEFAULT_TAGS) == WrittenPiece(d, DEFAULT_TAGS)
    ensures Well([d], DEFAULT_TAGS, true) <==> WellPiece(d, DEFAULT_TAGS, true)
    ensures Well([d], DEFAULT_TAGS, false) <==> WellPiece(d, DEFAULT_TAGS, false)
  {
    hide BuiltPiece, WrittenPiece, WellPiece;
    assert [d][1..] == [];
    assert WrittenPiece(d, DEFAULT_TAGS) + "" == WrittenPiece(d, DEFAULT_TAGS);
  }

  /** The template `{{name}}` prints the name's value escaped. */
  lemma {:induction false} NameTemplate(host: Host, partials: Partials, p: Parts, views: seq<Value>, fuel: nat)
    requires views != [] && Readable(p, DEFAULT_TAGS) && p.symbol == ""
    ensures var r := RenderTemplate(host, partials, Spelling(p, DEFAULT_TAGS), views, fuel);
            && r.Done?
            && Unescape(r.text) == Printed(host, Lookup(host, views, p.value))
            && forall k | 0 <= k < |r.text| :: r.text[k] !in "<>\"\'/"
  {
    hide RenderNodes, RenderNode, RenderTemplate, Lookup, Unescape, Readable, Spelling;
    var d := Tag(Name, p);
    OnePiece(d, 0);
    WrittenRenders(host, partials, [d], views, fuel);
    var n := BuiltPiece(d, DEFAULT_TAGS, 0);
    OneNodeRenders(host, partials, n, views, Spelling(p, DEFAULT_TAGS), fuel);
    NamePrintsEscaped(host, partials, n.token, views, Spelling(p, DEFAULT_TAGS), fuel);
  }

  /** The templates `{{&name}}` and `{{{name}}}` print the name's value as it is. */
  lemma {:induction false} RawTemplate(host: Host, partials: Partials, p: Parts, views: seq<Value>, fuel: nat)
    requires views != [] && Readable(p, DEFAULT_TAGS) && (p.symbol == "&" || p.symbol == "{")
    ensures RenderTemplate(host, partials, Spelling(p, DEFAULT_TAGS), views, fuel)
            == Done(Printed(host, Lookup(host, views, p.value)))
  {
    hide RenderNodes, RenderNode, RenderTemplate, Lookup, Readable, Spelling;
    var d := Tag(Raw, p);
    OnePiece(d, 0);
    WrittenRenders(host, partials, [d], views, fuel);
    var n := BuiltPiece(d, DEFAULT_TAGS, 0);
    OneNodeRenders(host, partials, n, views, Spelling(p, DEFAULT_TAGS), fuel);
    RawPrintsText(host, partials, n.token, views, Spelling(p, DEFAULT_TAGS), fuel);
  }

  function Copies(text: string, n: nat): string { if n == 0 then "" else text + Copies(text, n - 1) }

  lemma {:induction false} CopiesAreConcat(text: string, n: nat)
    ensures Concat(seq(n, _ => text)) == Copies(text, n)
  {
    if n > 0 {
      CopiesAreConcat(text, n - 1);
      assert seq(n, _ => text)[1..] == seq(n - 1, _ => text);
    }
  }

  /**
   * The templates `{{#name}}text{{/name}}` and `{{^name}}text{{/name}}`: the text once for a true
   * value, as often as there are items in an array, and not at all for a falsy value; and inverted.
   */
  lemma {:induction false} SectionTemplate(host: Host, partials: Partials, kind: Kind, open: Parts, text: string,
                                           close: Parts, views: seq<Value>, fuel: nat)
    requires views != []
    requires WellPiece(Block(kind, open, [Plain(text)], close), DEFAULT_TAGS, true)
    ensures var template := Spelling(open, DEFAULT_TAGS) + text + Spelling(close, DEFAULT_TAGS);
            var v := Lookup(host, views, open.value);
            var r := RenderTemplate(host, partials, template, views, fuel);
            && (open.symbol == "#" && !v.Function? ==>
                  r == Done(if Falsy(v) then "" else if v.Array? then Copies(text, |v.items|) else text))
            && (open.symbol == "^" ==> r == Done(if Falsy(v) || v == Array([]) then text else ""))
  {
    hide RenderNodes, RenderNode, RenderTemplate, Lookup, Readable, Spelling, Concat;
    var d := Block(kind, open, [Plain(text)], close);
    var template := WrittenPiece(d, DEFAULT_TAGS);
    OnePiece(d, 0);
    OnePiece(Plain(text), |Spelling(open, DEFAULT_TAGS)|);
    WrittenRenders(host, partials, [d], views, fuel);
    var n := BuiltPiece(d, DEFAULT_TAGS, 0);
    OneNodeRenders(host, partials, n, views, template, fuel);
    var v := Lookup(host, views, open.value);
    TextPrints(host, partials, n.kids, views, template, fuel, text);
    if kind == Inverted {
      InvertedSection(host, partials, n.open, n.kids, n.close, views, template, fuel);
    } else if v.Array? {
      forall i | 0 <= i < |v.items|
        ensures RenderNodes(host, partials, n.kids, [ViewOf(v.items[i])] + views, template, fuel) == Done(text)
      {
        TextPrints(host, partials, n.kids, [ViewOf(v.items[i])] + views, template, fuel, text);
      }
      ArraySection(host, partials, n.open, n.kids, n.close, views, template, fuel, seq(|v.items|, _ => text));
      CopiesAreConcat(text, |v.items|);
    } else {
      ValueSection(host, partials, n.open, n.kids, n.close, views, template, fuel);
      TextPrints(host, partials, n.kids, [v] + views, template, fuel, text);
    }
  }

  lemma {:induction false} TextPrints(host: Host, partials: Partials, kids: seq<Node>, views: seq<Value>,
                                      template: string, fuel: nat, text: string)
    requires views != [] && |kids| == 1 && kids[0].Leaf? && kids[0].token.kind == Text && kids[0].token.value == text
    ensures RenderNodes(host, partials, kids, views, template, fuel) == Done(text)
  {
    hide RenderNodes, RenderNode;
    assert kids == [kids[0]];
    OneNodeRenders(host, partials, kids[0], views, template, fuel);
    TextPrintsItself(host, partials, kids[0].token, views, template, fuel);
  }
}
