/** What each kind of node prints. */
module MustacheOutcomes {
  import opened Wrappers
  import opened MustacheTokens
  import opened MustacheLexer
  import opened MustacheParser
  import opened MustacheContext
  import opened MustacheRender

  predicate Nothing(v: Value) { v == Undefined || v == Null }

  /** JavaScript's falsy values. */
  predicate Falsy(v: Value) {
    Nothing(v) || v == Boolean(false) || v == Number(0.0) || v == NotANumber || v == Str("")
  }

  /** A value in text: nothing is empty, strings are themselves, the rest is converted by the host. */
  function Printed(host: Host, v: Value): string {
    match v
    case Undefined => ""
    case Null => ""
    case Str(s) => s
    case _ => host.text(v)
  }

  /** The view for an item: nothing becomes an object without fields. */
  function ViewOf(item: Value): Value { if Nothing(item) then Object(map[]) else item }

  function Concat(texts: seq<string>): string { if texts == [] then "" else texts[0] + Concat(texts[1..]) }

  lemma {:induction false} ConcatSnoc(texts: seq<string>, text: string)
    ensures Concat(texts + [text]) == Concat(texts) + text
  {
    if texts == [] {
      assert [text][1..] == [];
    } else {
      ConcatSnoc(texts[1..], text);
      assert (texts + [text])[1..] == texts[1..] + [text];
      assert texts[0] + (Concat(texts[1..]) + text) == texts[0] + Concat(texts[1..]) + text;
    }
  }

  // ---------- leaves ----------

  /** A name tag prints its value's text escaped: without dangerous characters, and reading as that text. */
  lemma {:induction false} NamePrintsEscaped(host: Host, partials: Partials, t: Token, views: seq<Value>,
                                             template: string, fuel: nat)
    requires views != [] && t.kind == Name
    ensures var r := RenderNode(host, partials, Leaf(t), views, template, fuel);
            && r.Done?
            && Unescape(r.text) == Printed(host, Lookup(host, views, t.value))
            && forall k | 0 <= k < |r.text| :: r.text[k] !in "<>\"\'/"
  {
    hide EscapeHtml, Unescape, Lookup;
    EscapedIsSafe(Printed(host, Lookup(host, views, t.value)));
    NothingEscaped();
  }

  lemma {:induction false} NothingEscaped()
    ensures EscapeHtml("") == ""
  {
  }

  /** A raw tag prints its value's text as it is. */
  lemma {:induction false} RawPrintsText(host: Host, partials: Partials, t: Token, views: seq<Value>,
                                         template: string, fuel: nat)
    requires views != [] && t.kind == Raw
    ensures RenderNode(host, partials, Leaf(t), views, template, fuel)
            == Done(Printed(host, Lookup(host, views, t.value)))
  {
    hide Lookup;
  }

  /** Text prints itself; comments and set-delimiter tags print nothing. */
  lemma {:induction false} TextPrintsItself(host: Host, partials: Partials, t: Token, views: seq<Value>,
                                            template: string, fuel: nat)
    requires views != []
    ensures t.kind == Text ==> RenderNode(host, partials, Leaf(t), views, template, fuel) == Done(t.value)
    ensures t.kind == Comment || t.kind == Delimiters ==>
              RenderNode(host, partials, Leaf(t), views, template, fuel) == Done("")
  {
  }

  /** A partial tag prints the template of its name in the same views, and nothing if there is none. */
  lemma {:induction false} PartialPrintsTemplate(host: Host, partials: Partials, t: Token, views: seq<Value>,
                                                 template: string, fuel: nat)
    requires views != [] && t.kind == Partial
    ensures var r := RenderNode(host, partials, Leaf(t), views, template, fuel);
            if partials == NoPartials || partials.get(t.value) == None then r == Done("")
            else
              fuel > 0 ==> r == RenderTemplate(host, partials, partials.get(t.value).value, views, fuel - 1)
  {
    hide RenderNodes, Parse;
  }

  /** A template that cannot be parsed prints nothing and reports the error. */
  lemma {:induction false} BadTemplateThrows(host: Host, partials: Partials, template: string, views: seq<Value>,
                                             fuel: nat)
    requires views != [] && Parse(template, TagPair("{{", "}}")).Error?
    ensures RenderTemplate(host, partials, template, views, fuel) == Threw(Parse(template, TagPair("{{", "}}")).error)
  {
    hide Parse;
  }

  // ---------- nodes in a row ----------

  /** Nodes print one after the other. */
  lemma {:induction false} NodesPrintInOrder(host: Host, partials: Partials, nodes: seq<Node>, views: seq<Value>,
                                             template: string, fuel: nat, texts: seq<string>)
    requires views != [] && |texts| == |nodes|
    requires forall i | 0 <= i < |nodes| ::
               RenderNode(host, partials, nodes[i], views, template, fuel) == Done(texts[i])
    ensures RenderNodes(host, partials, nodes, views, template, fuel) == Done(Concat(texts))
  {
    hide RenderNode, Concat;
    if nodes == [] {
      ConcatNone();
    } else {
      var n := |nodes| - 1;
      NodesPrintInOrder(host, partials, nodes[..n], views, template, fuel, texts[..n]);
      ConcatSnoc(texts[..n], texts[n]);
      assert texts[..n] + [texts[n]] == texts;
    }
  }

  lemma {:induction false} ConcatNone()
    ensures Concat([]) == ""
  {
  }

  /** The first node that does not print ends the rendering with its own outcome. */
  lemma {:induction false} NodesStop(host: Host, partials: Partials, nodes: seq<Node>, views: seq<Value>,
                                     template: string, fuel: nat, k: nat)
    requires views != [] && k < |nodes|
    requires forall i | 0 <= i < k :: RenderNode(host, partials, nodes[i], views, template, fuel).Done?
    requires !RenderNode(host, partials, nodes[k], views, template, fuel).Done?
    ensures RenderNodes(host, partials, nodes, views, template, fuel)
            == RenderNode(host, partials, nodes[k], views, template, fuel)
    decreases |nodes|
  {
    hide RenderNode;
    var n := |nodes| - 1;
    if k < n {
      NodesStop(host, partials, nodes[..n], views, template, fuel, k);
    } else {
      AllPrint(host, partials, nodes[..n], views, template, fuel);
    }
  }

  lemma {:induction false} AllPrint(host: Host, partials: Partials, nodes: seq<Node>, views: seq<Value>,
                                    template: string, fuel: nat)
    requires views != []
    requires forall i | 0 <= i < |nodes| :: RenderNode(host, partials, nodes[i], views, template, fuel).Done?
    ensures RenderNodes(host, partials, nodes, views, template, fuel).Done?
  {
    hide RenderNode;
    if nodes != [] {
      AllPrint(host, partials, nodes[..|nodes| - 1], views, template, fuel);
    }
  }

  // ---------- sections ----------

  /** An inverted section prints its contents once if its value is falsy or no items, and nothing otherwise. */
  lemma {:induction false} InvertedSection(host: Host, partials: Partials, open: Token, kids: seq<Node>, close: Token,
                                           views: seq<Value>, template: string, fuel: nat)
    requires views != [] && open.kind == Inverted
    ensures var v := Lookup(host, views, open.value);
            RenderNode(host, partials, Section(open, kids, close), views, template, fuel)
            == if Falsy(v) || v == Array([]) then RenderNodes(host, partials, kids, views, template, fuel) else Done("")
  {
    hide RenderNodes, Lookup;
  }

  /**
   * A section over a value that is neither items nor a function: nothing if it is falsy, its contents
   * with an object or a string as innermost view, its contents in the same views otherwise.
   */
  lemma {:induction false} ValueSection(host: Host, partials: Partials, open: Token, kids: seq<Node>, close: Token,
                                        views: seq<Value>, template: string, fuel: nat)
    requires views != [] && open.kind == Open
    ensures var v := Lookup(host, views, open.value);
            var r := RenderNode(host, partials, Section(open, kids, close), views, template, fuel);
            && (Falsy(v) ==> r == Done(""))
            && (v.Object? || (v.Str? && v.s != "") ==>
                  r == RenderNodes(host, partials, kids, [v] + views, template, fuel))
            && (v == Boolean(true) || (v.Number? && v.n != 0.0) ==>
                  r == RenderNodes(host, partials, kids, views, template, fuel))
  {
    hide RenderNodes, Lookup;
  }

  /** A section over items prints its contents once for each, in order, with the item as innermost view. */
  lemma {:induction false} ArraySection(host: Host, partials: Partials, open: Token, kids: seq<Node>, close: Token,
                                        views: seq<Value>, template: string, fuel: nat, texts: seq<string>)
    requires views != [] && open.kind == Open && Lookup(host, views, open.value).Array?
    requires var items := Lookup(host, views, open.value).items;
             && |texts| == |items|
             && forall i | 0 <= i < |items| ::
                  RenderNodes(host, partials, kids, [ViewOf(items[i])] + views, template, fuel) == Done(texts[i])
    ensures RenderNode(host, partials, Section(open, kids, close), views, template, fuel) == Done(Concat(texts))
  {
    hide RenderNodes, RenderEach, Lookup, Concat;
    EachInOrder(host, partials, kids, Lookup(host, views, open.value).items, views, template, fuel, texts);
  }

  lemma {:induction false} EachInOrder(host: Host, partials: Partials, kids: seq<Node>, items: seq<Value>,
                                       views: seq<Value>, template: string, fuel: nat, texts: seq<string>)
    requires views != [] && |texts| == |items|
    requires forall i | 0 <= i < |items| ::
               RenderNodes(host, partials, kids, [ViewOf(items[i])] + views, template, fuel) == Done(texts[i])
    ensures RenderEach(host, partials, kids, items, views, template, fuel) == Done(Concat(texts))
  {
    hide RenderNodes, Concat;
    if items == [] {
      ConcatNone();
    } else {
      var n := |items| - 1;
      EachInOrder(host, partials, kids, items[..n], views, template, fuel, texts[..n]);
      ConcatSnoc(texts[..n], texts[n]);
      assert texts[..n] + [texts[n]] == texts;
      assert Own(items[n]) == ViewOf(items[n]);
    }
  }

  /** The first item whose contents do not print ends the section with that outcome. */
  lemma {:induction false} ArraySectionStops(host: Host, partials: Partials, open: Token, kids: seq<Node>, close: Token,
                                             views: seq<Value>, template: string, fuel: nat, k: nat)
    requires views != [] && open.kind == Open && Lookup(host, views, open.value).Array?
    requires var items := Lookup(host, views, open.value).items;
             && k < |items|
             && (forall i | 0 <= i < k ::
                   RenderNodes(host, partials, kids, [ViewOf(items[i])] + views, template, fuel).Done?)
             && !RenderNodes(host, partials, kids, [ViewOf(items[k])] + views, template, fuel).Done?
    ensures var item := Lookup(host, views, open.value).items[k];
            RenderNode(host, partials, Section(open, kids, close), views, template, fuel)
            == RenderNodes(host, partials, kids, [ViewOf(item)] + views, template, fuel)
  {
    hide RenderNodes, RenderEach, Lookup;
    EachStopsAt(host, partials, kids, Lookup(host, views, open.value).items, views, template, fuel, k);
  }

  lemma {:induction false} EachStopsAt(host: Host, partials: Partials, kids: seq<Node>, items: seq<Value>,
                                       views: seq<Value>, template: string, fuel: nat, k: nat)
    requires views != [] && k <= |items|
    requires forall i | 0 <= i < k ::
               RenderNodes(host, partials, kids, [ViewOf(items[i])] + views, template, fuel).Done?
    requires k < |items| ==> !RenderNodes(host, partials, kids, [ViewOf(items[k])] + views, template, fuel).Done?
    ensures var r := RenderEach(host, partials, kids, items, views, template, fuel);
            if k == |items| then r.Done?
            else r == RenderNodes(host, partials, kids, [ViewOf(items[k])] + views, template, fuel)
    decreases |items|
  {
    hide RenderNodes;
    if items != [] {
      var n := |items| - 1;
      assert Own(items[n]) == ViewOf(items[n]);
      EachStopsAt(host, partials, kids, items[..n], views, template, fuel, if k < n then k else n);
    }
  }

  /**
   * A section on a function hands it the innermost view and the template's text between the
   * section's tags, and prints what it makes of them.
   */
  lemma {:induction false} FunctionSection(host: Host, partials: Partials, open: Token, kids: seq<Node>, close: Token,
                                           views: seq<Value>, template: string, fuel: nat)
    requires views != [] && open.kind == Open && Lookup(host, views, open.value).Function?
    requires open.end <= close.start <= |template|
    ensures var id := Lookup(host, views, open.value).id;
            RenderNode(host, partials, Section(open, kids, close), views, template, fuel)
            == RunScript(host, partials, host.section(id, views[0], template[open.end..close.start]), views, fuel)
  {
    hide Lookup, RunScript;
    assert open.end == close.start ==> template[open.end..close.start] == "";
  }

  /**
   * What a section function returns is printed as it is; a template it asks for is rendered in the
   * section's views, and the function goes on with the text or ends with the error.
   */
  lemma {:induction false} FunctionRuns(host: Host, partials: Partials, script: Script, views: seq<Value>, fuel: nat)
    requires views != []
    ensures script.Return? ==> RunScript(host, partials, script, views, fuel) == Done(Printed(host, script.result))
    ensures script.Render? && fuel > 0 ==>
              var r := RenderTemplate(host, partials, script.template, views, fuel - 1);
              RunScript(host, partials, script, views, fuel)
              == if r.Done? then RunScript(host, partials, script.next(r.text), views, fuel - 1) else r
  {
    hide RenderNodes, Parse;
  }
}
