/** What a token tree renders to. */
module MustacheRender {
  import opened Wrappers
  import opened MustacheScanner
  import opened MustacheTokens
  import opened MustacheSquash
  import opened MustacheLines
  import opened MustacheLexer
  import opened MustacheParser
  import opened MustacheContext

  /**
   * The result of rendering. Partials and section functions can make templates render templates
   * without end; `fuel` bounds how deep they do and how many templates one section function asks for,
   * and is never otherwise used up.
   */
  datatype Outcome = Done(text: string) | Threw(error: ParseError) | OutOfFuel

  datatype Partials = NoPartials | PartialsBy(get: string -> Option<string>)

  /** One output after another; the first exception ends it. */
  function Then(a: Outcome, b: Outcome): Outcome {
    match a
    case Done(s) => (match b case Done(t) => Done(s + t) case _ => b)
    case _ => a
  }

  function EscapeChar(c: char): string {
    if c == '&' then "&amp;"
    else if c == '<' then "&lt;"
    else if c == '>' then "&gt;"
    else if c == '\"' then "&quot;"
    else if c == '\'' then "&#39;"
    else if c == '/' then "&#x2F;"
    else [c]
  }

  function EscapeHtml(s: string): string {
    if s == "" then "" else EscapeChar(s[0]) + EscapeHtml(s[1..])
  }

  /** The character that a text starts with, entities counting as one, and its length. */
  function FirstCharacter(t: string): (r: (char, nat))
    requires t != ""
    ensures 0 < r.1 <= |t|
  {
    if "&amp;" <= t then ('&', 5)
    else if "&lt;" <= t then ('<', 4)
    else if "&gt;" <= t then ('>', 4)
    else if "&quot;" <= t then ('\"', 6)
    else if "&#39;" <= t then ('\'', 5)
    else if "&#x2F;" <= t then ('/', 6)
    else (t[0], 1)
  }

  /** How a browser reads a text with entities. */
  function Unescape(t: string): string {
    if t == "" then "" else [FirstCharacter(t).0] + Unescape(t[FirstCharacter(t).1..])
  }

  lemma {:induction false} FirstEscaped(c: char, rest: string)
    ensures FirstCharacter(EscapeChar(c) + rest) == (c, |EscapeChar(c)|)
  {
    var e := EscapeChar(c);
    var t := e + rest;
    assert e <= t;
    assert t[0] == e[0];
    if c == '&' || c == '<' || c == '>' || c == '\"' || c == '\'' || c == '/' {
      assert t[1] == e[1] && t[2] == e[2] && t[3] == e[3];
    }
  }

  /** Escaped text can be put between tags and quotes, and reads as the text it was made from. */
  lemma {:induction false} EscapedIsSafe(s: string)
    ensures forall k | 0 <= k < |EscapeHtml(s)| :: EscapeHtml(s)[k] !in "<>\"\'/"
    ensures Unescape(EscapeHtml(s)) == s
  {
    if s != "" {
      var (e, rest) := (EscapeChar(s[0]), EscapeHtml(s[1..]));
      EscapedIsSafe(s[1..]);
      EscapedCharIsSafe(s[0]);
      FirstEscaped(s[0], rest);
      assert (e + rest)[|e|..] == rest;
    }
  }

  lemma {:induction false} EscapedCharIsSafe(c: char)
    ensures EscapeChar(c) != "" && forall k | 0 <= k < |EscapeChar(c)| :: EscapeChar(c)[k] !in "<>\"\'/"
  {
  }

  function ToText(host: Host, v: Value): string { if v.Str? then v.s else host.text(v) }

  /** `slice` with non-negative bounds. */
  function Slice(s: string, lo: nat, hi: nat): string {
    var b := if hi <= |s| then hi else |s|;
    if lo < b then s[lo..b] else ""
  }

  // ---------- rendering ----------

  function RenderNodes(host: Host, partials: Partials, nodes: seq<Node>, views: seq<Value>, template: string,
                       fuel: nat): Outcome
    requires views != []
    decreases fuel, 1, nodes, 1
  {
    if nodes == [] then Done("")
    else
      Then(RenderNodes(host, partials, nodes[..|nodes| - 1], views, template, fuel),
           RenderNode(host, partials, nodes[|nodes| - 1], views, template, fuel))
  }

  function RenderNode(host: Host, partials: Partials, n: Node, views: seq<Value>, template: string, fuel: nat): Outcome
    requires views != []
    decreases fuel, 1, n, 0
  {
    match n
    case Section(open, kids, close) =>
      var value := Lookup(host, views, open.value);
      if open.kind.Inverted? then
        if IsFalsy(value) || value == Array([]) then RenderNodes(host, partials, kids, views, template, fuel)
        else Done("")
      else if IsFalsy(value) then Done("")
      else if value.Array? then RenderEach(host, partials, kids, value.items, views, template, fuel)
      else if value.Object? || value.Str? then
        RenderNodes(host, partials, kids, [Own(value)] + views, template, fuel)
      else if value.Function? then
        var script := host.section(value.id, views[0], Slice(template, open.end, close.start));
        RunScript(host, partials, script, views, fuel)
      else RenderNodes(host, partials, kids, views, template, fuel)
    case Leaf(t) =>
      match t.kind
      case Text => Done(t.value)
      case Name =>
        var value := Lookup(host, views, t.value);
        Done(if IsNothing(value) then "" else EscapeHtml(ToText(host, value)))
      case Raw =>
        var value := Lookup(host, views, t.value);
        Done(if IsNothing(value) then "" else ToText(host, value))
      case Partial =>
        if partials.NoPartials? then Done("")
        else
          (match partials.get(t.value)
           case None => Done("")
           case Some(template) =>
             if fuel == 0 then OutOfFuel
             else match Parse(template, DEFAULT_TAGS)
               case Error(e) => Threw(e)
               case Success(tree) => RenderNodes(host, partials, tree, views, template, fuel - 1))
      case _ => Done("")
  }

  /** A section over an array: its contents once for each item. */
  function RenderEach(host: Host, partials: Partials, kids: seq<Node>, items: seq<Value>, views: seq<Value>,
                      template: string, fuel: nat): Outcome
    requires views != []
    decreases fuel, 1, kids, 2 + |items|
  {
    if items == [] then Done("")
    else
      Then(RenderEach(host, partials, kids, items[..|items| - 1], views, template, fuel),
           RenderNodes(host, partials, kids, [Own(items[|items| - 1])] + views, template, fuel))
  }

  /** A section function: the templates it asks for are rendered in the section's context. */
  function RunScript(host: Host, partials: Partials, script: Script, views: seq<Value>, fuel: nat): Outcome
    requires views != []
    decreases fuel, 0
  {
    match script
    case Return(v) => Done(if IsNothing(v) then "" else ToText(host, v))
    case Render(template, next) =>
      if fuel == 0 then OutOfFuel
      else match Parse(template, DEFAULT_TAGS)
        case Error(e) => Threw(e)
        case Success(tree) =>
          match RenderNodes(host, partials, tree, views, template, fuel - 1)
          case Done(s) => RunScript(host, partials, next(s), views, fuel - 1)
          case r => r
  }

  /** A whole template. */
  function RenderTemplate(host: Host, partials: Partials, template: string, views: seq<Value>, fuel: nat): Outcome
    requires views != []
  {
    match Parse(template, DEFAULT_TAGS)
    case Error(e) => Threw(e)
    case Success(tree) => RenderNodes(host, partials, tree, views, template, fuel)
  }

  // ---------- squashing preserves meaning ----------

  lemma {:induction false} RenderSnoc(host: Host, partials: Partials, nodes: seq<Node>, n: Node, views: seq<Value>,
                                      template: string, fuel: nat)
    requires views != []
    ensures RenderNodes(host, partials, nodes + [n], views, template, fuel)
            == Then(RenderNodes(host, partials, nodes, views, template, fuel),
                    RenderNode(host, partials, n, views, template, fuel))
  {
    hide RenderNode, Then;
    assert (nodes + [n])[..|nodes + [n]| - 1] == nodes;
  }

  lemma {:induction false} ThenJoin(a: Outcome, s: string, t: string)
    ensures Then(Then(a, Done(s)), Done(t)) == Then(a, Done(s + t))
  {
    if a.Done? { assert a.text + s + t == a.text + (s + t); }
  }

  lemma {:induction false} RenderText(host: Host, partials: Partials, t: Token, views: seq<Value>, template: string,
                                      fuel: nat)
    requires views != [] && t.kind.Text?
    ensures RenderNode(host, partials, Leaf(t), views, template, fuel) == Done(t.value)
  {
  }

  /** Joining a text leaf to the one before it renders as the two did. */
  lemma {:induction false} RenderAddNode(host: Host, partials: Partials, nodes: seq<Node>, n: Node, views: seq<Value>,
                                         template: string, fuel: nat)
    requires views != []
    ensures RenderNodes(host, partials, AddNode(nodes, n), views, template, fuel)
            == Then(RenderNodes(host, partials, nodes, views, template, fuel),
                    RenderNode(host, partials, n, views, template, fuel))
  {
    hide RenderNodes, RenderNode, Then;
    var k := |nodes| - 1;
    RenderSnoc(host, partials, nodes, n, views, template, fuel);
    if k >= 0 && nodes[k].Leaf? && n.Leaf? && Joins(nodes[k].token, n.token) {
      var (s, t) := (nodes[k].token, n.token);
      assert nodes[..k] + [nodes[k]] == nodes;
      RenderSnoc(host, partials, nodes[..k], nodes[k], views, template, fuel);
      RenderSnoc(host, partials, nodes[..k], Leaf(Join(s, t)), views, template, fuel);
      RenderText(host, partials, s, views, template, fuel);
      RenderText(host, partials, t, views, template, fuel);
      RenderText(host, partials, Join(s, t), views, template, fuel);
      ThenJoin(RenderNodes(host, partials, nodes[..k], views, template, fuel), s.value, t.value);
    }
  }

  /**
   * A squashed tree renders as the tree it was made from: in every context, under arrays, inverted
   * and function sections, with any partials.
   */
  lemma {:induction false} RenderSquashed(host: Host, partials: Partials, nodes: seq<Node>, views: seq<Value>,
                                          template: string, fuel: nat)
    requires views != []
    ensures RenderNodes(host, partials, SquashTree(nodes), views, template, fuel)
            == RenderNodes(host, partials, nodes, views, template, fuel)
    decreases nodes, 1
  {
    hide RenderNode, Then, AddNode, SquashNode;
    if nodes != [] {
      var before, n := nodes[..|nodes| - 1], nodes[|nodes| - 1];
      RenderSquashed(host, partials, before, views, template, fuel);
      RenderSquashedNode(host, partials, n, views, template, fuel);
      RenderAddNode(host, partials, SquashTree(before), SquashNode(n), views, template, fuel);
    }
  }

  lemma {:induction false} RenderSquashedNode(host: Host, partials: Partials, n: Node, views: seq<Value>,
                                              template: string, fuel: nat)
    requires views != []
    ensures RenderNode(host, partials, SquashNode(n), views, template, fuel)
            == RenderNode(host, partials, n, views, template, fuel)
    decreases n, 0
  {
    hide RenderNodes, RenderEach, RunScript, SquashTree, Lookup;
    if n.Section? {
      var value := Lookup(host, views, n.open.value);
      RenderSquashed(host, partials, n.kids, views, template, fuel);
      RenderSquashed(host, partials, n.kids, [Own(value)] + views, template, fuel);
      if value.Array? {
        RenderSquashedEach(host, partials, n.kids, value.items, views, template, fuel);
      }
    }
  }

  lemma {:induction false} RenderSquashedEach(host: Host, partials: Partials, kids: seq<Node>, items: seq<Value>,
                                              views: seq<Value>, template: string, fuel: nat)
    requires views != []
    ensures RenderEach(host, partials, SquashTree(kids), items, views, template, fuel)
            == RenderEach(host, partials, kids, items, views, template, fuel)
    decreases kids, 2 + |items|
  {
    hide RenderNodes, SquashTree, Then;
    if items != [] {
      RenderSquashedEach(host, partials, kids, items[..|items| - 1], views, template, fuel);
      RenderSquashed(host, partials, kids, [Own(items[|items| - 1])] + views, template, fuel);
    }
  }

  /**
   * The parser's last passes preserve meaning: an accepted template renders as the tree nested from
   * its flat tokens with the holes removed and nothing joined.
   */
  lemma {:induction false} SquashingPreservesMeaning(host: Host, partials: Partials, template: string,
                                                     views: seq<Value>, fuel: nat)
    requires views != [] && Parse(template, DEFAULT_TAGS).Success?
    ensures var flat := Compact(Strip(Lex(template, 0, DEFAULT_TAGS).tokens));
            && Balanced(flat)
            && RenderTemplate(host, partials, template, views, fuel)
               == RenderNodes(host, partials, Nest(flat), views, template, fuel)
  {
    hide Lex, CheckRun, NestRun, Strip, Compact, SquashRun, RenderNodes, SquashTree;
    var raw := Lex(template, 0, DEFAULT_TAGS).tokens;
    StrippedNests(raw);
    NestOfSquash(Compact(Strip(raw)));
    RenderSquashed(host, partials, Nest(Compact(Strip(raw))), views, template, fuel);
  }
}
