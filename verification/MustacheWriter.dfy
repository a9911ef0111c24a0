/** The writer: parsing with a cache, and rendering that may parse and render again while it runs. */
module MustacheWriter {
  import opened Wrappers
  import opened MustacheScanner
  import opened MustacheTokens
  import opened MustacheLexer
  import opened MustacheParser
  import opened MustacheContext
  import opened MustacheRender

  /** What remains of a rendering once it has gone wrong. */
  lemma {:induction false} RenderStops(host: Host, partials: Partials, nodes: seq<Node>, n: nat, views: seq<Value>,
                                       template: string, fuel: nat)
    requires views != [] && n <= |nodes| && !RenderNodes(host, partials, nodes[..n], views, template, fuel).Done?
    ensures RenderNodes(host, partials, nodes, views, template, fuel)
            == RenderNodes(host, partials, nodes[..n], views, template, fuel)
    decreases |nodes|
  {
    hide RenderNode;
    if n < |nodes| {
      assert nodes[..|nodes| - 1][..n] == nodes[..n];
      RenderStops(host, partials, nodes[..|nodes| - 1], n, views, template, fuel);
    } else {
      assert nodes[..n] == nodes;
    }
  }

  lemma {:induction false} RenderNext(host: Host, partials: Partials, nodes: seq<Node>, n: nat, views: seq<Value>,
                                      template: string, fuel: nat)
    requires views != [] && n < |nodes|
    ensures RenderNodes(host, partials, nodes[..n + 1], views, template, fuel)
            == Then(RenderNodes(host, partials, nodes[..n], views, template, fuel),
                    RenderNode(host, partials, nodes[n], views, template, fuel))
  {
    hide RenderNode, Then;
    assert nodes[..n + 1][..n] == nodes[..n];
  }

  lemma {:induction false} EachNext(host: Host, partials: Partials, kids: seq<Node>, items: seq<Value>, n: nat,
                                    views: seq<Value>, template: string, fuel: nat)
    requires views != [] && n < |items|
    ensures RenderEach(host, partials, kids, items[..n + 1], views, template, fuel)
            == Then(RenderEach(host, partials, kids, items[..n], views, template, fuel),
                    RenderNodes(host, partials, kids, [Own(items[n])] + views, template, fuel))
  {
    hide RenderNodes, Then;
    assert items[..n + 1][..n] == items[..n];
  }

  lemma {:induction false} EachStops(host: Host, partials: Partials, kids: seq<Node>, items: seq<Value>, n: nat,
                                     views: seq<Value>, template: string, fuel: nat)
    requires views != [] && n <= |items| && !RenderEach(host, partials, kids, items[..n], views, template, fuel).Done?
    ensures RenderEach(host, partials, kids, items, views, template, fuel)
            == RenderEach(host, partials, kids, items[..n], views, template, fuel)
    decreases |items|
  {
    hide RenderNodes;
    if n < |items| {
      assert items[..|items| - 1][..n] == items[..n];
      EachStops(host, partials, kids, items[..|items| - 1], n, views, template, fuel);
    } else {
      assert items[..n] == items;
    }
  }

  class Writer {
    const host: Host
    const partials: Partials
    var cache: map<string, seq<Node>>

    /** Every cached tree is what its template parses to under the default delimiters. */
    ghost predicate Valid()
      reads this
    {
      forall template | template in cache :: Parse(template, DEFAULT_TAGS) == Success(cache[template])
    }

    constructor (host: Host, partials: Partials)
      ensures Valid() && this.host == host && this.partials == partials
    {
      this.host, this.partials, cache := host, partials, map[];
    }

    method ClearCache()
      modifies this
      ensures Valid() && cache == map[]
    {
      cache := map[];
    }

    /**
     * Parses a template unless a tree is cached for it. The delimiters are no part of the key: a
     * cached tree is returned whatever they are.
     */
    method ParseCached(template: string, tags: Tags) returns (r: Result<seq<Node>, ParseError>)
      modifies this
      ensures r == if template in old(cache) then Success(old(cache[template])) else Parse(template, tags)
      ensures cache == if r.Success? then old(cache)[template := r.value] else old(cache)
      ensures old(Valid()) && tags == DEFAULT_TAGS ==> Valid() && r == Parse(template, DEFAULT_TAGS)
    {
      hide Parse;
      if template in cache {
        r := Success(cache[template]);
      } else {
        r := ParseTemplate(template, tags);
        if r.Success? {
          cache := cache[template := r.value];
        }
      }
    }

    /** Renders a template in a context. */
    method RenderTemplate(template: string, context: Context, fuel: nat) returns (r: Outcome)
      requires Valid() && context.Valid() && context.host == host
      modifies this, context
      ensures Valid() && context.Valid()
      ensures r == MustacheRender.RenderTemplate(host, partials, template, context.views, fuel)
      decreases fuel, 2
    {
      hide Parse, RenderNodes;
      var tokens := ParseCached(template, DEFAULT_TAGS);
      if tokens.Error? {
        return Threw(tokens.error);
      }
      r := RenderTokens(tokens.value, context, template, fuel);
    }

    /** Renders a template with a view of its own: a new context, with nothing around it. */
    method RenderView(template: string, view: Value, fuel: nat) returns (r: Outcome)
      requires Valid()
      modifies this
      ensures Valid() && r == MustacheRender.RenderTemplate(host, partials, template, [Own(view)], fuel)
    {
      hide Parse, RenderNodes, MustacheRender.RenderTemplate;
      var context := new Context(host, view, null);
      assert context.views == [Own(view)];
      r := RenderTemplate(template, context, fuel);
    }

    /** Appends the output of token after token to a buffer. */
    method RenderTokens(tokens: seq<Node>, context: Context, template: string, fuel: nat) returns (r: Outcome)
      requires Valid() && context.Valid() && context.host == host
      modifies this, context
      ensures Valid() && context.Valid()
      ensures r == RenderNodes(host, partials, tokens, context.views, template, fuel)
      decreases fuel, 1, tokens, 1
    {
      hide RenderNodes, RenderNode, Parse;
      var buffer := "";
      NothingRendered(host, partials, tokens, context.views, template, fuel);
      for i := 0 to |tokens|
        invariant Valid() && context.Valid()
        invariant RenderNodes(host, partials, tokens[..i], context.views, template, fuel) == Done(buffer)
      {
        RenderNext(host, partials, tokens, i, context.views, template, fuel);
        r := RenderToken(tokens[i], context, template, fuel);
        if !r.Done? {
          RenderStops(host, partials, tokens, i + 1, context.views, template, fuel);
          return;
        }
        buffer := buffer + r.text;
      }
      assert tokens[..|tokens|] == tokens;
      return Done(buffer);
    }

    method RenderToken(token: Node, context: Context, template: string, fuel: nat) returns (r: Outcome)
      requires Valid() && context.Valid() && context.host == host
      modifies this, context
      ensures Valid() && context.Valid()
      ensures r == RenderNode(host, partials, token, context.views, template, fuel)
      decreases fuel, 1, token, 0
    {
      hide RenderNodes, RenderEach, RunScript, Parse, Lookup;
      match token {
        case Section(open, kids, close) =>
          var value := context.LookUp(open.value);
          if open.kind.Inverted? {
            if IsFalsy(value) || value == Array([]) {
              r := RenderTokens(kids, context, template, fuel);
            } else {
              r := Done("");
            }
          } else if IsFalsy(value) {
            r := Done("");
          } else if value.Array? {
            r := RenderItems(kids, value.items, context, template, fuel);
          } else if value.Object? || value.Str? {
            var inner := context.Push(value);
            r := RenderTokens(kids, inner, template, fuel);
          } else if value.Function? {
            var script := host.section(value.id, context.view, Slice(template, open.end, close.start));
            r := Run(script, context, fuel);
          } else {
            r := RenderTokens(kids, context, template, fuel);
          }
        case Leaf(t) =>
          match t.kind {
            case Text =>
              r := Done(t.value);
            case Name =>
              var value := context.LookUp(t.value);
              r := Done(if IsNothing(value) then "" else EscapeHtml(ToText(host, value)));
            case Raw =>
              var value := context.LookUp(t.value);
              r := Done(if IsNothing(value) then "" else ToText(host, value));
            case Partial =>
              if partials.NoPartials? {
                r := Done("");
              } else {
                var value := partials.get(t.value);
                if value.None? {
                  r := Done("");
                } else if fuel == 0 {
                  r := OutOfFuel;
                } else {
                  var tokens := ParseCached(value.value, DEFAULT_TAGS);
                  if tokens.Error? {
                    r := Threw(tokens.error);
                  } else {
                    r := RenderTokens(tokens.value, context, value.value, fuel - 1);
                  }
                }
              }
            case _ =>
              r := Done("");
          }
      }
    }

    /** A section over an array. */
    method RenderItems(kids: seq<Node>, items: seq<Value>, context: Context, template: string, fuel: nat)
      returns (r: Outcome)
      requires Valid() && context.Valid() && context.host == host
      modifies this, context
      ensures Valid() && context.Valid()
      ensures r == RenderEach(host, partials, kids, items, context.views, template, fuel)
      decreases fuel, 1, kids, 2
    {
      hide RenderNodes, RenderEach, Parse;
      var buffer := "";
      NoItems(host, partials, kids, items, context.views, template, fuel);
      for j := 0 to |items|
        invariant Valid() && context.Valid()
        invariant RenderEach(host, partials, kids, items[..j], context.views, template, fuel) == Done(buffer)
      {
        EachNext(host, partials, kids, items, j, context.views, template, fuel);
        var inner := context.Push(items[j]);
        r := RenderTokens(kids, inner, template, fuel);
        if !r.Done? {
          EachStops(host, partials, kids, items, j + 1, context.views, template, fuel);
          return;
        }
        buffer := buffer + r.text;
      }
      assert items[..|items|] == items;
      return Done(buffer);
    }

    /** A section function, with `subRender` at its disposal. */
    method Run(script: Script, context: Context, fuel: nat) returns (r: Outcome)
      requires Valid() && context.Valid() && context.host == host
      modifies this, context
      ensures Valid() && context.Valid()
      ensures r == RunScript(host, partials, script, context.views, fuel)
      decreases fuel, 0
    {
      hide RenderNodes, Parse;
      match script {
        case Return(value) =>
          r := Done(if IsNothing(value) then "" else ToText(host, value));
        case Render(template, next) =>
          if fuel == 0 {
            r := OutOfFuel;
          } else {
            r := RenderTemplate(template, context, fuel - 1);
            if r.Done? {
              r := Run(next(r.text), context, fuel - 1);
            }
          }
      }
    }
  }

  lemma {:induction false} NothingRendered(host: Host, partials: Partials, nodes: seq<Node>, views: seq<Value>,
                                           template: string, fuel: nat)
    requires views != []
    ensures RenderNodes(host, partials, nodes[..0], views, template, fuel) == Done("")
  {
  }

  lemma {:induction false} NoItems(host: Host, partials: Partials, kids: seq<Node>, items: seq<Value>,
                                   views: seq<Value>, template: string, fuel: nat)
    requires views != []
    ensures RenderEach(host, partials, kids, items[..0], views, template, fuel) == Done("")
  {
  }
}
