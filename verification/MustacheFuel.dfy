/** How much fuel a rendering needs. */
module MustacheFuel {
  import opened Wrappers
  import opened MustacheScanner
  import opened MustacheTokens
  import opened MustacheLexer
  import opened MustacheParser
  import opened MustacheContext
  import opened MustacheRender

  // ---------- more fuel ----------

  /** One more unit of fuel does not change a result that the rest was enough for. */
  lemma {:induction false} OneMoreFuel(host: Host, partials: Partials, nodes: seq<Node>, views: seq<Value>,
                                       template: string, fuel: nat)
    requires views != [] && !RenderNodes(host, partials, nodes, views, template, fuel).OutOfFuel?
    ensures RenderNodes(host, partials, nodes, views, template, fuel + 1)
            == RenderNodes(host, partials, nodes, views, template, fuel)
    decreases fuel, 1, nodes, 1
  {
    hide RenderNode;
    if nodes != [] {
      var before, n := nodes[..|nodes| - 1], nodes[|nodes| - 1];
      OneMoreFuel(host, partials, before, views, template, fuel);
      if RenderNodes(host, partials, before, views, template, fuel).Done? {
        OneMoreFuelNode(host, partials, n, views, template, fuel);
      }
    }
  }

  lemma {:induction false} OneMoreFuelNode(host: Host, partials: Partials, n: Node, views: seq<Value>,
                                           template: string, fuel: nat)
    requires views != [] && !RenderNode(host, partials, n, views, template, fuel).OutOfFuel?
    ensures RenderNode(host, partials, n, views, template, fuel + 1)
            == RenderNode(host, partials, n, views, template, fuel)
    decreases fuel, 1, n, 0
  {
    hide RenderNodes, RenderEach, RunScript, Parse, Lookup;
    match n {
      case Leaf(t) =>
        if t.kind.Partial? && partials.PartialsBy? && partials.get(t.value).Some? {
          var inner := partials.get(t.value).value;
          if Parse(inner, DEFAULT_TAGS).Success? {
            OneMoreFuel(host, partials, Parse(inner, DEFAULT_TAGS).value, views, inner, fuel - 1);
          }
        }
      case Section(open, kids, close) =>
        var value := Lookup(host, views, open.value);
        if open.kind.Inverted? {
          if IsFalsy(value) || value == Array([]) { OneMoreFuel(host, partials, kids, views, template, fuel); }
        } else if IsFalsy(value) {
        } else if value.Array? {
          OneMoreFuelEach(host, partials, kids, value.items, views, template, fuel);
        } else if value.Object? || value.Str? {
          OneMoreFuel(host, partials, kids, [Own(value)] + views, template, fuel);
        } else if value.Function? {
          var script := host.section(value.id, views[0], Slice(template, open.end, close.start));
          OneMoreFuelScript(host, partials, script, views, fuel);
        } else {
          OneMoreFuel(host, partials, kids, views, template, fuel);
        }
    }
  }

  lemma {:induction false} OneMoreFuelEach(host: Host, partials: Partials, kids: seq<Node>, items: seq<Value>,
                                          views: seq<Value>, template: string, fuel: nat)
    requires views != [] && !RenderEach(host, partials, kids, items, views, template, fuel).OutOfFuel?
    ensures RenderEach(host, partials, kids, items, views, template, fuel + 1)
            == RenderEach(host, partials, kids, items, views, template, fuel)
    decreases fuel, 1, kids, 2 + |items|
  {
    hide RenderNodes;
    if items != [] {
      OneMoreFuelEach(host, partials, kids, items[..|items| - 1], views, template, fuel);
      if RenderEach(host, partials, kids, items[..|items| - 1], views, template, fuel).Done? {
        OneMoreFuel(host, partials, kids, [Own(items[|items| - 1])] + views, template, fuel);
      }
    }
  }

  lemma {:induction false} OneMoreFuelScript(host: Host, partials: Partials, script: Script, views: seq<Value>,
                                             fuel: nat)
    requires views != [] && !RunScript(host, partials, script, views, fuel).OutOfFuel?
    ensures RunScript(host, partials, script, views, fuel + 1) == RunScript(host, partials, script, views, fuel)
    decreases fuel, 0
  {
    hide RenderNodes, Parse;
    if script.Render? && Parse(script.template, DEFAULT_TAGS).Success? {
      var tree := Parse(script.template, DEFAULT_TAGS).value;
      OneMoreFuel(host, partials, tree, views, script.template, fuel - 1);
      var r := RenderNodes(host, partials, tree, views, script.template, fuel - 1);
      if r.Done? {
        OneMoreFuelScript(host, partials, script.next(r.text), views, fuel - 1);
      }
    }
  }

  /** More fuel does not change a result that some fuel was enough for. */
  lemma {:induction false} EnoughFuel(host: Host, partials: Partials, nodes: seq<Node>, views: seq<Value>,
                                      template: string, fuel: nat, more: nat)
    requires views != [] && !RenderNodes(host, partials, nodes, views, template, fuel).OutOfFuel?
    ensures RenderNodes(host, partials, nodes, views, template, fuel + more)
            == RenderNodes(host, partials, nodes, views, template, fuel)
  {
    hide RenderNodes;
    if more > 0 {
      EnoughFuel(host, partials, nodes, views, template, fuel, more - 1);
      OneMoreFuel(host, partials, nodes, views, template, fuel + (more - 1));
    }
  }

  // ---------- enough fuel ----------

  /** No section stands on a function: functions found by name return none when they are called. */
  ghost predicate NoSectionFunctions(host: Host) { forall id, v :: !host.call(id, v).Function? }

  /** The partials that a node asks for exist not at all or have a rank below the bound. */
  ghost predicate NodeBelow(partials: Partials, n: Node, rank: string -> nat, bound: nat) {
    match n
    case Leaf(t) =>
      t.kind.Partial? && partials.PartialsBy? && partials.get(t.value).Some? ==> rank(t.value) < bound
    case Section(open, kids, close) => NodesBelow(partials, kids, rank, bound)
  }

  ghost predicate NodesBelow(partials: Partials, nodes: seq<Node>, rank: string -> nat, bound: nat) {
    nodes == []
    || (NodesBelow(partials, nodes[..|nodes| - 1], rank, bound)
        && NodeBelow(partials, nodes[|nodes| - 1], rank, bound))
  }

  /** Partials ask only for partials of lower rank, hence never for themselves. */
  ghost predicate Acyclic(partials: Partials, rank: string -> nat) {
    partials.PartialsBy? ==>
      forall name | partials.get(name).Some? && Parse(partials.get(name).value, DEFAULT_TAGS).Success? ::
        NodesBelow(partials, Parse(partials.get(name).value, DEFAULT_TAGS).value, rank, rank(name))
  }

  lemma {:induction false} NodesBelowMore(partials: Partials, nodes: seq<Node>, rank: string -> nat, bound: nat,
                                          more: nat)
    requires NodesBelow(partials, nodes, rank, bound) && bound <= more
    ensures NodesBelow(partials, nodes, rank, more)
    decreases nodes, 1
  {
    if nodes != [] {
      NodesBelowMore(partials, nodes[..|nodes| - 1], rank, bound, more);
      NodeBelowMore(partials, nodes[|nodes| - 1], rank, bound, more);
    }
  }

  lemma {:induction false} NodeBelowMore(partials: Partials, n: Node, rank: string -> nat, bound: nat, more: nat)
    requires NodeBelow(partials, n, rank, bound) && bound <= more
    ensures NodeBelow(partials, n, rank, more)
    decreases n, 0
  {
    if n.Section? { NodesBelowMore(partials, n.kids, rank, bound, more); }
  }

  lemma {:induction false} LooksUpNoFunction(host: Host, views: seq<Value>, name: string)
    requires views != [] && NoSectionFunctions(host)
    ensures !Lookup(host, views, name).Function?
  {
    hide Find;
  }

  /** Without section functions, fuel above the ranks of the partials asked for is enough. */
  lemma {:induction false} FuelSuffices(host: Host, partials: Partials, nodes: seq<Node>, views: seq<Value>,
                                        template: string, fuel: nat, rank: string -> nat)
    requires views != [] && NoSectionFunctions(host)
    requires Acyclic(partials, rank) && NodesBelow(partials, nodes, rank, fuel)
    ensures !RenderNodes(host, partials, nodes, views, template, fuel).OutOfFuel?
    decreases fuel, nodes, 1
  {
    hide RenderNode, NodeBelow, Acyclic, NoSectionFunctions;
    if nodes != [] {
      FuelSuffices(host, partials, nodes[..|nodes| - 1], views, template, fuel, rank);
      NodeFuelSuffices(host, partials, nodes[|nodes| - 1], views, template, fuel, rank);
    }
  }

  lemma {:induction false} NodeFuelSuffices(host: Host, partials: Partials, n: Node, views: seq<Value>,
                                            template: string, fuel: nat, rank: string -> nat)
    requires views != [] && NoSectionFunctions(host)
    requires Acyclic(partials, rank) && NodeBelow(partials, n, rank, fuel)
    ensures !RenderNode(host, partials, n, views, template, fuel).OutOfFuel?
    decreases fuel, n, 0
  {
    hide RenderNodes, RenderEach, RunScript, Parse, Lookup, NodesBelow, NoSectionFunctions;
    match n {
      case Leaf(t) =>
        if t.kind.Partial? && partials.PartialsBy? && partials.get(t.value).Some? {
          var inner := partials.get(t.value).value;
          if Parse(inner, DEFAULT_TAGS).Success? {
            var tree := Parse(inner, DEFAULT_TAGS).value;
            NodesBelowMore(partials, tree, rank, rank(t.value), fuel - 1);
            FuelSuffices(host, partials, tree, views, inner, fuel - 1, rank);
          }
        }
      case Section(open, kids, close) =>
        var value := Lookup(host, views, open.value);
        LooksUpNoFunction(host, views, open.value);
        FuelSuffices(host, partials, kids, views, template, fuel, rank);
        FuelSuffices(host, partials, kids, [Own(value)] + views, template, fuel, rank);
        if value.Array? { EachFuelSuffices(host, partials, kids, value.items, views, template, fuel, rank); }
    }
  }

  lemma {:induction false} EachFuelSuffices(host: Host, partials: Partials, kids: seq<Node>, items: seq<Value>,
                                            views: seq<Value>, template: string, fuel: nat, rank: string -> nat)
    requires views != [] && NoSectionFunctions(host)
    requires Acyclic(partials, rank) && NodesBelow(partials, kids, rank, fuel)
    ensures !RenderEach(host, partials, kids, items, views, template, fuel).OutOfFuel?
    decreases fuel, kids, 2 + |items|
  {
    hide RenderNodes, NodesBelow, Acyclic, NoSectionFunctions;
    if items != [] {
      var n := |items| - 1;
      EachFuelSuffices(host, partials, kids, items[..n], views, template, fuel, rank);
      FuelSuffices(host, partials, kids, [Own(items[n])] + views, template, fuel, rank);
    }
  }

  /** Without partials and section functions no fuel is needed at all. */
  lemma {:induction false} PlainNeedsNoFuel(host: Host, nodes: seq<Node>, views: seq<Value>, template: string,
                                            fuel: nat)
    requires views != [] && NoSectionFunctions(host)
    ensures !RenderNodes(host, NoPartials, nodes, views, template, fuel).OutOfFuel?
  {
    hide RenderNodes, NoSectionFunctions, NodesBelow;
    var rank: string -> nat := _ => 0;
    NoPartialsBelow(nodes, rank, fuel);
    FuelSuffices(host, NoPartials, nodes, views, template, fuel, rank);
  }

  lemma {:induction false} NoPartialsBelow(nodes: seq<Node>, rank: string -> nat, bound: nat)
    ensures NodesBelow(NoPartials, nodes, rank, bound)
    decreases nodes, 1
  {
    if nodes != [] {
      NoPartialsBelow(nodes[..|nodes| - 1], rank, bound);
      NodeWithoutPartials(nodes[|nodes| - 1], rank, bound);
    }
  }

  lemma {:induction false} NodeWithoutPartials(n: Node, rank: string -> nat, bound: nat)
    ensures NodeBelow(NoPartials, n, rank, bound)
    decreases n, 0
  {
    if n.Section? { NoPartialsBelow(n.kids, rank, bound); }
  }
}
