/** Views and the lookup of names in a chain of them. */
module MustacheContext {
  /** A JavaScript value, as far as templates can tell values apart. */
  datatype Value =
    | Undefined
    | Null
    | Boolean(b: bool)
    | Number(n: real)
    | NotANumber
    | Str(s: string)
    | Array(items: seq<Value>)
    | Object(fields: map<string, Value>)
    | Function(id: nat)

  /** What a section function does: ask for templates to be rendered, then return a value. */
  datatype Script = Return(result: Value) | Render(template: string, next: string -> Script)

  /**
   * The parts of JavaScript that templates reach but that the engine does not define: properties
   * other than an object's own, calls of functions found by name or standing on a section, and the
   * conversion of values to text. All are deterministic and otherwise arbitrary.
   */
  datatype Host = Host(
    property: (Value, string) -> Value,
    call: (nat, Value) -> Value,
    section: (nat, Value, string) -> Script,
    text: Value -> string)

  /** `== null` */
  predicate IsNothing(v: Value) { v.Undefined? || v.Null? }

  predicate IsFalsy(v: Value) {
    IsNothing(v) || v == Boolean(false) || v == Number(0.0) || v.NotANumber? || v == Str("")
  }

  /** The view a context is made of; nothing becomes an empty object. */
  function Own(view: Value): Value { if IsNothing(view) then Object(map[]) else view }

  function Get(host: Host, v: Value, name: string): Value {
    if v.Object? && name in v.fields then v.fields[name] else host.property(v, name)
  }

  // ---------- dotted names ----------

  /** A dot somewhere, but not first. */
  predicate IsDotted(name: string) { '.' in name && name[0] != '.' }

  /** `name.split('.')` */
  function SplitDots(name: string): (r: seq<string>)
    ensures r != []
  {
    if name == "" then [""]
    else
      var rest := SplitDots(name[1..]);
      if name[0] == '.' then [""] + rest else [[name[0]] + rest[0]] + rest[1..]
  }

  function JoinDots(names: seq<string>): string
    requires names != []
  {
    if |names| == 1 then names[0] else names[0] + "." + JoinDots(names[1..])
  }

  /** Splitting a name at its dots loses nothing and leaves no dot. */
  lemma {:induction false} SplitIsExact(name: string)
    ensures JoinDots(SplitDots(name)) == name
    ensures forall k | 0 <= k < |SplitDots(name)| :: '.' !in SplitDots(name)[k]
  {
    if name != "" {
      var rest := SplitDots(name[1..]);
      SplitIsExact(name[1..]);
      assert name == [name[0]] + name[1..];
      if name[0] == '.' {
        assert ([""] + rest)[1..] == rest;
      } else {
        var r := [[name[0]] + rest[0]] + rest[1..];
        assert r[1..] == rest[1..];
      }
    }
  }

  /** Following a path of properties while there is something to follow. */
  function Follow(host: Host, v: Value, names: seq<string>): Value
    decreases |names|
  {
    if IsNothing(v) || names == [] then v else Follow(host, Get(host, v, names[0]), names[1..])
  }

  // ---------- lookup without a memo ----------

  function LookAt(host: Host, view: Value, name: string): Value {
    if IsDotted(name) then Follow(host, view, SplitDots(name)) else Get(host, view, name)
  }

  /** The first view, from the innermost outwards, that has something under the name. */
  function Walk(host: Host, views: seq<Value>, name: string): Value
    requires views != []
  {
    var v := LookAt(host, views[0], name);
    if !IsNothing(v) || |views| == 1 then v else Walk(host, views[1..], name)
  }

  function Find(host: Host, views: seq<Value>, name: string): Value
    requires views != []
  {
    if name == "." then views[0] else Walk(host, views, name)
  }

  /** What a name stands for; a function found is called on the innermost view. */
  function Lookup(host: Host, views: seq<Value>, name: string): Value
    requires views != []
  {
    var v := Find(host, views, name);
    if v.Function? then host.call(v.id, views[0]) else v
  }

  /** The walk stops at the innermost view that has the name, and at the outermost if none has. */
  lemma {:induction false} WalkFindsInnermost(host: Host, views: seq<Value>, name: string, k: nat)
    requires k < |views| && forall j | 0 <= j < k :: IsNothing(LookAt(host, views[j], name))
    requires !IsNothing(LookAt(host, views[k], name)) || k == |views| - 1
    ensures Walk(host, views, name) == LookAt(host, views[k], name)
  {
    hide LookAt;
    if k > 0 {
      assert forall j | 0 <= j < k - 1 :: views[1..][j] == views[j + 1];
      WalkFindsInnermost(host, views[1..], name, k - 1);
    }
  }

  // ---------- contexts ----------

  /** A view with the contexts around it, and a memo of the names looked up. */
  class Context {
    const host: Host
    const view: Value
    const parent: Context?
    var cache: map<string, Value>
    /** The views of the chain, this one first. */
    ghost const views: seq<Value>

    ghost predicate Linked()
      decreases |views|
    {
      && views != [] && views[0] == view
      && if parent == null then |views| == 1
         else parent.views == views[1..] && parent.host == host && parent.Linked()
    }

    ghost predicate Valid()
      reads this
    {
      Linked() && "." in cache && forall name | name in cache :: cache[name] == Find(host, views, name)
    }

    constructor (host: Host, view: Value, parent: Context?)
      requires parent != null ==> parent.Linked() && parent.host == host
      ensures Valid() && this.host == host
      ensures views == [Own(view)] + if parent == null then [] else parent.views
    {
      this.host, this.view, this.parent := host, Own(view), parent;
      cache := map["." := Own(view)];
      views := [Own(view)] + if parent == null then [] else parent.views;
    }

    /** A context for a view inside this one. */
    method Push(view: Value) returns (c: Context)
      requires Linked()
      ensures fresh(c) && c.Valid() && c.host == host && c.views == [Own(view)] + views
    {
      c := new Context(host, view, this);
    }

    /** What this view has under a name, a dotted name being followed property by property. */
    method OwnLookUp(name: string) returns (value: Value)
      ensures value == LookAt(host, view, name)
    {
      if IsDotted(name) {
        value := view;
        var names := SplitDots(name);
        var index := 0;
        while !IsNothing(value) && index < |names|
          invariant 0 <= index <= |names|
          invariant Follow(host, value, names[index..]) == LookAt(host, view, name)
        {
          assert names[index..][0] == names[index] && names[index..][1..] == names[index + 1..];
          value := Get(host, value, names[index]);
          index := index + 1;
        }
      } else {
        value := Get(host, view, name);
      }
    }

    /** Looks a name up, in the memo first. */
    method LookUp(name: string) returns (value: Value)
      requires Valid()
      modifies this`cache
      ensures Valid() && value == Lookup(host, views, name)
    {
      hide LookAt;
      if name in cache {
        value := cache[name];
      } else {
        value := Undefined;
        var context: Context? := this;
        while context != null
          invariant cache == old(cache)
          invariant context != null ==> context.Linked() && context.host == host
          invariant context != null ==> Walk(host, views, name) == Walk(host, context.views, name)
          invariant context == null ==> value == Walk(host, views, name)
          decreases if context == null then 0 else |context.views|
        {
          value := context.OwnLookUp(name);
          assert context.views[0] == context.view;
          if !IsNothing(value) {
            assert value == Walk(host, views, name);
            break;
          }
          context := context.parent;
        }
        cache := cache[name := value];
      }
      if value.Function? {
        value := host.call(value.id, view);
      }
    }
  }
}
