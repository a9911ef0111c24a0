/** What names stand for in nested views. */
module MustachePaths {
  import opened MustacheContext

  /**
   * From `v`, reading the properties of a path one after the other gives `x`: an object's own field
   * where there is one, and whatever the host says otherwise. Nothing has no properties.
   */
  predicate Leads(host: Host, v: Value, path: seq<string>, x: Value)
    decreases |path|
  {
    if path == [] then x == v
    else
      && !v.Undefined? && !v.Null?
      && (if v.Object? && path[0] in v.fields then Leads(host, v.fields[path[0]], path[1..], x)
          else Leads(host, host.property(v, path[0]), path[1..], x))
  }

  /** Somewhere on the path there is nothing. */
  ghost predicate Breaks(host: Host, v: Value, path: seq<string>) {
    exists k | 0 < k <= |path| :: Leads(host, v, path[..k], Undefined) || Leads(host, v, path[..k], Null)
  }

  /** A name and the properties it stands for: itself, or its parts if it has a dot but not in front. */
  predicate PathOf(name: string, path: seq<string>) {
    if |path| == 1 then path[0] == name && name != "." && ('.' in name ==> name[0] == '.')
    else
      && |path| > 1 && path[0] != "" && name == JoinDots(path)
      && forall k | 0 <= k < |path| :: '.' !in path[k]
  }

  // ---------- paths ----------

  lemma {:induction false} SplitPart(part: string, rest: string)
    requires '.' !in part
    ensures SplitDots(part + "." + rest) == [part] + SplitDots(rest)
    ensures SplitDots(part) == [part]
  {
    var s := part + "." + rest;
    if part == "" {
      assert s[1..] == rest;
    } else {
      SplitPart(part[1..], rest);
      assert s[1..] == part[1..] + "." + rest;
      assert [part[0]] + part[1..] == part;
      assert ([part[1..]] + SplitDots(rest))[1..] == SplitDots(rest);
    }
  }

  lemma {:induction false} SplitJoined(path: seq<string>)
    requires path != [] && forall k | 0 <= k < |path| :: '.' !in path[k]
    ensures SplitDots(JoinDots(path)) == path
  {
    if |path| > 1 {
      assert forall k | 0 <= k < |path| - 1 :: path[1..][k] == path[k + 1];
      SplitJoined(path[1..]);
      SplitPart(path[0], JoinDots(path[1..]));
    } else {
      SplitPart(path[0], "");
    }
  }

  lemma {:induction false} FollowLeads(host: Host, v: Value, path: seq<string>, x: Value)
    requires Leads(host, v, path, x)
    ensures Follow(host, v, path) == x
    decreases |path|
  {
    if path != [] {
      FollowLeads(host, Get(host, v, path[0]), path[1..], x);
    }
  }

  lemma {:induction false} FollowBreaks(host: Host, v: Value, path: seq<string>, k: nat, x: Value)
    requires k <= |path| && Leads(host, v, path[..k], x) && IsNothing(x)
    ensures IsNothing(Follow(host, v, path))
    decreases |path|
  {
    if k > 0 {
      assert path[..k][0] == path[0] && path[..k][1..] == path[1..][..k - 1];
      FollowBreaks(host, Get(host, v, path[0]), path[1..], k - 1, x);
    }
  }

  lemma {:induction false} BreaksFollowed(host: Host, v: Value, path: seq<string>)
    requires Breaks(host, v, path)
    ensures IsNothing(Follow(host, v, path))
  {
    var k :| 0 < k <= |path| && (Leads(host, v, path[..k], Undefined) || Leads(host, v, path[..k], Null));
    FollowBreaks(host, v, path, k, if Leads(host, v, path[..k], Undefined) then Undefined else Null);
  }

  lemma {:induction false} DottedPath(path: seq<string>)
    requires |path| > 1 && path[0] != ""
    ensures JoinDots(path) != "." && ('.' !in path[0] ==> IsDotted(JoinDots(path)))
  {
    var name := JoinDots(path);
    assert name[0] == path[0][0] && name[|path[0]|] == '.';
  }

  /** At each view a name is looked up along its path. */
  lemma {:induction false} LookAtPath(host: Host, view: Value, name: string, path: seq<string>)
    requires PathOf(name, path) && !IsNothing(view)
    ensures LookAt(host, view, name) == Follow(host, view, path) && name != "."
  {
    if |path| == 1 {
      assert path == [name];
      assert Follow(host, Get(host, view, name), []) == Get(host, view, name);
      assert path[1..] == [];
    } else {
      DottedPath(path);
      SplitJoined(path);
    }
  }

  // ---------- lookups ----------

  /**
   * A name stands for what its path leads to in the innermost view in which the path does not break;
   * if that is a function, for what it returns when it is called on the innermost view of all.
   */
  lemma {:induction false} LookupFollowsPath(host: Host, views: seq<Value>, name: string, path: seq<string>,
                                             k: nat, v: Value)
    requires PathOf(name, path) && k < |views| && forall j | 0 <= j <= k :: !IsNothing(views[j])
    requires forall j | 0 <= j < k :: Breaks(host, views[j], path)
    requires Leads(host, views[k], path, v) && v != Undefined && v != Null
    ensures Lookup(host, views, name) == if v.Function? then host.call(v.id, views[0]) else v
  {
    hide LookAt, Follow, PathOf, Leads, Breaks, Walk;
    forall j | 0 <= j < k ensures IsNothing(LookAt(host, views[j], name)) {
      LookAtPath(host, views[j], name, path);
      BreaksFollowed(host, views[j], path);
    }
    LookAtPath(host, views[k], name, path);
    FollowLeads(host, views[k], path, v);
    WalkFindsInnermost(host, views, name, k);
  }

  /** A name whose path breaks in every view stands for nothing. */
  lemma {:induction false} LookupFindsNothing(host: Host, views: seq<Value>, name: string, path: seq<string>)
    requires PathOf(name, path) && views != [] && forall j | 0 <= j < |views| :: !IsNothing(views[j])
    requires forall j | 0 <= j < |views| :: Breaks(host, views[j], path)
    ensures Lookup(host, views, name) == Undefined || Lookup(host, views, name) == Null
  {
    hide LookAt, Follow, PathOf, Leads, Breaks, Walk;
    forall j | 0 <= j < |views| ensures IsNothing(LookAt(host, views[j], name)) {
      LookAtPath(host, views[j], name, path);
      BreaksFollowed(host, views[j], path);
    }
    LookAtPath(host, views[0], name, path);
    WalkFindsInnermost(host, views, name, |views| - 1);
  }

  /** A single dot stands for the innermost view itself. */
  lemma {:induction false} DotIsOwnView(host: Host, views: seq<Value>)
    requires views != []
    ensures Lookup(host, views, ".") == if views[0].Function? then host.call(views[0].id, views[0]) else views[0]
  {
  }

  /** Objects in objects along a path, with a leaf at its end. */
  function Nested(path: seq<string>, leaf: Value): Value {
    if path == [] then leaf else Object(map[path[0] := Nested(path[1..], leaf)])
  }

  lemma {:induction false} NestedLeads(host: Host, path: seq<string>, leaf: Value)
    ensures Leads(host, Nested(path, leaf), path, leaf)
  {
    if path != [] {
      NestedLeads(host, path[1..], leaf);
    }
  }

  /** The dotted name of a path finds the leaf of the nested objects, whatever views are around them. */
  lemma {:induction false} LookupNested(host: Host, path: seq<string>, leaf: Value, outer: seq<Value>)
    requires path != [] && path[0] != "" && forall k | 0 <= k < |path| :: '.' !in path[k]
    requires leaf != Undefined && leaf != Null && !leaf.Function?
    ensures Lookup(host, [Nested(path, leaf)] + outer, JoinDots(path)) == leaf
  {
    hide Lookup, Leads;
    NestedLeads(host, path, leaf);
    LookupFollowsPath(host, [Nested(path, leaf)] + outer, JoinDots(path), path, 0, leaf);
  }
}
