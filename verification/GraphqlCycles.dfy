/**
 * What the cycle and missing marks of the inlined document mean in terms of the graph of
 * fragment spreads (section 5.5.2.2 of the GraphQL specification).
 */
module GraphqlCycles {
  import opened Wrappers
  import opened GraphqlAst
  import opened GraphqlWalk

  /** The fragments that a list of selections spreads, at any nesting. */
  ghost function SpreadNames(items: seq<Selection>): set<string> {
    if items == [] then {} else SpreadNamesOf(items[0]) + SpreadNames(items[1..])
  }

  ghost function SpreadNamesOf(item: Selection): set<string> {
    match item
    case Field(_, _, _, None) => {}
    case Field(_, _, _, Some(child)) => SpreadNames(child.items)
    case Spread(name) => {name}
    case Inline(child) => SpreadNames(child.items)
  }

  /** A walk in the spread graph: its first name is spread by `items`, each other one by its predecessor's fragment. */
  ghost predicate IsWalk(env: Env, items: seq<Selection>, path: seq<string>)
    decreases |path|
  {
    && path != []
    && path[0] in SpreadNames(items)
    && (|path| > 1 ==> path[0] in env.fragments && IsWalk(env, env.fragments[path[0]].items, path[1..]))
  }

  ghost predicate MarksCycle(env: Env, seen: set<string>, name: string) {
    name in seen || (name in env.fragments && Ideal(env, env.fragments[name].items, seen + {name}).cycle)
  }

  ghost predicate MarksMissing(env: Env, seen: set<string>, name: string) {
    name !in seen && (name in env.fragments ==> Ideal(env, env.fragments[name].items, seen + {name}).missing)
  }

  lemma {:induction false} Unfold(env: Env, items: seq<Selection>, seen: set<string>)
    ensures Ideal(env, items, seen).cycle <==> exists name :: name in SpreadNames(items) && MarksCycle(env, seen, name)
    ensures Ideal(env, items, seen).missing <==>
              exists name :: name in SpreadNames(items) && MarksMissing(env, seen, name)
    decreases items
  {
    hide Summarize, Expand, ExpandOne, MarksCycle, MarksMissing;
    if items == [] {
      EmptyParts(env, SelectionSet([]), seen, 0);
    } else {
      assert items[0..] == items;
      IdealStep(env, items, 0, seen);
      UnfoldOne(env, items[0], seen);
      Unfold(env, items[1..], seen);
    }
  }

  lemma {:induction false} UnfoldOne(env: Env, item: Selection, seen: set<string>)
    ensures Summarize(ExpandOne(env, item, seen)).cycle <==>
            exists name :: name in SpreadNamesOf(item) && MarksCycle(env, seen, name)
    ensures Summarize(ExpandOne(env, item, seen)).missing <==>
            exists name :: name in SpreadNamesOf(item) && MarksMissing(env, seen, name)
    decreases item
  {
    match item
    case Field(_, _, _, selection) =>
      hide Summarize, Expand, ExpandOne, MarksCycle, MarksMissing;
      SummaryOfField(env, item, seen);
      if selection.Some? {
        Unfold(env, selection.value.items, seen);
      }
    case Spread(name) =>
      UnfoldSpread(env, name, seen);
    case Inline(child) =>
      hide Summarize, Expand, MarksCycle, MarksMissing;
      Unfold(env, child.items, seen);
  }

  lemma {:induction false} UnfoldSpread(env: Env, name: string, seen: set<string>)
    ensures Summarize(ExpandOne(env, Spread(name), seen)).cycle == MarksCycle(env, seen, name)
    ensures Summarize(ExpandOne(env, Spread(name), seen)).missing == MarksMissing(env, seen, name)
  {
    hide Summarize, Expand, ExpandOne;
    SummaryOfOther(env, Spread(name), seen);
  }

  // ----- cycles --------------------------------------------------------------------------

  ghost predicate Repeats(path: seq<string>) {
    exists i, j :: 0 <= i < j < |path| && path[i] == path[j]
  }

  ghost predicate Meets(path: seq<string>, seen: set<string>) {
    exists i :: 0 <= i < |path| && path[i] in seen
  }

  lemma {:induction false} WalkGivesCycle(env: Env, items: seq<Selection>, seen: set<string>, path: seq<string>)
    requires IsWalk(env, items, path) && (Meets(path, seen) || Repeats(path))
    ensures Ideal(env, items, seen).cycle
    decreases |path|
  {
    hide Ideal;
    Unfold(env, items, seen);
    var name := path[0];
    if name !in seen {
      var seen', rest := seen + {name}, path[1..];
      if Meets(path, seen) {
        var i :| 0 <= i < |path| && path[i] in seen;
        assert rest[i - 1] in seen';
      } else {
        var i, j :| 0 <= i < j < |path| && path[i] == path[j];
        assert rest[j - 1] == path[j];
        if i > 0 {
          assert rest[i - 1] == rest[j - 1];
        } else {
          assert rest[j - 1] in seen';
        }
      }
      WalkGivesCycle(env, env.fragments[name].items, seen', rest);
    }
    assert MarksCycle(env, seen, name);
  }

  lemma {:induction false} CycleGivesWalk(env: Env, items: seq<Selection>, seen: set<string>)
    returns (path: seq<string>)
    requires Ideal(env, items, seen).cycle
    ensures IsWalk(env, items, path) && (Meets(path, seen) || Repeats(path))
    decreases env.fragments.Keys - seen
  {
    hide Ideal;
    Unfold(env, items, seen);
    var name :| name in SpreadNames(items) && MarksCycle(env, seen, name);
    path := [name];
    if name in seen {
      assert path[0] in seen;
    } else {
      var rest := CycleGivesWalk(env, env.fragments[name].items, seen + {name});
      path := [name] + rest;
      assert path[1..] == rest;
      if Meets(rest, seen + {name}) {
        var i :| 0 <= i < |rest| && rest[i] in seen + {name};
        assert path[i + 1] == rest[i];
        assert path[0] == path[i + 1] || path[i + 1] in seen;
      } else {
        var i, j :| 0 <= i < j < |rest| && rest[i] == rest[j];
        assert path[i + 1] == path[j + 1];
      }
    }
  }

  /** The mark stands exactly for a walk along spreads that comes back to a fragment it has been through. */
  lemma {:induction false} CycleMeansRepeatingWalk(env: Env, items: seq<Selection>)
    ensures Ideal(env, items, {}).cycle <==> exists path :: IsWalk(env, items, path) && Repeats(path)
  {
    if Ideal(env, items, {}).cycle {
      var path := CycleGivesWalk(env, items, {});
    }
    if path :| IsWalk(env, items, path) && Repeats(path) {
      WalkGivesCycle(env, items, {}, path);
    }
  }

  // ----- undefined fragments -------------------------------------------------------------

  lemma {:induction false} WalkGivesMissing(env: Env, items: seq<Selection>, seen: set<string>, path: seq<string>)
    requires IsWalk(env, items, path) && !Meets(path, seen) && path[|path| - 1] !in env.fragments
    ensures Ideal(env, items, seen).missing
    decreases |path|
  {
    hide Ideal;
    Unfold(env, items, seen);
    var name, rest := path[0], path[1..];
    assert path[0] !in seen;
    if |path| > 1 {
      assert rest[|rest| - 1] == path[|path| - 1];
      assert forall i :: 0 <= i < |rest| ==> rest[i] == path[i + 1];
      if j :| 0 <= j < |rest| && rest[j] == name {
        TailIsWalk(env, items, path, j + 1);
        WalkGivesMissing(env, items, seen, path[j + 1..]);
      } else {
        WalkGivesMissing(env, env.fragments[name].items, seen + {name}, rest);
        assert MarksMissing(env, seen, name);
      }
    } else {
      assert MarksMissing(env, seen, name);
    }
  }

  /** A walk that returns to its first fragment can leave out the round. */
  lemma {:induction false} TailIsWalk(env: Env, items: seq<Selection>, path: seq<string>, j: nat)
    requires IsWalk(env, items, path) && j < |path| && path[j] in SpreadNames(items)
    ensures IsWalk(env, items, path[j..])
  {
    StepsOfWalk(env, items, path, j);
  }

  lemma {:induction false} StepsOfWalk(env: Env, items: seq<Selection>, path: seq<string>, j: nat)
    requires IsWalk(env, items, path) && j < |path|
    ensures |path[j..]| > 1 ==> path[j] in env.fragments && IsWalk(env, env.fragments[path[j]].items, path[j..][1..])
    decreases j
  {
    if j == 0 {
      assert path[0..] == path;
    } else {
      assert path[1..][j - 1..] == path[j..];
      StepsOfWalk(env, env.fragments[path[0]].items, path[1..], j - 1);
    }
  }

  lemma {:induction false} MissingGivesWalk(env: Env, items: seq<Selection>, seen: set<string>)
    returns (path: seq<string>)
    requires Ideal(env, items, seen).missing
    ensures IsWalk(env, items, path) && path[|path| - 1] !in env.fragments
    decreases env.fragments.Keys - seen
  {
    hide Ideal;
    Unfold(env, items, seen);
    var name :| name in SpreadNames(items) && MarksMissing(env, seen, name);
    path := [name];
    if name in env.fragments {
      var rest := MissingGivesWalk(env, env.fragments[name].items, seen + {name});
      path := [name] + rest;
      assert path[1..] == rest;
    }
  }

  /** The mark stands exactly for a walk along spreads that ends at a fragment the document does not define. */
  lemma {:induction false} MissingMeansUndefinedFragment(env: Env, items: seq<Selection>)
    ensures Ideal(env, items, {}).missing <==>
            exists path :: IsWalk(env, items, path) && path[|path| - 1] !in env.fragments
  {
    if Ideal(env, items, {}).missing {
      var path := MissingGivesWalk(env, items, {});
    }
    if path :| IsWalk(env, items, path) && path[|path| - 1] !in env.fragments {
      WalkGivesMissing(env, items, {}, path);
    }
  }
}
