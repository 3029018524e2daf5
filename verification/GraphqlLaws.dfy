/**
 * What the inlined document of `GraphqlWalk` is worth, said without its definitions: variables stand for their
 * values, and cost, depth, aliases and introspection are those of its fields one by one.
 */
module GraphqlLaws {
  import opened Wrappers
  import opened GraphqlAst
  import opened GraphqlWalk

  // ----- variables stand for their values ----------------------------------------------------------------------------

  function Bind(variables: map<string, int>, value: GqlValue): GqlValue {
    if value.Variable? && value.name in variables then Int(variables[value.name]) else value
  }

  function BindArguments(variables: map<string, int>, args: seq<Argument>): (bound: seq<Argument>)
    ensures |bound| == |args|
  {
    seq(|args|, i requires 0 <= i < |args| => Argument(args[i].name, Bind(variables, args[i].value)))
  }

  function BindItems(variables: map<string, int>, items: seq<Selection>): seq<Selection> {
    if items == [] then [] else [BindSelection(variables, items[0])] + BindItems(variables, items[1..])
  }

  function BindSelection(variables: map<string, int>, item: Selection): Selection {
    match item
    case Field(alias, name, args, selection) =>
      Field(alias, name, BindArguments(variables, args),
            if selection.None? then None else Some(SelectionSet(BindItems(variables, selection.value.items))))
    case Spread(_) => item
    case Inline(body) => Inline(SelectionSet(BindItems(variables, body.items)))
  }

  function BindSet(variables: map<string, int>, body: SelectionSet): SelectionSet {
    SelectionSet(BindItems(variables, body.items))
  }

  function BindFragments(variables: map<string, int>, fragments: map<string, SelectionSet>): map<string, SelectionSet> {
    map name | name in fragments :: BindSet(variables, fragments[name])
  }

  function BindOperations(variables: map<string, int>, operations: seq<SelectionSet>): seq<SelectionSet> {
    if operations == [] then [] else [BindSet(variables, operations[0])] + BindOperations(variables, operations[1..])
  }

  /** The same document with every bound variable replaced, and no variables left. */
  function BoundEnv(env: Env): Env { Env(BindFragments(env.variables, env.fragments), map[], env.defaultList) }

  lemma {:induction false} BoundMultiplier(env: Env, args: seq<Argument>)
    ensures Multiplier(BoundEnv(env), BindArguments(env.variables, args)) == Multiplier(env, args)
  {
    if args != [] {
      var n := |args| - 1;
      BoundMultiplier(env, args[..n]);
      assert BindArguments(env.variables, args)[..n] == BindArguments(env.variables, args[..n]);
    }
  }

  lemma {:induction false} BoundItems(env: Env, items: seq<Selection>, seen: set<string>)
    ensures Expand(BoundEnv(env), BindItems(env.variables, items), seen) == Expand(env, items, seen)
    decreases env.fragments.Keys - seen, items, 1
  {
    if items != [] {
      var bound := BindItems(env.variables, items);
      assert bound[0] == BindSelection(env.variables, items[0]) && bound[1..] == BindItems(env.variables, items[1..]);
      BoundSelection(env, items[0], seen);
      BoundItems(env, items[1..], seen);
    }
  }

  lemma {:induction false} BoundSelection(env: Env, item: Selection, seen: set<string>)
    ensures ExpandOne(BoundEnv(env), BindSelection(env.variables, item), seen) == ExpandOne(env, item, seen)
    decreases env.fragments.Keys - seen, item, 0
  {
    hide Expand, BindItems, Multiplier, BindArguments;
    match item
    case Field(_, _, args, selection) =>
      BoundMultiplier(env, args);
      if selection.Some? {
        BoundItems(env, selection.value.items, seen);
      }
    case Spread(name) =>
      if name !in seen && name in env.fragments {
        BoundItems(env, env.fragments[name].items, seen + {name});
      }
    case Inline(body) => BoundItems(env, body.items, seen);
  }

  /** A variable with an integer value weighs what that integer, written in its place, would. */
  lemma {:induction false} VariablesStandForValues(env: Env, operations: seq<SelectionSet>)
    ensures IdealDocument(BoundEnv(env), BindOperations(env.variables, operations)) == IdealDocument(env, operations)
  {
    if operations != [] {
      var bound := BindOperations(env.variables, operations);
      assert bound[0] == BindSet(env.variables, operations[0]);
      assert bound[1..] == BindOperations(env.variables, operations[1..]);
      BoundItems(env, operations[0].items, {});
      hide Expand, BindItems;
      VariablesStandForValues(env, operations[1..]);
    }
  }

  // ----- field by field ----------------------------------------------------------------------------------------------

  /** A field of the inlined document: the list sizes of the fields around it, and whether it has a selection set. */
  datatype Occurrence = Occurrence(around: seq<nat>, alias: bool, name: string, branch: bool)

  ghost function Occurrences(nodes: seq<Node>, around: seq<nat>): seq<Occurrence> {
    if nodes == [] then [] else OccurrencesOf(nodes[0], around) + Occurrences(nodes[1..], around)
  }

  ghost function OccurrencesOf(node: Node, around: seq<nat>): seq<Occurrence> {
    match node
    case Leaf(alias, name) => [Occurrence(around, alias, name, false)]
    case Branch(alias, name, mult, kids) =>
      [Occurrence(around, alias, name, true)] + Occurrences(kids, around + [mult])
    case Cycle(_) => []
    case Missing(_) => []
  }

  /** How often a field is there: once for each member of each list around it. */
  ghost function Weight(around: seq<nat>): nat {
    if around == [] then 1 else Weight(around[..|around| - 1]) * around[|around| - 1]
  }

  ghost function TotalWeight(os: seq<Occurrence>): nat {
    if os == [] then 0 else Weight(os[0].around) + TotalWeight(os[1..])
  }

  ghost function Aliased(os: seq<Occurrence>): nat {
    if os == [] then 0 else (if os[0].alias then 1 else 0) + Aliased(os[1..])
  }

  ghost predicate AsksSchema(os: seq<Occurrence>) {
    exists i :: 0 <= i < |os| && (os[i].name == "__schema" || os[i].name == "__type")
  }

  /** The deepest selection set lies `below` levels under the place where `depth` sets are around a field. */
  ghost predicate Reaches(os: seq<Occurrence>, depth: nat, below: nat) {
    && (forall i :: 0 <= i < |os| ==> depth <= |os[i].around|)
    && (forall i :: 0 <= i < |os| && os[i].branch ==> |os[i].around| < depth + below)
    && (below > 0 ==> exists i :: 0 <= i < |os| && os[i].branch && |os[i].around| + 1 == depth + below)
  }

  lemma {:induction false} TotalsAppend(a: seq<Occurrence>, b: seq<Occurrence>)
    ensures TotalWeight(a + b) == TotalWeight(a) + TotalWeight(b) && Aliased(a + b) == Aliased(a) + Aliased(b)
  {
    if a == [] {
      assert a + b == b;
    } else {
      assert (a + b)[1..] == a[1..] + b;
      TotalsAppend(a[1..], b);
    }
  }

  lemma {:induction false} FlagsAppend(a: seq<Occurrence>, b: seq<Occurrence>, depth: nat, x: nat, y: nat)
    ensures AsksSchema(a + b) == (AsksSchema(a) || AsksSchema(b))
    ensures Reaches(a, depth, x) && Reaches(b, depth, y) ==> Reaches(a + b, depth, Max(x, y))
  {
    var ab := a + b;
    assert forall i :: 0 <= i < |b| ==> ab[|a| + i] == b[i];
    assert forall i :: 0 <= i < |a| ==> ab[i] == a[i];
    if i :| 0 <= i < |b| && (b[i].name == "__schema" || b[i].name == "__type") {
      assert ab[|a| + i] == b[i];
    }
    if Reaches(a, depth, x) && Reaches(b, depth, y) && Max(x, y) > 0 {
      if x >= y {
        var i :| 0 <= i < |a| && a[i].branch && |a[i].around| + 1 == depth + x;
        assert ab[i] == a[i];
      } else {
        var i :| 0 <= i < |b| && b[i].branch && |b[i].around| + 1 == depth + y;
        assert ab[|a| + i] == b[i];
      }
    }
  }

  /** The summary of nodes, against their fields one by one. */
  ghost predicate Adds(s: Summary, os: seq<Occurrence>, around: seq<nat>) {
    && TotalWeight(os) == Weight(around) * s.cost && Aliased(os) == s.aliases
    && AsksSchema(os) == s.introspection && Reaches(os, |around|, s.below)
  }

  lemma {:induction false} AddsJoin(s: Summary, os: seq<Occurrence>, t: Summary, ps: seq<Occurrence>, around: seq<nat>)
    requires Adds(s, os, around) && Adds(t, ps, around)
    ensures Adds(Join(s, t), os + ps, around)
  {
    hide TotalWeight, Aliased, AsksSchema, Reaches, Weight;
    TotalsAppend(os, ps);
    FlagsAppend(os, ps, |around|, s.below, t.below);
    assert Weight(around) * (s.cost + t.cost) == Weight(around) * s.cost + Weight(around) * t.cost;
  }

  lemma {:induction false} NodesAdd(nodes: seq<Node>, around: seq<nat>)
    ensures Adds(Summarize(nodes), Occurrences(nodes, around), around)
    decreases nodes
  {
    if nodes != [] {
      NodeAdds(nodes[0], around);
      NodesAdd(nodes[1..], around);
      hide Adds, Join;
      AddsJoin(SummaryOf(nodes[0]), OccurrencesOf(nodes[0], around), Summarize(nodes[1..]),
               Occurrences(nodes[1..], around), around);
    }
  }

  lemma {:induction false} OneAdds(alias: bool, name: string, branch: bool, around: seq<nat>)
    ensures Adds(Own(alias, name).(below := if branch then 1 else 0), [Occurrence(around, alias, name, branch)], around)
  {
    var os := [Occurrence(around, alias, name, branch)];
    assert os[1..] == [];
    assert os[0] == Occurrence(around, alias, name, branch);
  }

  lemma {:induction false} NodeAdds(node: Node, around: seq<nat>)
    ensures Adds(SummaryOf(node), OccurrencesOf(node, around), around)
    decreases node
  {
    match node
    case Leaf(alias, name) => OneAdds(alias, name, false, around);
    case Branch(alias, name, mult, kids) =>
      NodesAdd(kids, around + [mult]);
      BranchAdds(alias, name, mult, Summarize(kids), Occurrences(kids, around + [mult]), around);
    case Cycle(_) => NothingAdds(around);
    case Missing(_) => NothingAdds(around);
  }

  lemma {:induction false} NothingAdds(around: seq<nat>)
    ensures forall cycle, missing :: Adds(EMPTY.(cycle := cycle, missing := missing), [], around)
  {}

  lemma {:induction false} BranchAdds(alias: bool, name: string, mult: nat, s: Summary, os: seq<Occurrence>,
                                      around: seq<nat>)
    requires Adds(s, os, around + [mult])
    ensures Adds(Join(Own(alias, name), Weigh(s, mult)), [Occurrence(around, alias, name, true)] + os, around)
  {
    var own, kids := Own(alias, name).(below := 1), Weigh(s, mult).(below := if s.below == 0 then 0 else 1 + s.below);
    assert Join(own, kids) == Join(Own(alias, name), Weigh(s, mult));
    hide Adds, Own, Weigh, Join;
    OneAdds(alias, name, true, around);
    KidsAdd(s, os, around, mult);
    AddsJoin(own, [Occurrence(around, alias, name, true)], kids, os, around);
  }

  lemma {:induction false} KidsAdd(s: Summary, os: seq<Occurrence>, around: seq<nat>, mult: nat)
    requires Adds(s, os, around + [mult])
    ensures Adds(Weigh(s, mult).(below := if s.below == 0 then 0 else 1 + s.below), os, around)
  {
    hide TotalWeight, Aliased, AsksSchema;
    TimesIsProduct(mult, s.cost);
    assert (around + [mult])[..|around|] == around;
    WeightOfList(Weight(around), mult, s.cost);
    hide Weight, Times;
  }

  lemma {:induction false} WeightOfList(w: nat, mult: nat, cost: nat)
    ensures w * mult * cost == w * (mult * cost)
  {}

  /**
   * The ideal values are those of the fields of the inlined selections, one by one: each costs the product of the
   * list sizes around it, aliases are counted, `__schema` and `__type` are noticed, and the depth is that of the
   * deepest selection set.
   */
  lemma {:induction false} IdealIsFieldByField(env: Env, items: seq<Selection>)
    ensures var s, fields := Ideal(env, items, {}), Occurrences(Expand(env, items, {}), []);
            && s.cost == TotalWeight(fields) && s.aliases == Aliased(fields) && s.introspection == AsksSchema(fields)
            && (forall i :: 0 <= i < |fields| && fields[i].branch ==> |fields[i].around| < s.below)
            && (s.below > 0 ==> exists i :: 0 <= i < |fields| && fields[i].branch && |fields[i].around| + 1 == s.below)
  {
    NodesAdd(Expand(env, items, {}), []);
  }

  /** A document has the fields of all its operations, each one level down. */
  ghost function DocumentFields(env: Env, operations: seq<SelectionSet>): seq<Occurrence> {
    if operations == [] then []
    else Occurrences(Expand(env, operations[0].items, {}), []) + DocumentFields(env, operations[1..])
  }

  lemma {:induction false} DocumentAdds(env: Env, operations: seq<SelectionSet>)
    ensures var s, fields := IdealDocument(env, operations), DocumentFields(env, operations);
            && s.cost == TotalWeight(fields) && s.aliases == Aliased(fields) && s.introspection == AsksSchema(fields)
            && (operations == [] <==> s.below == 0) && Reaches(fields, 0, if s.below == 0 then 0 else s.below - 1)
  {
    hide Ideal, Occurrences, Expand, TotalWeight, Aliased, AsksSchema, Reaches;
    if operations == [] {
      NoFields();
    } else {
      var first, rest := Occurrences(Expand(env, operations[0].items, {}), []), DocumentFields(env, operations[1..]);
      var s, t := Ideal(env, operations[0].items, {}), IdealDocument(env, operations[1..]);
      OperationAdds(env, operations[0].items);
      DocumentAdds(env, operations[1..]);
      TotalsAppend(first, rest);
      FlagsAppend(first, rest, 0, s.below, if t.below == 0 then 0 else t.below - 1);
    }
  }

  lemma {:induction false} NoFields()
    ensures TotalWeight([]) == 0 && Aliased([]) == 0 && !AsksSchema([]) && Reaches([], 0, 0)
  {}

  lemma {:induction false} OperationAdds(env: Env, items: seq<Selection>)
    ensures var s, fields := Ideal(env, items, {}), Occurrences(Expand(env, items, {}), []);
            && s.cost == TotalWeight(fields) && s.aliases == Aliased(fields) && s.introspection == AsksSchema(fields)
            && Reaches(fields, 0, s.below)
  {
    hide Occurrences, Expand, Adds;
    var s, fields := Ideal(env, items, {}), Occurrences(Expand(env, items, {}), []);
    NodesAdd(Expand(env, items, {}), []);
    AddsAtTop(s, fields);
    hide *;
  }

  lemma {:induction false} AddsAtTop(s: Summary, fields: seq<Occurrence>)
    requires Adds(s, fields, [])
    ensures s.cost == TotalWeight(fields) && s.aliases == Aliased(fields) && s.introspection == AsksSchema(fields)
    ensures Reaches(fields, 0, s.below)
  {
    assert Weight([]) == 1;
    hide TotalWeight, Aliased, AsksSchema, Reaches, Weight;
  }

  /** The same for a whole document: cost, aliases, introspection and depth, field by field. */
  lemma {:induction false} DocumentIsFieldByField(env: Env, operations: seq<SelectionSet>)
    ensures var s, fields := IdealDocument(env, operations), DocumentFields(env, operations);
            && s.cost == TotalWeight(fields) && s.aliases == Aliased(fields) && s.introspection == AsksSchema(fields)
            && (operations != [] ==> s.below >= 1)
            && (forall i :: 0 <= i < |fields| && fields[i].branch ==> |fields[i].around| + 1 < s.below)
            && (s.below > 1 ==> exists i :: 0 <= i < |fields| && fields[i].branch && |fields[i].around| + 2 == s.below)
  {
    hide IdealDocument, DocumentFields, TotalWeight, Aliased, AsksSchema;
    DocumentAdds(env, operations);
  }

  /** The caps are the configured limits, and never more than 64 levels and a cost of 100000. */
  lemma {:induction false} CapsAreTheStricter(limits: Limits)
    ensures var caps := CapsOf(limits);
            && caps.depth <= 64 && (limits.maxDepth.Some? ==> caps.depth <= limits.maxDepth.value)
            && (caps.depth == 64 || limits.maxDepth == Some(caps.depth))
            && caps.complexity <= 100_000
            && (limits.maxComplexity.Some? ==> caps.complexity <= limits.maxComplexity.value)
            && (caps.complexity == 100_000 || limits.maxComplexity == Some(caps.complexity))
  {}
}
