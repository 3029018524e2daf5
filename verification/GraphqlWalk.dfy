/**
 * The cost analysis of src/graphql.rs: a walk that inlines fragments on the fly, saturates
 * its counters and stops at the first cap it crosses. It is proved against the document with
 * every fragment inlined and its cost over unbounded integers.
 */
module GraphqlWalk {
  import opened Wrappers
  import opened GraphqlAst

  const U32_MAX: nat := 0xFFFF_FFFF
  const U64_MAX: nat := 0xFFFF_FFFF_FFFF_FFFF
  const HARD_COMPLEXITY: nat := 100_000

  datatype Failure = DepthLimit | ComplexityLimit | FragmentsLimit | ParseError

  datatype Stats = Stats(depth: nat, complexity: nat, aliases: nat, introspection: bool)

  datatype Limits = Limits(maxDepth: Option<nat>, maxComplexity: Option<nat>, defaultList: nat)

  /** What the walk reads and never changes. */
  datatype Env = Env(fragments: map<string, SelectionSet>, variables: map<string, int>, defaultList: nat)

  function Max(a: int, b: int): int { if a < b then b else a }
  function Min(a: int, b: int): int { if a < b then a else b }

  // ----- the reference: the inlined document and its cost ---------------------------------

  /** A field of the inlined document, or the place where a spread could not be inlined. */
  datatype Node =
    | Leaf(alias: bool, name: string)
    | Branch(alias: bool, name: string, mult: nat, kids: seq<Node>)
    | Cycle(fragment: string)
    | Missing(fragment: string)

  predicate IsListArgument(name: string) { name == "first" || name == "last" || name == "limit" }

  function ListSize(env: Env, value: GqlValue): int {
    match value
    case Int(n) => n
    case Variable(v) => if v in env.variables then env.variables[v] else env.defaultList
    case Other => env.defaultList
  }

  /** The largest list size among the arguments, and 1 when none exceeds it. */
  function Multiplier(env: Env, args: seq<Argument>): (m: nat)
    ensures m >= 1
  {
    if args == [] then 1
    else
      var last := args[|args| - 1];
      var rest := Multiplier(env, args[..|args| - 1]);
      if IsListArgument(last.name) then Max(rest, ListSize(env, last.value)) else rest
  }

  function Expand(env: Env, items: seq<Selection>, seen: set<string>): seq<Node>
    decreases env.fragments.Keys - seen, items
  {
    if items == [] then [] else ExpandOne(env, items[0], seen) + Expand(env, items[1..], seen)
  }

  function ExpandOne(env: Env, item: Selection, seen: set<string>): seq<Node>
    decreases env.fragments.Keys - seen, item
  {
    match item
    case Field(alias, name, args, selection) =>
      if selection.None? then [Leaf(alias, name)]
      else [Branch(alias, name, Multiplier(env, args), Expand(env, selection.value.items, seen))]
    case Spread(name) =>
      if name in seen then [Cycle(name)]
      else if name !in env.fragments then [Missing(name)]
      else Expand(env, env.fragments[name].items, seen + {name})
    case Inline(child) => Expand(env, child.items, seen)
  }

  /** `below` is how many levels of selection sets lie under a list of nodes. */
  datatype Summary = Summary(cost: nat, below: nat, aliases: nat, introspection: bool, cycle: bool, missing: bool)

  const EMPTY := Summary(0, 0, 0, false, false, false)

  function Join(a: Summary, b: Summary): Summary {
    Summary(a.cost + b.cost, Max(a.below, b.below), a.aliases + b.aliases,
            a.introspection || b.introspection, a.cycle || b.cycle, a.missing || b.missing)
  }

  function Own(alias: bool, name: string): Summary {
    Summary(1, 0, if alias then 1 else 0, name == "__schema" || name == "__type", false, false)
  }

  /** The product n * each, as repeated addition: it keeps the proofs below linear. */
  function Times(n: nat, each: nat): nat { if n == 0 then 0 else Times(n - 1, each) + each }

  lemma {:induction false} TimesIsProduct(n: nat, each: nat)
    ensures Times(n, each) == n * each
  {
    if n > 0 {
      TimesIsProduct(n - 1, each);
    }
  }

  lemma {:induction false} TimesAtLeastOnce(n: nat, each: nat)
    requires n >= 1
    ensures Times(n, each) >= each
  {}

  /** Children weigh as often as the list they are selected from is long, one level further down. */
  function Weigh(s: Summary, mult: nat): Summary {
    s.(cost := Times(mult, s.cost), below := 1 + s.below)
  }

  function SummaryOf(node: Node): Summary {
    match node
    case Leaf(alias, name) => Own(alias, name)
    case Branch(alias, name, mult, kids) => Join(Own(alias, name), Weigh(Summarize(kids), mult))
    case Cycle(_) => EMPTY.(cycle := true)
    case Missing(_) => EMPTY.(missing := true)
  }

  function Summarize(nodes: seq<Node>): Summary {
    if nodes == [] then EMPTY else Join(SummaryOf(nodes[0]), Summarize(nodes[1..]))
  }

  lemma {:induction false} JoinEmpty(s: Summary)
    ensures Join(s, EMPTY) == s && Join(EMPTY, s) == s
  {}

  lemma {:induction false} JoinAssociative(a: Summary, b: Summary, c: Summary)
    ensures Join(Join(a, b), c) == Join(a, Join(b, c))
  {}

  lemma {:induction false} SummarizeAppend(a: seq<Node>, b: seq<Node>)
    ensures Summarize(a + b) == Join(Summarize(a), Summarize(b))
  {
    if a == [] {
      assert a + b == b;
    } else {
      var head, tail := SummaryOf(a[0]), a[1..];
      assert (a + b)[0] == a[0] && (a + b)[1..] == tail + b;
      SummarizeAppend(tail, b);
      JoinAssociative(head, Summarize(tail), Summarize(b));
    }
  }

  function Ideal(env: Env, items: seq<Selection>, seen: set<string>): Summary {
    Summarize(Expand(env, items, seen))
  }

  lemma {:induction false} IdealStep(env: Env, items: seq<Selection>, i: nat, seen: set<string>)
    requires i < |items|
    ensures Ideal(env, items[i..], seen) ==
            Join(Summarize(ExpandOne(env, items[i], seen)), Ideal(env, items[i + 1..], seen))
  {
    assert items[i..][1..] == items[i + 1..];
    SummarizeAppend(ExpandOne(env, items[i], seen), Expand(env, items[i + 1..], seen));
  }

  /** The summary of a whole document: all operations, each at depth one. */
  function IdealDocument(env: Env, operations: seq<SelectionSet>): Summary {
    if operations == [] then EMPTY
    else
      var s := Ideal(env, operations[0].items, {});
      Join(s.(below := 1 + s.below), IdealDocument(env, operations[1..]))
  }

  // ----- the walk ------------------------------------------------------------------------

  function SaturatingAdd(a: nat, b: nat, max: nat): nat { Min(a + b, max) }
  function SaturatingMul(a: nat, b: nat, max: nat): nat { Min(a * b, max) }

  method ListMultiplier(env: Env, args: seq<Argument>) returns (best: nat)
    ensures best == Multiplier(env, args)
  {
    best := 1;
    for i := 0 to |args|
      invariant best == Multiplier(env, args[..i])
    {
      assert args[..i + 1][..i] == args[..i];
      if IsListArgument(args[i].name) {
        var n := ListSize(env, args[i].value);
        if n > 1 {
          best := Max(best, n);
        }
      }
    }
    assert args[..|args|] == args;
  }

  /**
   * The multiplier is the largest of 1 and the sizes that `first`, `last` and `limit` ask for: an integer itself, a
   * variable with an integer value that value, and anything else the default.
   */
  lemma {:induction false} MultiplierIsTheMaximum(env: Env, args: seq<Argument>)
    ensures forall i :: 0 <= i < |args| && args[i].name in ["first", "last", "limit"] ==>
              match args[i].value
              case Int(n) => n <= Multiplier(env, args)
              case Variable(v) =>
                (if v in env.variables then env.variables[v] else env.defaultList) <= Multiplier(env, args)
              case Other => env.defaultList <= Multiplier(env, args)
    ensures Multiplier(env, args) == 1 ||
            exists i :: 0 <= i < |args| && args[i].name in ["first", "last", "limit"] &&
                        match args[i].value
                        case Int(n) => n == Multiplier(env, args)
                        case Variable(v) =>
                          (if v in env.variables then env.variables[v] else env.defaultList) == Multiplier(env, args)
                        case Other => env.defaultList == Multiplier(env, args)
  {
    SizesAreBounded(env, args);
  }

  lemma {:induction false} SizesAreBounded(env: Env, args: seq<Argument>)
    ensures forall i :: 0 <= i < |args| && IsListArgument(args[i].name) ==>
              ListSize(env, args[i].value) <= Multiplier(env, args)
    ensures Multiplier(env, args) == 1 ||
            exists i :: 0 <= i < |args| && IsListArgument(args[i].name) &&
                        ListSize(env, args[i].value) == Multiplier(env, args)
  {
    if args != [] {
      var n := |args| - 1;
      SizesAreBounded(env, args[..n]);
      if Multiplier(env, args) != 1 && Multiplier(env, args) == Multiplier(env, args[..n]) {
        var i :| 0 <= i < n && IsListArgument(args[..n][i].name) &&
                 ListSize(env, args[..n][i].value) == Multiplier(env, args[..n]);
        assert args[i] == args[..n][i];
      }
    }
  }

  /** Selections that can be entered one inside the other before a field is met, at most. */
  ghost function Chain(env: Env): nat { HARD_DEPTH * (|env.fragments| + 1) }

  ghost function ChainLeft(env: Env, levels: nat, seen: set<string>): nat {
    levels + HARD_DEPTH * |env.fragments.Keys - seen|
  }

  lemma {:induction false} ChainShrinks(env: Env, seen: set<string>, name: string)
    requires name in env.fragments && name !in seen
    ensures |env.fragments.Keys - seen| == |env.fragments.Keys - (seen + {name})| + 1
  {
    assert env.fragments.Keys - (seen + {name}) == (env.fragments.Keys - seen) - {name};
  }

  lemma {:induction false} Distribute(child: nat, mult: nat)
    requires mult >= 1
    ensures child + child * (mult - 1) == Times(mult, child)
  {
    TimesIsProduct(mult, child);
  }

  datatype Caps = Caps(depth: nat, complexity: nat)

  /** Fields and selections met so far; every field pays for a whole chain and itself. */
  datatype Meter = Meter(fields: nat, visits: nat, credit: nat)

  ghost predicate Metered(env: Env, stats: Stats, m: Meter) {
    stats.aliases <= m.fields <= stats.complexity && m.credit == Times(m.fields, Chain(env) + 1)
  }

  /** A part with summary `s`, met at depth `at` after spending `before`, fits the caps. */
  ghost predicate Fits(caps: Caps, s: Summary, at: nat, before: nat) {
    at + s.below <= caps.depth && before + s.cost <= caps.complexity && !s.cycle && !s.missing
  }

  ghost predicate Justified(caps: Caps, f: Failure, s: Summary, at: nat, before: nat) {
    match f
    case DepthLimit => at + s.below > caps.depth
    case ComplexityLimit => before + s.cost > caps.complexity
    case FragmentsLimit => s.cycle
    case ParseError => s.missing
  }

  ghost function Credited(stats: Stats, s: Summary, at: nat): Stats {
    Stats(Max(stats.depth, at + s.below), stats.complexity + s.cost, stats.aliases + s.aliases,
          stats.introspection || s.introspection)
  }

  /** A part split into what is done, the next item and the rest. */
  lemma {:induction false} Advance(caps: Caps, start: Stats, done: Summary, one: Summary, rest: Summary, at: nat)
    requires Fits(caps, done, at, start.complexity)
    ensures Credited(start, done, at).complexity == start.complexity + done.cost
            && Credited(start, done, at).depth >= at
    ensures Fits(caps, one, at, start.complexity + done.cost) ==> Fits(caps, Join(done, one), at, start.complexity)
    ensures forall f :: Justified(caps, f, one, at, start.complexity + done.cost) ==>
                          Justified(caps, f, Join(done, Join(one, rest)), at, start.complexity)
    ensures Credited(Credited(start, done, at), one, at) == Credited(start, Join(done, one), at)
  {}

  /** What is spent once a field has been charged for a list of `mult` copies of its children. */
  function Settled(spent: nat, childCost: nat, mult: nat): nat {
    if mult > 1 then SaturatingAdd(spent, SaturatingMul(childCost, mult - 1, U64_MAX), U64_MAX) else spent
  }

  /** Saturation is never observable: the settled amount is exact, or both it and the exact one exceed the cap. */
  lemma {:induction false} SettledIsExact(spent: nat, childCost: nat, mult: nat)
    requires mult >= 1 && childCost <= spent <= HARD_COMPLEXITY
    ensures (mult == 1 ==> Settled(spent, childCost, mult) == spent)
    ensures var exact := spent - childCost + Times(mult, childCost);
            Settled(spent, childCost, mult) == exact || (Settled(spent, childCost, mult) == U64_MAX < exact)
  {
    Distribute(childCost, mult);
  }

  /** The field itself costs one and adds no depth. */
  lemma {:induction false} FieldCharged(caps: Caps, start: Stats, alias: bool, name: string, kids: Summary, at: nat)
    requires start.complexity <= caps.complexity && at <= caps.depth
    ensures var own := Own(alias, name);
            && own.below == 0 && Credited(start, own, at).complexity == start.complexity + 1
            && (start.complexity < caps.complexity ==> Fits(caps, own, at, start.complexity))
            && (start.complexity == caps.complexity ==>
                  && Justified(caps, ComplexityLimit, own, at, start.complexity)
                  && Justified(caps, ComplexityLimit, Join(own, kids), at, start.complexity))
  {}

  lemma {:induction false} FieldSettles(caps: Caps, start: Stats, own: Summary, child: Summary, mult: nat, at: nat)
    requires mult >= 1 && caps.complexity <= HARD_COMPLEXITY
    requires Fits(caps, own, at, start.complexity) && own.below == 0
    ensures forall f :: Justified(caps, f, child, at + 1, Credited(start, own, at).complexity) ==>
                          Justified(caps, f, Join(own, Weigh(child, mult)), at, start.complexity)
    ensures Fits(caps, child, at + 1, Credited(start, own, at).complexity) ==>
              var after := Credited(Credited(start, own, at), child, at + 1);
              var total := Join(own, Weigh(child, mult));
              var spent := Settled(after.complexity, child.cost, mult);
              && after.complexity <= spent && (mult == 1 ==> spent == after.complexity)
              && after.complexity - Credited(start, own, at).complexity == child.cost
              && (spent > caps.complexity ==> Justified(caps, ComplexityLimit, total, at, start.complexity))
              && (spent <= caps.complexity ==>
                    && Fits(caps, total, at, start.complexity)
                    && after.(complexity := spent) == Credited(start, total, at))
  {
    hide Settled, Times;
    TimesAtLeastOnce(mult, child.cost);
    var middle := Credited(start, own, at).complexity;
    if Fits(caps, child, at + 1, middle) {
      SettledIsExact(middle + child.cost, child.cost, mult);
    }
  }

  lemma {:induction false} SummarizeLeaf(alias: bool, name: string)
    ensures Summarize([Leaf(alias, name)]) == Own(alias, name)
  {
    assert [Leaf(alias, name)][1..] == [];
    JoinEmpty(Own(alias, name));
  }

  lemma {:induction false} SummarizeBranch(alias: bool, name: string, mult: nat, kids: seq<Node>)
    ensures Summarize([Branch(alias, name, mult, kids)]) == Join(Own(alias, name), Weigh(Summarize(kids), mult))
  {
    assert [Branch(alias, name, mult, kids)][1..] == [];
    JoinEmpty(Join(Own(alias, name), Weigh(Summarize(kids), mult)));
    hide Own, Weigh, Join;
  }

  lemma {:induction false} SummaryOfField(env: Env, item: Selection, seen: set<string>)
    requires item.Field?
    ensures Summarize(ExpandOne(env, item, seen)) ==
            if item.selection.None? then Own(item.alias, item.name)
            else Join(Own(item.alias, item.name),
                      Weigh(Ideal(env, item.selection.value.items, seen), Multiplier(env, item.args)))
  {
    hide Summarize, SummaryOf, Join, Own, Weigh, Multiplier;
    SummarizeLeaf(item.alias, item.name);
    if item.selection.Some? {
      SummarizeBranch(item.alias, item.name, Multiplier(env, item.args), Expand(env, item.selection.value.items, seen));
    }
  }

  lemma {:induction false} SummaryOfOther(env: Env, item: Selection, seen: set<string>)
    ensures item.Inline? ==> ExpandOne(env, item, seen) == Expand(env, item.body.items, seen)
    ensures item.Spread? && item.fragment in seen ==> Summarize(ExpandOne(env, item, seen)) == EMPTY.(cycle := true)
    ensures item.Spread? && item.fragment !in seen && item.fragment !in env.fragments ==>
              Summarize(ExpandOne(env, item, seen)) == EMPTY.(missing := true)
    ensures item.Spread? && item.fragment !in seen && item.fragment in env.fragments ==>
              ExpandOne(env, item, seen) == Expand(env, env.fragments[item.fragment].items, seen + {item.fragment})
  {
    if item.Spread? {
      assert [Cycle(item.fragment)][1..] == [] && [Missing(item.fragment)][1..] == [];
    }
  }

  /** Selections met are paid for by the fields met, up to the chain of `left` being followed. */
  ghost predicate Economical(chain: nat, left: nat, before: Meter, after: Meter, ok: bool) {
    left <= chain ==>
      if ok then after.visits - before.visits + chain - left <= after.credit - before.credit
      else after.visits - before.visits <= after.credit - before.credit + left
  }

  lemma {:induction false} EconomicalStep(chain: nat, left: nat, m0: Meter, m1: Meter, m2: Meter, first: bool, ok: bool)
    requires Economical(chain, if first then chain else left, m0, m1, true)
    requires Economical(chain, left, m1, m2, ok)
    ensures Economical(chain, left, m0, m2, ok)
  {}

  /** The field pays for the selections up to it; its own children start with as long a chain at most. */
  lemma {:induction false} FieldEconomy(chain: nat, left: nat, childLeft: nat, before: Meter, middle: Meter,
                                        after: Meter, ok: bool)
    requires middle == Meter(before.fields + 1, before.visits + 1, before.credit + chain + 1)
    requires childLeft <= left && Economical(chain, childLeft, middle, after, ok)
    ensures Economical(chain, left, before, after, ok) && Economical(chain, left, before, after, false)
  {}

  lemma {:induction false} ChargeEconomy(chain: nat, left: nat, before: Meter, after: Meter, ok: bool)
    requires after == Meter(before.fields + 1, before.visits + 1, before.credit + chain + 1)
    ensures Economical(chain, left, before, after, ok)
  {}

  ghost predicate ShapedFragments(env: Env) {
    forall name :: name in env.fragments ==> Shaped(env.fragments[name], HARD_DEPTH)
  }

  lemma {:induction false} ShapedItem(body: SelectionSet, i: nat, levels: nat)
    requires i < |body.items|
    ensures Shaped(body, levels) ==> levels > 0 && ShapedSelection(body.items[i], levels - 1)
  {}

  lemma {:induction false} EmptyParts(env: Env, body: SelectionSet, seen: set<string>, levels: nat)
    ensures Ideal(env, [], seen) == EMPTY
    ensures Shaped(body, levels) ==> body.items != []
  {}

  lemma {:induction false} Begin(caps: Caps, stats: Stats, meter: Meter, at: nat, chain: nat)
    requires at <= caps.depth && stats.complexity <= caps.complexity
    ensures Fits(caps, EMPTY, at, stats.complexity)
            && Credited(stats, EMPTY, at) == stats.(depth := Max(stats.depth, at))
    ensures Economical(chain, chain, meter, meter, true)
  {}

  class Walker {
    const env: Env
    const caps: Caps
    var stack: seq<string>
    var stats: Stats
    ghost var meter: Meter

    constructor (env: Env, caps: Caps)
      ensures this.env == env && this.caps == caps
      ensures stack == [] && stats == Stats(0, 0, 0, false) && meter == Meter(0, 0, 0)
    {
      this.env, this.caps := env, caps;
      stack, stats, meter := [], Stats(0, 0, 0, false), Meter(0, 0, 0);
    }

    ghost predicate Valid() reads this {
      && caps.depth <= HARD_DEPTH && caps.complexity <= HARD_COMPLEXITY
      && stats.complexity <= caps.complexity && Metered(env, stats, meter)
    }

    ghost function Seen(): set<string> reads this { set name | name in stack }

    method Walk(body: SelectionSet, at: nat, ghost seen: set<string>, ghost levels: nat)
      returns (r: Result<(), Failure>)
      requires Valid() && seen == Seen()
      modifies this
      ensures r.Ok? ==> Fits(caps, Ideal(env, body.items, seen), at, old(stats.complexity))
      ensures r.Ok? ==>
                Valid() && stack == old(stack) && stats == Credited(old(stats), Ideal(env, body.items, seen), at)
      ensures r.Err? ==> Justified(caps, r.error, Ideal(env, body.items, seen), at, old(stats.complexity))
      ensures Metered(env, stats, meter) && meter.fields <= caps.complexity + 1
      ensures Shaped(body, levels) && ShapedFragments(env) ==>
                Economical(Chain(env), ChainLeft(env, levels, seen), old(meter), meter, r.Ok?)
      decreases env.fragments.Keys - seen, body
    {
      hide Expand, ExpandOne, Summarize, Ideal, Shaped, ShapedSelection, ShapedFragments, Times, Chain, ChainLeft;
      if at > caps.depth {
        return Err(DepthLimit);
      }
      r := WalkItems(body, at, seen, levels);
    }

    /** The loop over the selections of a set. */
    method WalkItems(body: SelectionSet, at: nat, ghost seen: set<string>, ghost levels: nat)
      returns (r: Result<(), Failure>)
      requires Valid() && seen == Seen() && at <= caps.depth
      modifies this
      ensures r.Ok? ==> Fits(caps, Ideal(env, body.items, seen), at, old(stats.complexity))
      ensures r.Ok? ==>
                Valid() && stack == old(stack) && stats == Credited(old(stats), Ideal(env, body.items, seen), at)
      ensures r.Err? ==> Justified(caps, r.error, Ideal(env, body.items, seen), at, old(stats.complexity))
      ensures Metered(env, stats, meter) && meter.fields <= caps.complexity + 1
      ensures Shaped(body, levels) && ShapedFragments(env) ==>
                Economical(Chain(env), ChainLeft(env, levels, seen), old(meter), meter, r.Ok?)
      decreases env.fragments.Keys - seen, body, 0
    {
      hide Expand, ExpandOne, Summarize, Ideal, Shaped, ShapedSelection, ShapedFragments, Times, Chain, ChainLeft,
        Fits, Justified, Credited, Economical, Join;
      stats := stats.(depth := Max(stats.depth, at));
      ghost var done, left := EMPTY, ChainLeft(env, levels, seen);
      ghost var shaped := Shaped(body, levels) && ShapedFragments(env);
      EmptyParts(env, body, seen, levels);
      assert body.items[0..] == body.items;
      JoinEmpty(Ideal(env, body.items, seen));
      Begin(caps, old(stats), meter, at, Chain(env));
      for i := 0 to |body.items|
        invariant Valid() && stack == old(stack)
        invariant Ideal(env, body.items, seen) == Join(done, Ideal(env, body.items[i..], seen))
        invariant Fits(caps, done, at, old(stats.complexity))
        invariant stats == Credited(old(stats), done, at)
        invariant shaped ==> Economical(Chain(env), if i == 0 then Chain(env) else left, old(meter), meter, true)
      {
        ghost var one := Summarize(ExpandOne(env, body.items[i], seen));
        ghost var rest, before := Ideal(env, body.items[i + 1..], seen), meter;
        IdealStep(env, body.items, i, seen);
        ShapedItem(body, i, levels);
        JoinAssociative(done, one, rest);
        Advance(caps, old(stats), done, one, rest, at);
        r := Visit(body.items[i], at, seen, levels);
        if shaped {
          EconomicalStep(Chain(env), left, old(meter), before, meter, i == 0, r.Ok?);
        }
        if r.Err? {
          return;
        }
        done := Join(done, one);
      }
      assert body.items[|body.items|..] == [];
      JoinEmpty(done);
      r := Ok(());
    }

    /** One turn of the loop over the selections of a set. */
    method Visit(item: Selection, at: nat, ghost seen: set<string>, ghost levels: nat) returns (r: Result<(), Failure>)
      requires Valid() && seen == Seen() && at <= caps.depth && at <= stats.depth
      modifies this
      ensures r.Ok? ==> Fits(caps, Summarize(ExpandOne(env, item, seen)), at, old(stats.complexity))
      ensures r.Ok? ==>
                && Valid() && stack == old(stack)
                && stats == Credited(old(stats), Summarize(ExpandOne(env, item, seen)), at)
      ensures r.Err? ==> Justified(caps, r.error, Summarize(ExpandOne(env, item, seen)), at, old(stats.complexity))
      ensures Metered(env, stats, meter) && meter.fields <= caps.complexity + 1
      ensures levels > 0 && ShapedSelection(item, levels - 1) && ShapedFragments(env) ==>
                Economical(Chain(env), ChainLeft(env, levels, seen), old(meter), meter, r.Ok?)
      decreases env.fragments.Keys - seen, item
    {
      hide Expand, ExpandOne, Summarize, Shaped, Times, Multiplier;
      SummaryOfOther(env, item, seen);
      if item.Field? {
        r := VisitField(item, at, seen, levels);
      } else {
        meter := meter.(visits := meter.visits + 1);
        if item.Inline? {
          r := Walk(item.body, at, seen, if levels > 0 then levels - 1 else 0);
        } else {
          if item.fragment in stack {
            return Err(FragmentsLimit);
          }
          if item.fragment !in env.fragments {
            return Err(ParseError);
          }
          ChainShrinks(env, seen, item.fragment);
          stack := stack + [item.fragment];
          r := Walk(env.fragments[item.fragment], at, seen + {item.fragment}, HARD_DEPTH);
          if r.Ok? {
            stack := stack[..|stack| - 1];
          }
        }
      }
    }

    /** The counters of one field. */
    method ChargeField(alias: bool, name: string, ghost at: nat)
      requires Valid() && at <= stats.depth && at <= caps.depth
      modifies this`stats, this`meter
      ensures stats == Credited(old(stats), Own(alias, name), at)
      ensures meter == Meter(old(meter).fields + 1, old(meter).visits + 1, old(meter).credit + Chain(env) + 1)
      ensures Metered(env, stats, meter) && meter.fields <= caps.complexity + 1
    {
      hide Chain;
      if alias {
        stats := stats.(aliases := SaturatingAdd(stats.aliases, 1, U32_MAX));
      }
      if name == "__schema" || name == "__type" {
        stats := stats.(introspection := true);
      }
      stats := stats.(complexity := SaturatingAdd(stats.complexity, 1, U64_MAX));
      meter := Meter(meter.fields + 1, meter.visits + 1, meter.credit + Chain(env) + 1);
    }

    method VisitField(item: Selection, at: nat, ghost seen: set<string>, ghost levels: nat)
      returns (r: Result<(), Failure>)
      requires Valid() && seen == Seen() && at <= caps.depth && at <= stats.depth && item.Field?
      modifies this
      ensures r.Ok? ==> Fits(caps, Summarize(ExpandOne(env, item, seen)), at, old(stats.complexity))
      ensures r.Ok? ==>
                && Valid() && stack == old(stack)
                && stats == Credited(old(stats), Summarize(ExpandOne(env, item, seen)), at)
      ensures r.Err? ==> Justified(caps, r.error, Summarize(ExpandOne(env, item, seen)), at, old(stats.complexity))
      ensures Metered(env, stats, meter) && meter.fields <= caps.complexity + 1
      ensures levels > 0 && ShapedSelection(item, levels - 1) && ShapedFragments(env) ==>
                Economical(Chain(env), ChainLeft(env, levels, seen), old(meter), meter, r.Ok?)
      decreases env.fragments.Keys - seen, item, 1
    {
      hide Expand, ExpandOne, Summarize, Ideal, Shaped, Multiplier, Own, Join, Weigh, Fits, Justified, Credited,
        Economical, Times, Chain, ChainLeft, ShapedFragments;
      var Field(alias, name, args, selection) := item;
      ghost var kids := if selection.None? then EMPTY else Ideal(env, selection.value.items, seen);
      FieldCharged(caps, stats, alias, name, Weigh(kids, Multiplier(env, args)), at);
      SummaryOfField(env, item, seen);
      ChargeField(alias, name, at);
      ChargeEconomy(Chain(env), ChainLeft(env, levels, seen), old(meter), meter,
                    selection.None? && stats.complexity <= caps.complexity);
      if stats.complexity > caps.complexity {
        return Err(ComplexityLimit);
      }
      if selection.Some? {
        r := VisitChildren(item, selection.value, at, seen, levels, old(stats), old(meter));
      } else {
        r := Ok(());
      }
    }

    /** The rest of a field that has been charged for itself: its children, and then the size of their list. */
    method VisitChildren(item: Selection, child: SelectionSet, at: nat, ghost seen: set<string>, ghost levels: nat,
                         ghost start: Stats, ghost before: Meter)
      returns (r: Result<(), Failure>)
      requires item.Field? && item.selection == Some(child) && Valid() && seen == Seen()
      requires Fits(caps, Own(item.alias, item.name), at, start.complexity)
               && stats == Credited(start, Own(item.alias, item.name), at)
      requires meter == Meter(before.fields + 1, before.visits + 1, before.credit + Chain(env) + 1)
      modifies this
      ensures var total := Join(Own(item.alias, item.name),
                                Weigh(Ideal(env, child.items, seen), Multiplier(env, item.args)));
              && (r.Ok? ==> && Fits(caps, total, at, start.complexity) && Valid() && stack == old(stack)
                            && stats == Credited(start, total, at))
              && (r.Err? ==> Justified(caps, r.error, total, at, start.complexity))
      ensures Metered(env, stats, meter) && meter.fields <= caps.complexity + 1
      ensures levels > 0 && Shaped(child, levels - 1) && ShapedFragments(env) ==>
                Economical(Chain(env), ChainLeft(env, levels, seen), before, meter, r.Ok?)
      decreases env.fragments.Keys - seen, item, 0
    {
      hide Ideal, Shaped, ShapedFragments, Multiplier, Join, Weigh, Settled, Fits, Justified, Credited, Economical,
        Times, Chain;
      ghost var own, kids, charged := Own(item.alias, item.name), Ideal(env, child.items, seen), meter;
      var spent := stats.complexity;
      ghost var below: nat := if levels > 0 then levels - 1 else 0;
      r := Walk(child, at + 1, seen, below);
      FieldSettles(caps, start, own, kids, Multiplier(env, item.args), at);
      if Shaped(child, below) && ShapedFragments(env) {
        FieldEconomy(Chain(env), ChainLeft(env, levels, seen), ChainLeft(env, below, seen), before, charged, meter,
                     r.Ok?);
      }
      if r.Err? {
        return;
      }
      var childCost := stats.complexity - spent;
      var mult := ListMultiplier(env, item.args);
      if mult > 1 {
        stats := stats.(complexity := Settled(stats.complexity, childCost, mult));
        if stats.complexity > caps.complexity {
          return Err(ComplexityLimit);
        }
      }
    }
  }

  // ----- the whole document --------------------------------------------------------------

  function CapsOf(limits: Limits): Caps {
    Caps(Min(if limits.maxDepth.Some? then limits.maxDepth.value else HARD_DEPTH, HARD_DEPTH),
         Min(if limits.maxComplexity.Some? then limits.maxComplexity.value else HARD_COMPLEXITY, HARD_COMPLEXITY))
  }

  /** An operation's own selection set is its first level. */
  ghost function Lift(s: Summary): Summary { s.(below := 1 + s.below) }

  lemma {:induction false} OperationStep(env: Env, operations: seq<SelectionSet>, i: nat)
    requires i < |operations|
    ensures IdealDocument(env, operations[i..]) ==
            Join(Lift(Ideal(env, operations[i].items, {})), IdealDocument(env, operations[i + 1..]))
  {
    hide Ideal;
    assert operations[i..][1..] == operations[i + 1..];
  }

  lemma {:induction false} LiftIsDepthOne(caps: Caps, start: Stats, s: Summary, before: nat)
    ensures Fits(caps, s, 1, before) == Fits(caps, Lift(s), 0, before)
    ensures Credited(start, s, 1) == Credited(start, Lift(s), 0)
    ensures forall f :: Justified(caps, f, s, 1, before) == Justified(caps, f, Lift(s), 0, before)
  {}

  lemma {:induction false} VisitsAreBounded(fields: nat, cap: nat, chain: nat, visits: nat)
    requires fields <= cap + 1 && visits <= Times(fields, chain + 1) + chain
    ensures visits <= (cap + 2) * (chain + 1)
  {
    TimesIsProduct(fields, chain + 1);
    assert fields * (chain + 1) <= (cap + 1) * (chain + 1);
    assert (cap + 2) * (chain + 1) == (cap + 1) * (chain + 1) + chain + 1;
  }

  method AnalyzeDocument(doc: Document, variables: map<string, int>, limits: Limits)
    returns (r: Result<Stats, Failure>, ghost visits: nat)
    ensures var env, caps := Env(doc.fragments, variables, limits.defaultList), CapsOf(limits);
            var s := IdealDocument(env, doc.operations);
            && (r.Ok? <==> s.below <= caps.depth && s.cost <= caps.complexity && !s.cycle && !s.missing)
            && (r.Ok? ==> r.value == Stats(s.below, s.cost, s.aliases, s.introspection))
            && (r.Err? ==> match r.error
                           case DepthLimit => s.below > caps.depth
                           case ComplexityLimit => s.cost > caps.complexity
                           case FragmentsLimit => s.cycle
                           case ParseError => s.missing)
    ensures ShapedDocument(doc) ==>
              visits <= (CapsOf(limits).complexity + 2) * (HARD_DEPTH * (|doc.fragments| + 1) + 1)
  {
    hide Ideal, IdealDocument, Shaped, Fits, Justified, Credited, Join, Lift, Economical;
    ghost var env, caps := Env(doc.fragments, variables, limits.defaultList), CapsOf(limits);
    var w := new Walker(Env(doc.fragments, variables, limits.defaultList), CapsOf(limits));
    ghost var whole, done, start := IdealDocument(env, doc.operations), EMPTY, w.stats;
    AnalysisEnds(env, caps, whole);
    JoinEmpty(whole);
    Begin(caps, start, w.meter, 0, Chain(env));
    assert doc.operations[0..] == doc.operations;
    for i := 0 to |doc.operations|
      invariant fresh(w) && w.env == env && w.caps == caps && w.Valid() && w.stack == []
      invariant whole == Join(done, IdealDocument(env, doc.operations[i..]))
      invariant Fits(caps, done, 0, 0) && w.stats == Credited(start, done, 0)
      invariant ShapedDocument(doc) ==> Economical(Chain(env), Chain(env), Meter(0, 0, 0), w.meter, true)
    {
      ghost var one := Ideal(env, doc.operations[i].items, {});
      ghost var rest, before := IdealDocument(env, doc.operations[i + 1..]), w.meter;
      OperationStep(env, doc.operations, i);
      JoinAssociative(done, Lift(one), rest);
      Advance(caps, start, done, Lift(one), rest, 0);
      LiftIsDepthOne(caps, w.stats, one, w.stats.complexity);
      var outcome := w.Walk(doc.operations[i], 1, {}, HARD_DEPTH);
      if ShapedDocument(doc) {
        assert ChainLeft(env, HARD_DEPTH, {}) == Chain(env) by { assert env.fragments.Keys - {} == env.fragments.Keys; }
        EconomicalStep(Chain(env), Chain(env), Meter(0, 0, 0), before, w.meter, false, outcome.Ok?);
        EconomicalEnds(Chain(env), w.meter, outcome.Ok?);
        VisitsAreBounded(w.meter.fields, caps.complexity, Chain(env), w.meter.visits);
      }
      if outcome.Err? {
        assert Justified(caps, outcome.error, one, 1, start.complexity + done.cost);
        assert Justified(caps, outcome.error, Lift(one), 0, start.complexity + done.cost);
        assert Justified(caps, outcome.error, whole, 0, 0);
        return Err(outcome.error), w.meter.visits;
      }
      done := Join(done, Lift(one));
    }
    assert doc.operations[|doc.operations|..] == [];
    JoinEmpty(done);
    r, visits := Ok(w.stats), w.meter.visits;
    if ShapedDocument(doc) {
      EconomicalEnds(Chain(env), w.meter, true);
      VisitsAreBounded(w.meter.fields, caps.complexity, Chain(env), visits);
    }
  }

  lemma {:induction false} EconomicalEnds(chain: nat, meter: Meter, ok: bool)
    requires Economical(chain, chain, Meter(0, 0, 0), meter, ok)
    ensures meter.visits <= meter.credit + chain
  {}

  lemma {:induction false} AnalysisEnds(env: Env, caps: Caps, s: Summary)
    ensures IdealDocument(env, []) == EMPTY
    ensures Fits(caps, s, 0, 0) == (s.below <= caps.depth && s.cost <= caps.complexity && !s.cycle && !s.missing)
    ensures Credited(Stats(0, 0, 0, false), s, 0) == Stats(s.below, s.cost, s.aliases, s.introspection)
    ensures forall f :: Justified(caps, f, s, 0, 0) ==>
                          && !Fits(caps, s, 0, 0)
                          && match f
                             case DepthLimit => s.below > caps.depth
                             case ComplexityLimit => s.cost > caps.complexity
                             case FragmentsLimit => s.cycle
                             case ParseError => s.missing
  {}
}
