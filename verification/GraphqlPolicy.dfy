/**
 * The evaluation of a batch in src/graphql.rs, from the tokens of its queries to the charge on the quota:
 * parser, analyser and quota book together. The digest of a query is a field of it, and a claimed digest is
 * already trimmed and in lower case.
 */
module GraphqlPolicy {
  import opened Wrappers
  import Ast = GraphqlAst
  import Walk = GraphqlWalk
  import Grammar = GraphqlGrammar
  import Parser = GraphqlParser
  import Quota = GraphqlQuota

  const U32_LIMIT: nat := 0x1_0000_0000
  const HARD_OPERATIONS: nat := 64

  datatype Query = Query(toks: seq<Grammar.Token>, clean: bool, digest: string)

  datatype RawOp = RawOp(query: Option<Query>, claimed: Option<string>, variables: map<string, int>)

  datatype Limits = Limits(walk: Walk.Limits, maxAliases: Option<nat>, maxFragments: Option<nat>,
                           maxOperations: Option<nat>, introspection: bool, persistedOnly: bool, persisted: set<string>)

  datatype Failure =
    ParseError | Depth | Complexity | Fragments | Aliases | Introspection | Operations | PersistedQuery | OverQuota

  /** A length cast to 32 bits. */
  function Truncated(n: nat): (t: nat)
    ensures t <= n && t < U32_LIMIT
  {
    n % U32_LIMIT
  }

  /** How many selections the analysis of a document may visit. */
  ghost function Budget(limits: Limits, fragments: nat): nat {
    (Walk.CapsOf(limits.walk).complexity + 2) * (Ast.HARD_DEPTH * (fragments + 1) + 1)
  }

  predicate Within(n: nat, max: Option<nat>) { max.None? || n <= max.value }

  function MaxOperations(limits: Limits): nat {
    if limits.maxOperations.Some? then limits.maxOperations.value else HARD_OPERATIONS
  }

  predicate IsHexDigit(c: char) { '0' <= c <= '9' || 'a' <= c <= 'f' || 'A' <= c <= 'F' }

  predicate IsSha256Hex(s: string) { |s| == 64 && forall i :: 0 <= i < |s| ==> IsHexDigit(s[i]) }

  /** What the persisted-query rules and a missing query have against an operation. */
  function NamingFault(limits: Limits, op: RawOp): Option<Failure> {
    if op.claimed.Some? && !IsSha256Hex(op.claimed.value) then Some(PersistedQuery)
    else if op.query.None? then
      (if op.claimed.Some? && limits.persistedOnly then Some(PersistedQuery) else Some(ParseError))
    else if op.claimed.Some? && op.query.value.digest != op.claimed.value then Some(PersistedQuery)
    else if limits.persistedOnly && op.query.value.digest !in limits.persisted then Some(PersistedQuery)
    else None
  }

  /**
   * An operation is named as required exactly when it has a query, a claimed digest is 64 hexadecimal digits and that
   * of the query, and where only persisted queries are allowed it is one. Without a limit there are 64 operations.
   */
  lemma {:induction false} NamedExactly(limits: Limits, op: RawOp)
    ensures NamingFault(limits, op).None? <==>
              && op.query.Some?
              && (op.claimed.Some? ==> IsDigest(op.claimed.value) && op.claimed.value == op.query.value.digest)
              && (limits.persistedOnly ==> op.query.value.digest in limits.persisted)
    ensures NamingFault(limits, op) == Some(ParseError) <==>
              op.query.None? && (op.claimed.Some? ==> IsDigest(op.claimed.value) && !limits.persistedOnly)
    ensures NamingFault(limits, op) in [None, Some(ParseError), Some(PersistedQuery)]
    ensures MaxOperations(limits) == match limits.maxOperations case Some(n) => n case None => 64
  {}

  ghost predicate IsDigest(s: string) {
    && |s| == 64
    && forall i :: 0 <= i < |s| ==> '0' <= s[i] <= '9' || 'a' <= s[i] <= 'f' || 'A' <= s[i] <= 'F'
  }

  // ----- what a batch must be --------------------------------------------------------------------------------------

  function ParsedOf(op: RawOp): Result<Ast.Document, Parser.ParseFail> {
    if op.query.None? then Err(Parser.Invalid) else Parser.Reference(op.query.value.toks, op.query.value.clean)
  }

  /** The document of an operation; one without operations when it does not parse. */
  function DocumentOf(op: RawOp): Ast.Document {
    if ParsedOf(op).Ok? then ParsedOf(op).value else Ast.Document([], map[])
  }

  function SummaryFor(limits: Limits, op: RawOp): Walk.Summary {
    var doc := DocumentOf(op);
    Walk.IdealDocument(Walk.Env(doc.fragments, op.variables, limits.walk.defaultList), doc.operations)
  }

  /** The operation is named as required, parses, is not empty, and its inlined document is within every limit. */
  ghost predicate Admissible(limits: Limits, op: RawOp) {
    var doc, s, caps := DocumentOf(op), SummaryFor(limits, op), Walk.CapsOf(limits.walk);
    && NamingFault(limits, op).None? && ParsedOf(op).Ok? && doc.operations != []
    && Within(Truncated(|doc.fragments|), limits.maxFragments)
    && s.below <= caps.depth && s.cost <= caps.complexity && !s.cycle && !s.missing
    && (limits.introspection || !s.introspection)
    && Within(s.aliases, limits.maxAliases)
  }

  ghost function TotalOperations(ops: seq<RawOp>): nat {
    if ops == [] then 0 else TotalOperations(ops[..|ops| - 1]) + |DocumentOf(ops[|ops| - 1]).operations|
  }

  ghost function TotalCost(limits: Limits, ops: seq<RawOp>): nat {
    if ops == [] then 0 else TotalCost(limits, ops[..|ops| - 1]) + SummaryFor(limits, ops[|ops| - 1]).cost
  }

  ghost predicate AllAdmissible(limits: Limits, ops: seq<RawOp>) {
    forall i :: 0 <= i < |ops| ==> Admissible(limits, ops[i])
  }

  /** A failure that an operation gives cause for. */
  ghost predicate Blames(limits: Limits, op: RawOp, f: Failure) {
    var doc, s, caps := DocumentOf(op), SummaryFor(limits, op), Walk.CapsOf(limits.walk);
    || NamingFault(limits, op) == Some(f)
    || match f
       case ParseError => ParsedOf(op) == Err(Parser.Invalid) || doc.operations == [] || s.missing
       case Depth => ParsedOf(op) == Err(Parser.TooDeepToParse) || s.below > caps.depth
       case Complexity => s.cost > caps.complexity
       case Fragments => !Within(Truncated(|doc.fragments|), limits.maxFragments) || s.cycle
       case Introspection => !limits.introspection && s.introspection
       case Aliases => !Within(s.aliases, limits.maxAliases)
       case Operations => false
       case PersistedQuery => false
       case OverQuota => false
  }

  // ----- every operation costs something ---------------------------------------------------------------------------

  ghost predicate ShapedFragments(env: Walk.Env) {
    forall name :: name in env.fragments ==> Ast.Shaped(env.fragments[name], Ast.HARD_DEPTH)
  }

  ghost predicate Charges(s: Walk.Summary) { s.cost >= 1 || s.cycle || s.missing }

  lemma {:induction false} SetCosts(env: Walk.Env, body: Ast.SelectionSet, levels: nat, seen: set<string>)
    requires Ast.Shaped(body, levels) && ShapedFragments(env)
    ensures Charges(Walk.Ideal(env, body.items, seen))
    decreases env.fragments.Keys - seen, body, 1
  {
    hide Walk.Ideal, Walk.ExpandOne, Walk.Summarize;
    Walk.IdealStep(env, body.items, 0, seen);
    assert body.items[0..] == body.items;
    SelectionCosts(env, body.items[0], levels - 1, seen);
  }

  lemma {:induction false} SelectionCosts(env: Walk.Env, item: Ast.Selection, levels: nat, seen: set<string>)
    requires Ast.ShapedSelection(item, levels) && ShapedFragments(env)
    ensures Charges(Walk.Summarize(Walk.ExpandOne(env, item, seen)))
    decreases env.fragments.Keys - seen, item, 0
  {
    hide Walk.Expand, Walk.Summarize;
    match item
    case Field(alias, name, args, selection) =>
      FirstNodeCharges(Walk.ExpandOne(env, item, seen)[0]);
    case Spread(name) =>
      if name in seen || name !in env.fragments {
        FirstNodeCharges(Walk.ExpandOne(env, item, seen)[0]);
      } else {
        SetCosts(env, env.fragments[name], Ast.HARD_DEPTH, seen + {name});
      }
    case Inline(child) =>
      SetCosts(env, child, levels, seen);
  }

  lemma {:induction false} FirstNodeCharges(node: Walk.Node)
    ensures Charges(Walk.Summarize([node]))
  {
    assert [node][1..] == [];
  }

  lemma {:induction false} OperationsCost(env: Walk.Env, operations: seq<Ast.SelectionSet>)
    requires ShapedFragments(env) && forall i :: 0 <= i < |operations| ==> Ast.Shaped(operations[i], Ast.HARD_DEPTH)
    ensures var s := Walk.IdealDocument(env, operations); s.cost >= |operations| || s.cycle || s.missing
  {
    if operations != [] {
      SetCosts(env, operations[0], Ast.HARD_DEPTH, {});
      OperationsCost(env, operations[1..]);
    }
  }

  lemma {:induction false} ParsedCosts(limits: Limits, op: RawOp)
    requires ParsedOf(op).Ok?
    ensures var s := SummaryFor(limits, op); s.cost >= |DocumentOf(op).operations| || s.cycle || s.missing
  {
    var doc := DocumentOf(op);
    Parser.AcceptedIsShaped(op.query.value.toks, op.query.value.clean);
    OperationsCost(Walk.Env(doc.fragments, op.variables, limits.walk.defaultList), doc.operations);
  }

  // ----- the evaluation ----------------------------------------------------------------------------------------------

  function FailureOf(f: Walk.Failure): Failure {
    match f
    case DepthLimit => Depth
    case ComplexityLimit => Complexity
    case FragmentsLimit => Fragments
    case ParseError => ParseError
  }

  /** The counters are 32 bits wide, and a count of operations that does not fit costs too much to pass. */
  lemma {:induction false} TruncationIsHarmless(limits: Limits, op: RawOp)
    requires ParsedOf(op).Ok?
    ensures Admissible(limits, op) ==> Truncated(|DocumentOf(op).operations|) == |DocumentOf(op).operations|
  {
    hide SummaryFor, DocumentOf, ParsedOf;
    ParsedCosts(limits, op);
  }

  lemma {:induction false} SummaryIsOfDocument(limits: Limits, op: RawOp, doc: Ast.Document)
    requires ParsedOf(op) == Ok(doc)
    ensures DocumentOf(op) == doc
    ensures SummaryFor(limits, op) ==
            Walk.IdealDocument(Walk.Env(doc.fragments, op.variables, limits.walk.defaultList), doc.operations)
  {}

  /** One operation of a batch, with the operations counted before it. */
  method EvaluateOp(limits: Limits, op: RawOp, before: nat) returns (r: Result<(nat, nat), Failure>, ghost visits: nat)
    requires before <= MaxOperations(limits) < U32_LIMIT
    ensures r.Ok? <==> Admissible(limits, op) && before + |DocumentOf(op).operations| <= MaxOperations(limits)
    ensures r.Ok? ==> r.value == (before + |DocumentOf(op).operations|, SummaryFor(limits, op).cost)
    ensures r.Err? ==> Blames(limits, op, r.error)
                       || (r.error == Operations && before + |DocumentOf(op).operations| > MaxOperations(limits))
    ensures visits <= Budget(limits, |DocumentOf(op).fragments|)
  {
    hide Budget, IsSha256Hex, Parser.Reference, SummaryFor, Ast.ShapedDocument, Walk.CapsOf;
    visits := 0;
    var fault := NamingFault(limits, op);
    if fault.Some? {
      return Err(fault.value), 0;
    }
    var parsed := Parser.ParseDocument(op.query.value.toks, op.query.value.clean);
    if parsed.Err? {
      return Err(if parsed.error.TooDeepToParse? then Depth else ParseError), 0;
    }
    r, visits := EvaluateDocument(limits, op, parsed.value, before);
  }

  method EvaluateDocument(limits: Limits, op: RawOp, doc: Ast.Document, before: nat)
    returns (r: Result<(nat, nat), Failure>, ghost visits: nat)
    requires before <= MaxOperations(limits) < U32_LIMIT
    requires NamingFault(limits, op).None? && ParsedOf(op) == Ok(doc) && Ast.ShapedDocument(doc)
    ensures r.Ok? <==> Admissible(limits, op) && before + |doc.operations| <= MaxOperations(limits)
    ensures r.Ok? ==> r.value == (before + |doc.operations|, SummaryFor(limits, op).cost)
    ensures r.Err? ==> Blames(limits, op, r.error)
                       || (r.error == Operations && before + |doc.operations| > MaxOperations(limits))
    ensures visits <= Budget(limits, |doc.fragments|)
  {
    hide Truncated, Walk.IdealDocument, Ast.ShapedDocument, ParsedOf, DocumentOf, SummaryFor, NamingFault, IsSha256Hex;
    visits := 0;
    TruncationIsHarmless(limits, op);
    SummaryIsOfDocument(limits, op, doc);
    var total := before + Truncated(|doc.operations|);
    if total >= U32_LIMIT || total > MaxOperations(limits) {
      return Err(Operations), 0;
    }
    if doc.operations == [] {
      return Err(ParseError), 0;
    }
    if !Within(Truncated(|doc.fragments|), limits.maxFragments) {
      return Err(Fragments), 0;
    }
    var outcome;
    outcome, visits := Walk.AnalyzeDocument(doc, op.variables, limits.walk);
    if outcome.Err? {
      return Err(FailureOf(outcome.error)), visits;
    }
    var stats := outcome.value;
    if !limits.introspection && stats.introspection {
      return Err(Introspection), visits;
    }
    if !Within(stats.depth, limits.walk.maxDepth) {
      return Err(Depth), visits;
    }
    if !Within(stats.complexity, limits.walk.maxComplexity) {
      return Err(Complexity), visits;
    }
    if !Within(stats.aliases, limits.maxAliases) {
      return Err(Aliases), visits;
    }
    r := Ok((total, stats.complexity));
  }

  lemma {:induction false} BatchStep(limits: Limits, ops: seq<RawOp>, i: nat)
    requires i < |ops|
    ensures TotalOperations(ops[..i + 1]) == TotalOperations(ops[..i]) + |DocumentOf(ops[i]).operations|
    ensures TotalCost(limits, ops[..i + 1]) == TotalCost(limits, ops[..i]) + SummaryFor(limits, ops[i]).cost
  {
    assert ops[..i + 1][..i] == ops[..i];
  }

  lemma {:induction false} TotalGrows(ops: seq<RawOp>, i: nat)
    requires i <= |ops|
    ensures TotalOperations(ops[..i]) <= TotalOperations(ops)
  {
    if i < |ops| {
      TotalGrows(ops[..|ops| - 1], i);
      assert ops[..|ops| - 1][..i] == ops[..i];
    } else {
      assert ops[..i] == ops;
    }
  }

  lemma {:induction false} EveryOpCounts(limits: Limits, ops: seq<RawOp>)
    requires AllAdmissible(limits, ops)
    ensures |ops| <= TotalOperations(ops)
  {
    if ops != [] {
      EveryOpCounts(limits, ops[..|ops| - 1]);
      assert Admissible(limits, ops[|ops| - 1]);
    }
  }

  /**
   * A batch passes exactly when each of its operations is admissible and together they are not too many; its
   * price is then the exact sum of the costs of the inlined documents. No counter has wrapped or saturated.
   */
  method Evaluate(limits: Limits, ops: seq<RawOp>) returns (r: Result<nat, Failure>)
    requires MaxOperations(limits) < U32_LIMIT
    ensures r.Ok? <==> AllAdmissible(limits, ops) && TotalOperations(ops) <= MaxOperations(limits)
    ensures r.Ok? ==> r.value == TotalCost(limits, ops)
    ensures r.Err? ==> (exists i :: 0 <= i < |ops| && Blames(limits, ops[i], r.error))
                       || (r.error == Operations
                           && (|ops| > MaxOperations(limits) || TotalOperations(ops) > MaxOperations(limits)))
  {
    hide Admissible, DocumentOf, SummaryFor, Blames, ParsedOf;
    if AllAdmissible(limits, ops) {
      EveryOpCounts(limits, ops);
    }
    if Truncated(|ops|) > MaxOperations(limits) {
      return Err(Operations);
    }
    var operations, cost := 0, 0;
    for i := 0 to |ops|
      invariant AllAdmissible(limits, ops[..i]) && i <= operations == TotalOperations(ops[..i]) <= MaxOperations(limits)
      invariant cost == TotalCost(limits, ops[..i]) <= Walk.HARD_COMPLEXITY * i
    {
      BatchStep(limits, ops, i);
      TotalGrows(ops, i + 1);
      var one, _ := EvaluateOp(limits, ops[i], operations);
      if one.Err? {
        return Err(one.error);
      }
      AdmissibleIsModest(limits, ops[i]);
      operations := one.value.0;
      cost := Quota.SaturatingAdd(cost, Walk.Max(one.value.1, 1));
    }
    assert ops[..|ops|] == ops;
    return Ok(cost);
  }

  lemma {:induction false} AdmissibleIsModest(limits: Limits, op: RawOp)
    requires Admissible(limits, op)
    ensures 1 <= |DocumentOf(op).operations| <= SummaryFor(limits, op).cost <= Walk.HARD_COMPLEXITY
  {
    ParsedCosts(limits, op);
  }

  /**
   * Evaluation and quota together: an allowed batch is charged the exact cost of its inlined documents, a
   * refused one is charged nothing, and no window ever holds more than the quota. Without a quota, which is
   * a null book, the evaluation alone decides.
   */
  method Admit(limits: Limits, book: Quota.QuotaBook?, ops: seq<RawOp>, key: string, sweepNow: int, now: int)
    returns (r: Result<(), Failure>)
    requires MaxOperations(limits) < U32_LIMIT && (book != null ==> book.Valid() && book.clock <= sweepNow <= now)
    modifies if book == null then {} else {book}
    ensures r.Ok? ==> AllAdmissible(limits, ops) && TotalOperations(ops) <= MaxOperations(limits)
    ensures AllAdmissible(limits, ops) && TotalOperations(ops) <= MaxOperations(limits) ==>
              r.Ok? || (book != null && r == Err(OverQuota))
    ensures book != null ==> book.Valid() && Quota.WithinQuota(book.log, book.window, book.max)
    ensures book != null && r.Ok? ==>
              book.log == old(book.log) + [Quota.Entry(key, Quota.Hit(now, Walk.Max(TotalCost(limits, ops), 1)))]
    ensures book != null && r.Err? ==> book.log == old(book.log)
    ensures book != null && r == Err(OverQuota) ==>
              || Quota.Spent(Quota.HitsOf(old(book.log), key), now - book.window + 1, book.window)
                 + Walk.Max(TotalCost(limits, ops), 1) > book.max
              || |book.hits| == 50_000
  {
    hide AllAdmissible, TotalOperations, TotalCost, Blames, Quota.Live, Quota.HitsOf, Quota.Agrees, Quota.WithinQuota;
    var priced := Evaluate(limits, ops);
    if priced.Err? {
      NoBlame(limits, ops, priced.error);
      return Err(priced.error);
    }
    if book == null {
      return Ok(());
    }
    var ok := book.Consume(key, Walk.Max(priced.value, 1), sweepNow, now);
    return if ok then Ok(()) else Err(OverQuota);
  }

  lemma {:induction false} NoBlame(limits: Limits, ops: seq<RawOp>, f: Failure)
    requires (exists i :: 0 <= i < |ops| && Blames(limits, ops[i], f)) || f == Operations
    ensures f != OverQuota
  {}
}
