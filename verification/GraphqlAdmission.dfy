/**
 * What the evaluation of a batch lets through, told in terms of the syntax tree of each query, its fields and its
 * spreads alone: no sum, cap or mark of the analyser takes part in the description.
 */
module GraphqlAdmission {
  import opened Wrappers
  import Ast = GraphqlAst
  import Walk = GraphqlWalk
  import Laws = GraphqlLaws
  import Cycles = GraphqlCycles
  import Grammar = GraphqlGrammar
  import Parser = GraphqlParser
  import opened GraphqlPolicy

  /** Within the configured limit, if there is one, and within the limit that no configuration lifts. */
  ghost predicate AtMost(n: nat, configured: Option<nat>, hard: nat) {
    n <= hard && (configured.Some? ==> n <= configured.value)
  }

  /** Spreads lead to defined fragments only, and never back to one they came through. */
  ghost predicate SpreadsEnd(env: Walk.Env, items: seq<Ast.Selection>) {
    forall path :: Cycles.IsWalk(env, items, path) ==> !Cycles.Repeats(path) && path[|path| - 1] in env.fragments
  }

  ghost predicate AllSpreadsEnd(env: Walk.Env, operations: seq<Ast.SelectionSet>) {
    forall i :: 0 <= i < |operations| ==> SpreadsEnd(env, operations[i].items)
  }

  /** Each field with a selection set lies within the depth; an operation without such a field has depth one. */
  ghost predicate DepthFits(fields: seq<Laws.Occurrence>, maxDepth: Option<nat>) {
    && AtMost(1, maxDepth, 64)
    && forall i :: 0 <= i < |fields| && fields[i].branch ==> AtMost(|fields[i].around| + 2, maxDepth, 64)
  }

  ghost predicate NoIntrospection(fields: seq<Laws.Occurrence>) {
    forall i :: 0 <= i < |fields| ==> fields[i].name != "__schema" && fields[i].name != "__type"
  }

  /** A query is sent, a claimed digest is well formed and the query's own, and the query is listed if it must be. */
  ghost predicate Named(limits: Limits, op: RawOp) {
    && op.query.Some?
    && (op.claimed.Some? ==> IsDigest(op.claimed.value) && op.claimed.value == op.query.value.digest)
    && (limits.persistedOnly ==> op.query.value.digest in limits.persisted)
  }

  ghost predicate Acceptable(limits: Limits, op: RawOp, doc: Ast.Document) {
    var env := Walk.Env(doc.fragments, op.variables, limits.walk.defaultList);
    var fields := Laws.DocumentFields(env, doc.operations);
    && doc.operations != []
    && (limits.maxFragments.Some? ==> |doc.fragments| % 0x1_0000_0000 <= limits.maxFragments.value)
    && AllSpreadsEnd(env, doc.operations)
    && DepthFits(fields, limits.walk.maxDepth)
    && AtMost(Laws.TotalWeight(fields), limits.walk.maxComplexity, 100_000)
    && (limits.introspection || NoIntrospection(fields))
    && (limits.maxAliases.Some? ==> Laws.Aliased(fields) <= limits.maxAliases.value)
  }

  /** The tokens of the query are those of this well-formed tree. */
  ghost predicate IsTree(query: Query, ds: Grammar.List<Grammar.Definition>) {
    && query.clean && ds.Cons? && Grammar.WellFormedDefinitions(ds, {}) && Grammar.NestingOfDefinitions(ds) <= 64
    && Grammar.PrintDefinitions(ds) == Parser.Stream(query.toks, 0)
  }

  // ----- the marks and the depth of a document -----------------------------------------------------------------------

  lemma {:induction false} MarksOfDocument(env: Walk.Env, operations: seq<Ast.SelectionSet>)
    ensures var s := Walk.IdealDocument(env, operations);
            && (s.cycle <==> exists i :: 0 <= i < |operations| && Walk.Ideal(env, operations[i].items, {}).cycle)
            && (s.missing <==> exists i :: 0 <= i < |operations| && Walk.Ideal(env, operations[i].items, {}).missing)
  {
    hide Walk.Ideal;
    if operations != [] {
      MarksOfDocument(env, operations[1..]);
      assert forall i :: 0 <= i < |operations| - 1 ==> operations[1..][i] == operations[i + 1];
      assert forall i :: 0 < i < |operations| ==> operations[1..][i - 1] == operations[i];
    }
  }

  lemma {:induction false} NoMarksMeanSpreadsEnd(env: Walk.Env, operations: seq<Ast.SelectionSet>)
    ensures var s := Walk.IdealDocument(env, operations); !s.cycle && !s.missing <==> AllSpreadsEnd(env, operations)
  {
    hide Walk.Ideal, Walk.IdealDocument, SpreadsEnd;
    MarksOfDocument(env, operations);
    forall i | 0 <= i < |operations|
      ensures var s := Walk.Ideal(env, operations[i].items, {});
              !s.cycle && !s.missing <==> SpreadsEnd(env, operations[i].items)
    {
      SpreadsOfOne(env, operations[i].items);
    }
  }

  lemma {:induction false} SpreadsOfOne(env: Walk.Env, items: seq<Ast.Selection>)
    ensures var s := Walk.Ideal(env, items, {}); !s.cycle && !s.missing <==> SpreadsEnd(env, items)
  {
    hide Walk.Ideal;
    Cycles.CycleMeansRepeatingWalk(env, items);
    Cycles.MissingMeansUndefinedFragment(env, items);
  }

  lemma {:induction false} DepthOfDocument(fields: seq<Laws.Occurrence>, below: nat, caps: Walk.Caps,
                                           limits: Walk.Limits)
    requires caps == Walk.CapsOf(limits) && below >= 1
    requires forall i :: 0 <= i < |fields| && fields[i].branch ==> |fields[i].around| + 1 < below
    requires below > 1 ==> exists i :: 0 <= i < |fields| && fields[i].branch && |fields[i].around| + 2 == below
    ensures below <= caps.depth <==> DepthFits(fields, limits.maxDepth)
  {
    hide Walk.CapsOf;
    Laws.CapsAreTheStricter(limits);
    if below > 1 {
      var i :| 0 <= i < |fields| && fields[i].branch && |fields[i].around| + 2 == below;
      assert DepthFits(fields, limits.maxDepth) ==> AtMost(|fields[i].around| + 2, limits.maxDepth, 64);
    }
  }

  // ----- the theorem -------------------------------------------------------------------------------------------------

  lemma {:induction false} AcceptableExactly(limits: Limits, op: RawOp, doc: Ast.Document)
    requires ParsedOf(op) == Ok(doc)
    ensures Admissible(limits, op) <==> Named(limits, op) && Acceptable(limits, op, doc)
  {
    hide Walk.IdealDocument, Laws.DocumentFields, Laws.TotalWeight, Laws.Aliased, Walk.CapsOf;
    hide AllSpreadsEnd, DepthFits, ParsedOf, NamingFault, IsDigest;
    var env := Walk.Env(doc.fragments, op.variables, limits.walk.defaultList);
    var fields, s := Laws.DocumentFields(env, doc.operations), Walk.IdealDocument(env, doc.operations);
    NamedExactly(limits, op);
    Laws.DocumentIsFieldByField(env, doc.operations);
    NoMarksMeanSpreadsEnd(env, doc.operations);
    Laws.CapsAreTheStricter(limits.walk);
    if doc.operations != [] {
      DepthOfDocument(fields, s.below, Walk.CapsOf(limits.walk), limits.walk);
    }
  }

  lemma {:induction false} ParsedMeansTree(query: Query, doc: Ast.Document)
    ensures Parser.Reference(query.toks, query.clean) == Ok(doc) <==>
            exists ds :: IsTree(query, ds) && Parser.Erase(ds) == doc
  {
    hide Parser.Reference, Grammar.WellFormedDefinitions, Grammar.NestingOfDefinitions, Grammar.PrintDefinitions;
    hide Parser.Stream, Parser.Erase;
    Parser.AcceptsExactlyTheGrammar(query.toks, query.clean, doc);
  }

  lemma {:induction false} AdmissibleIsParsed(limits: Limits, op: RawOp)
    requires Admissible(limits, op)
    ensures op.query.Some? && ParsedOf(op) == Ok(DocumentOf(op))
    ensures Parser.Reference(op.query.value.toks, op.query.value.clean) == Ok(DocumentOf(op))
  {
    hide NamingFault, SummaryFor, Walk.CapsOf, Parser.Reference;
  }

  lemma {:induction false} TreeIsParsed(op: RawOp, ds: Grammar.List<Grammar.Definition>)
    requires op.query.Some? && IsTree(op.query.value, ds)
    ensures ParsedOf(op) == Ok(Parser.Erase(ds))
  {
    hide IsTree, Parser.Erase, Parser.Reference;
    ParsedMeansTree(op.query.value, Parser.Erase(ds));
  }

  /** An operation passes exactly when its tokens are those of a tree that keeps every limit. */
  lemma {:induction false} AdmissibleExactly(limits: Limits, op: RawOp)
    ensures Admissible(limits, op) <==>
            Named(limits, op) && exists ds :: IsTree(op.query.value, ds) && Acceptable(limits, op, Parser.Erase(ds))
  {
    hide Admissible, Acceptable, IsTree, IsDigest, ParsedOf, DocumentOf, Parser.Reference, Parser.Erase;
    if Admissible(limits, op) {
      AdmissibleIsParsed(limits, op);
      AcceptableExactly(limits, op, DocumentOf(op));
      ParsedMeansTree(op.query.value, DocumentOf(op));
    }
    if Named(limits, op) {
      forall ds | IsTree(op.query.value, ds) && Acceptable(limits, op, Parser.Erase(ds))
        ensures Admissible(limits, op)
      {
        TreeIsParsed(op, ds);
        AcceptableExactly(limits, op, Parser.Erase(ds));
      }
    }
  }
}
