/**
 * Documents as the analyser keeps them, written out as tokens and parsed: for every document with non-empty
 * selection sets nested at most 64 deep the parser gives back that very document.
 */
module GraphqlRoundTrip {
  import opened Wrappers
  import opened GraphqlGrammar
  import opened GraphqlParser
  import Ast = GraphqlAst

  function WriteValue(v: Ast.GqlValue): Value {
    match v
    case Int(n) => Number(n)
    case Variable(name) => VarRef(name)
    case Other => Scalar(StringLit)
  }

  function WriteArguments(args: seq<Ast.Argument>): List<Binding> {
    if args == [] then Nil else Cons(Binding(args[0].name, WriteValue(args[0].value)), WriteArguments(args[1..]))
  }

  function WriteSelection(item: Ast.Selection): Node {
    match item
    case Field(alias, name, args, selection) =>
      FieldNode(if alias then Some("a") else None, name, WriteArguments(args), Nil,
                if selection.None? then None else Some(Block(WriteItems(selection.value.items))))
    case Spread(fragment) => SpreadNode(fragment, Nil)
    case Inline(body) => InlineNode(None, Nil, Block(WriteItems(body.items)))
  }

  function WriteItems(items: seq<Ast.Selection>): List<Node> {
    if items == [] then Nil else Cons(WriteSelection(items[0]), WriteItems(items[1..]))
  }

  function WriteSet(body: Ast.SelectionSet): Block { Block(WriteItems(body.items)) }

  /** First the operations, then the fragments in the given order. */
  function WriteFragments(fragments: map<string, Ast.SelectionSet>, order: seq<string>): List<Definition>
    requires forall i :: 0 <= i < |order| ==> order[i] in fragments
  {
    if order == [] then Nil
    else Cons(FragmentDef(order[0], "T", Nil, WriteSet(fragments[order[0]])), WriteFragments(fragments, order[1..]))
  }

  function WriteDocument(operations: seq<Ast.SelectionSet>, fragments: map<string, Ast.SelectionSet>,
                         order: seq<string>): List<Definition>
    requires forall i :: 0 <= i < |order| ==> order[i] in fragments
  {
    if operations == [] then WriteFragments(fragments, order)
    else Cons(Shorthand(WriteSet(operations[0])), WriteDocument(operations[1..], fragments, order))
  }

  // ----- what can be written -----------------------------------------------------------------------------------------

  /** Integers fit 64 bits, and no spread is of a fragment named `on`, which would read as a type condition. */
  ghost predicate Writable(item: Ast.Selection) {
    match item
    case Field(_, _, args, selection) =>
      && (forall i :: 0 <= i < |args| && args[i].value.Int? ==> FitsI64(args[i].value.n))
      && (selection.Some? ==> forall i :: 0 <= i < |selection.value.items| ==> Writable(selection.value.items[i]))
    case Spread(fragment) => fragment != "on"
    case Inline(body) => forall i :: 0 <= i < |body.items| ==> Writable(body.items[i])
  }

  ghost predicate WritableSet(body: Ast.SelectionSet) { forall i :: 0 <= i < |body.items| ==> Writable(body.items[i]) }

  lemma {:induction false} ArgumentsReadBack(args: seq<Ast.Argument>)
    requires forall i :: 0 <= i < |args| && args[i].value.Int? ==> FitsI64(args[i].value.n)
    ensures EraseArguments(WriteArguments(args)) == args && WellFormedBindings(WriteArguments(args), 0)
  {
    if args != [] {
      ArgumentsReadBack(args[1..]);
      assert args == [args[0]] + args[1..];
    }
  }

  lemma {:induction false} SelectionReadsBack(item: Ast.Selection, levels: nat)
    requires Writable(item) && Ast.ShapedSelection(item, levels)
    ensures EraseNode(WriteSelection(item)) == item
    ensures WellFormedNode(WriteSelection(item)) && NestingOfNode(WriteSelection(item)) <= levels
    decreases item, 0
  {
    match item
    case Field(_, _, args, selection) =>
      ArgumentsReadBack(args);
      if selection.Some? {
        SetReadsBack(selection.value, levels);
      }
    case Spread(_) =>
    case Inline(body) => SetReadsBack(body, levels);
  }

  lemma {:induction false} SetReadsBack(body: Ast.SelectionSet, levels: nat)
    requires WritableSet(body) && Ast.Shaped(body, levels)
    ensures EraseBlock(WriteSet(body)) == body
    ensures WellFormedBlock(WriteSet(body)) && Nesting(WriteSet(body)) <= levels
    decreases body, 1
  {
    ItemsReadBack(body.items, levels - 1);
  }

  lemma {:induction false} ItemsReadBack(items: seq<Ast.Selection>, levels: nat)
    requires forall i :: 0 <= i < |items| ==> Writable(items[i]) && Ast.ShapedSelection(items[i], levels)
    ensures EraseNodes(WriteItems(items)) == items
    ensures WellFormedNodes(WriteItems(items)) && NestingOfNodes(WriteItems(items)) <= levels
    decreases items, 0
  {
    if items != [] {
      SelectionReadsBack(items[0], levels);
      ItemsReadBack(items[1..], levels);
      assert items == [items[0]] + items[1..];
    }
  }

  // ----- documents ---------------------------------------------------------------------------------------------------

  ghost predicate Listed(order: seq<string>, names: set<string>) {
    && (forall i :: 0 <= i < |order| ==> order[i] in names)
    && (forall i, j :: 0 <= i < j < |order| ==> order[i] != order[j])
    && (forall name :: name in names ==> name in order)
  }

  ghost predicate WritableDocument(doc: Ast.Document) {
    && Ast.ShapedDocument(doc) && "on" !in doc.fragments
    && (forall i :: 0 <= i < |doc.operations| ==> WritableSet(doc.operations[i]))
    && (forall name :: name in doc.fragments ==> WritableSet(doc.fragments[name]))
  }

  lemma {:induction false} FragmentsReadBack(fragments: map<string, Ast.SelectionSet>, order: seq<string>,
                                             names: set<string>)
    requires forall i :: 0 <= i < |order| ==> order[i] in fragments && order[i] !in names && order[i] != "on"
    requires forall i, j :: 0 <= i < j < |order| ==> order[i] != order[j]
    requires forall name :: name in fragments ==>
               WritableSet(fragments[name]) && Ast.Shaped(fragments[name], HARD_DEPTH)
    ensures var ds := WriteFragments(fragments, order);
            && (order != [] ==> ds.Cons?)
            && Operations(ds) == [] && WellFormedDefinitions(ds, names) && NestingOfDefinitions(ds) <= HARD_DEPTH
            && (forall name :: name in Fragments(ds) <==> name in order)
            && (forall name :: name in order ==> name in fragments && Fragments(ds)[name] == fragments[name])
  {
    hide WellFormedBlock, Nesting, EraseBlock, WriteSet, WritableSet, Ast.Shaped;
    if order != [] {
      var first := order[0];
      SetReadsBack(fragments[first], HARD_DEPTH);
      FragmentsReadBack(fragments, order[1..], names + {first});
      assert order == [first] + order[1..];
    }
  }

  lemma {:induction false} OperationsReadBack(operations: seq<Ast.SelectionSet>,
                                              fragments: map<string, Ast.SelectionSet>, order: seq<string>)
    requires forall i :: 0 <= i < |order| ==> order[i] in fragments
    requires forall i :: 0 <= i < |operations| ==>
               WritableSet(operations[i]) && Ast.Shaped(operations[i], HARD_DEPTH)
    requires var ds := WriteFragments(fragments, order);
             Operations(ds) == [] && WellFormedDefinitions(ds, {}) && NestingOfDefinitions(ds) <= HARD_DEPTH
    ensures var ds, fs := WriteDocument(operations, fragments, order), WriteFragments(fragments, order);
            && Operations(ds) == operations && Fragments(ds) == Fragments(fs)
            && WellFormedDefinitions(ds, {}) && NestingOfDefinitions(ds) <= HARD_DEPTH
            && (operations != [] || fs.Cons? ==> ds.Cons?)
  {
    hide WellFormedBlock, Nesting, EraseBlock, WriteSet, WritableSet, Ast.Shaped, WriteFragments;
    if operations != [] {
      SetReadsBack(operations[0], HARD_DEPTH);
      OperationsReadBack(operations[1..], fragments, order);
      assert operations == [operations[0]] + operations[1..];
      assert {} + DefinedBy(Shorthand(WriteSet(operations[0]))) == {};
    }
  }

  /** The round trip for documents: written out in any order of the fragments and parsed, each comes back as it was. */
  lemma {:induction false} DocumentsReadBack(doc: Ast.Document, order: seq<string>)
    requires WritableDocument(doc) && Listed(order, doc.fragments.Keys) && (doc.operations != [] || order != [])
    ensures var ds := WriteDocument(doc.operations, doc.fragments, order);
            Reference(ToSequence(PrintDefinitions(ds)), true) == Ok(doc)
  {
    hide WritableSet, Ast.Shaped, Reference, ToSequence, PrintDefinitions, WellFormedDefinitions, NestingOfDefinitions;
    hide WriteFragments, Fragments, Operations;
    FragmentsReadBack(doc.fragments, order, {});
    OperationsReadBack(doc.operations, doc.fragments, order);
    var ds, fs := WriteDocument(doc.operations, doc.fragments, order), WriteFragments(doc.fragments, order);
    assert Fragments(fs).Keys == doc.fragments.Keys;
    assert Fragments(fs) == doc.fragments;
    assert Erase(ds) == doc;
    PrintedDocumentsAreReadBack(ds);
  }

  /** Every set of names can be put in an order, so every writable document that holds anything can be written. */
  lemma {:induction false} NamesCanBeListed(names: set<string>)
    ensures exists order :: Listed(order, names)
  {
    if names == {} {
      assert Listed([], names);
    } else {
      var name :| name in names;
      NamesCanBeListed(names - {name});
      var rest :| Listed(rest, names - {name});
      assert Listed([name] + rest, names);
    }
  }

  /**
   * What the analyser has no use for is read and dropped: directives, type conditions, the text of an alias, and every
   * value but integers and variables.
   */
  lemma {:induction false} TheRestIsDropped(v: Value, name: string, args: List<Binding>, body: Option<Block>,
                                            block: Block, ds: List<Directive>, alias: string, on: Option<string>)
    ensures EraseValue(v) == Ast.Other <==> !v.VarRef? && !v.Number?
    ensures EraseNode(FieldNode(None, name, args, ds, body)) == EraseNode(FieldNode(None, name, args, Nil, body))
    ensures EraseNode(FieldNode(Some(alias), name, args, ds, body)) ==
            EraseNode(FieldNode(Some("a"), name, args, Nil, body))
    ensures EraseNode(SpreadNode(name, ds)) == EraseNode(SpreadNode(name, Nil))
    ensures EraseNode(InlineNode(on, ds, block)) == EraseNode(InlineNode(None, Nil, block))
  {}
}
