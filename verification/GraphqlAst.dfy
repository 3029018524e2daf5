/**
 * The GraphQL syntax that the analyser of src/graphql.rs keeps: selections, argument values
 * that may be list sizes, and a document of operations and named fragments.
 */
module GraphqlAst {
  import opened Wrappers

  datatype GqlValue = Int(n: int) | Variable(name: string) | Other

  datatype Argument = Argument(name: string, value: GqlValue)

  datatype Selection =
    | Field(alias: bool, name: string, args: seq<Argument>, selection: Option<SelectionSet>)
    | Spread(fragment: string)
    | Inline(body: SelectionSet)

  datatype SelectionSet = SelectionSet(items: seq<Selection>)

  datatype Document = Document(operations: seq<SelectionSet>, fragments: map<string, SelectionSet>)

  const HARD_DEPTH: nat := 64

  /** No selection set inside `body` is empty, and sets nest at most `levels` deep. */
  ghost predicate Shaped(body: SelectionSet, levels: nat)
    decreases body
  {
    && levels > 0
    && body.items != []
    && forall i :: 0 <= i < |body.items| ==> ShapedSelection(body.items[i], levels - 1)
  }

  ghost predicate ShapedSelection(item: Selection, levels: nat)
    decreases item
  {
    match item
    case Field(_, _, _, Some(child)) => Shaped(child, levels)
    case Field(_, _, _, None) => true
    case Spread(_) => true
    case Inline(child) => Shaped(child, levels)
  }

  ghost predicate ShapedDocument(doc: Document) {
    && (forall i :: 0 <= i < |doc.operations| ==> Shaped(doc.operations[i], HARD_DEPTH))
    && (forall name :: name in doc.fragments ==> Shaped(doc.fragments[name], HARD_DEPTH))
  }
}
