/**
 * The parser of src/graphql.rs: a cursor over the tokens that keeps only what the cost analysis
 * needs. Each method is proved against the reference parser of GraphqlGrammar.
 */
module GraphqlParser {
  import opened Wrappers
  import opened GraphqlGrammar
  import G = GraphqlGrammar
  import Ast = GraphqlAst

  datatype ParseFail = Invalid | TooDeepToParse

  // ----- what the parser keeps of a concrete tree ---------------------------------------------

  function EraseValue(v: Value): Ast.GqlValue {
    match v
    case VarRef(name) => Ast.Variable(name)
    case Number(n) => Ast.Int(n)
    case _ => Ast.Other
  }

  function EraseArguments(bs: List<Binding>): seq<Ast.Argument> {
    if bs.Nil? then [] else [Ast.Argument(bs.head.name, EraseValue(bs.head.value))] + EraseArguments(bs.tail)
  }

  function EraseNode(n: Node): Ast.Selection {
    match n
    case FieldNode(alias, name, args, _, body) =>
      Ast.Field(alias.Some?, name, EraseArguments(args), if body.None? then None else Some(EraseBlock(body.value)))
    case SpreadNode(fragment, _) => Ast.Spread(fragment)
    case InlineNode(_, _, block) => Ast.Inline(EraseBlock(block))
  }

  function EraseNodes(ns: List<Node>): seq<Ast.Selection> {
    if ns.Nil? then [] else [EraseNode(ns.head)] + EraseNodes(ns.tail)
  }

  function EraseBlock(b: Block): Ast.SelectionSet { Ast.SelectionSet(EraseNodes(b.items)) }

  function Operations(ds: List<Definition>): seq<Ast.SelectionSet> {
    if ds.Nil? then []
    else (if ds.head.FragmentDef? then [] else [EraseBlock(ds.head.block)]) + Operations(ds.tail)
  }

  function Fragments(ds: List<Definition>): map<string, Ast.SelectionSet> {
    if ds.Nil? then map[]
    else
      (if ds.head.FragmentDef? then map[ds.head.fragment := EraseBlock(ds.head.block)] else map[]) + Fragments(ds.tail)
  }

  function Erase(ds: List<Definition>): Ast.Document { Ast.Document(Operations(ds), Fragments(ds)) }

  /** The selection sets of a well-formed block are never empty and nest no deeper than the block does. */
  lemma {:induction false} ErasedBlockIsShaped(b: Block, levels: nat)
    requires WellFormedBlock(b) && Nesting(b) <= levels
    ensures Ast.Shaped(EraseBlock(b), levels)
  {
    ErasedNodesAreShaped(b.items, levels - 1);
  }

  lemma {:induction false} ErasedNodesAreShaped(ns: List<Node>, levels: nat)
    requires WellFormedNodes(ns) && NestingOfNodes(ns) <= levels
    ensures forall i :: 0 <= i < |EraseNodes(ns)| ==> Ast.ShapedSelection(EraseNodes(ns)[i], levels)
  {
    if ns.Cons? {
      ErasedNodesAreShaped(ns.tail, levels);
      match ns.head
      case FieldNode(_, _, _, _, Some(block)) => ErasedBlockIsShaped(block, levels);
      case InlineNode(_, _, block) => ErasedBlockIsShaped(block, levels);
      case _ =>
    }
  }

  lemma {:induction false} ErasedDocumentIsShaped(ds: List<Definition>, names: set<string>)
    requires WellFormedDefinitions(ds, names) && NestingOfDefinitions(ds) <= HARD_DEPTH
    ensures Ast.ShapedDocument(Erase(ds)) && Fragments(ds).Keys !! names
  {
    if ds.Cons? {
      hide WellFormedBlock, Nesting, EraseBlock, Ast.Shaped;
      ErasedBlockIsShaped(ds.head.block, HARD_DEPTH);
      ErasedDocumentIsShaped(ds.tail, names + DefinedBy(ds.head));
    }
  }

  // ----- the cursor -----------------------------------------------------------------------------

  function Stream(toks: seq<Token>, i: nat): Tokens
    requires i <= |toks|
    decreases |toks| - i
  {
    if i == |toks| then Nil else Cons(toks[i], Stream(toks, i + 1))
  }

  lemma MoveOver<T>(front: seq<T>, x: T, back: seq<T>)
    ensures front + ([x] + back) == front + [x] + back
  {}

  class Parser {
    const toks: seq<Token>
    const clean: bool
    var i: nat
    var nesting: nat
    var tooDeep: bool

    constructor (toks: seq<Token>, clean: bool)
      ensures this.toks == toks && this.clean == clean && i == 0 && nesting == 0 && !tooDeep
    {
      this.toks, this.clean, i, nesting, tooDeep := toks, clean, 0, 0, false;
    }

    ghost predicate Valid() reads this { i <= |toks| && !tooDeep }

    ghost function Rest(): Tokens
      requires i <= |toks|
      reads this
    {
      Stream(toks, i)
    }

    /** The call did what the reference parse `p` does, apart from the value. */
    twostate predicate Did<T>(new p: Parsed<T>)
      reads this
    {
      && old(i) <= i <= |toks| && nesting == old(nesting) && tooDeep == p.TooDeep?
      && (p.Got? ==> Rest() == p.rest)
    }

    method PeekToken() returns (t: Option<Token>)
      requires Valid()
      ensures t == if Rest().Nil? then None else Some(Rest().head)
    {
      t := if i < |toks| then Some(toks[i]) else None;
    }

    method NextToken() returns (t: Option<Token>)
      requires Valid()
      modifies this`i
      ensures Valid() && old(i) <= i
      ensures t == if old(Rest()).Nil? then None else Some(old(Rest()).head)
      ensures old(Rest()).Cons? ==> Rest() == old(Rest()).tail && i == old(i) + 1
    {
      if i == |toks| {
        return None;
      }
      t := Some(toks[i]);
      i := i + 1;
    }

    method ExpectName() returns (name: Option<string>)
      requires Valid()
      modifies this`i
      ensures Valid() && old(i) <= i
      ensures name == if StartsName(old(Rest())) then Some(old(Rest()).head.text) else None
      ensures name.Some? ==> Rest() == old(Rest()).tail && i == old(i) + 1
    {
      var t := NextToken();
      name := if t.Some? && t.value.Name? then Some(t.value.text) else None;
    }

    method Eat(expected: Token) returns (ok: bool)
      requires Valid()
      modifies this`i
      ensures Valid() && old(i) <= i
      ensures ok == Starts(old(Rest()), expected)
      ensures ok ==> Rest() == old(Rest()).tail && i == old(i) + 1
    {
      var t := NextToken();
      ok := t == Some(expected);
    }

    method ParseValue(depth: nat) returns (r: Option<Ast.GqlValue>)
      requires Valid()
      modifies this
      ensures var p := G.ParseValue(old(Rest()), depth);
              Did(p) && r == if p.Got? then Some(EraseValue(p.value)) else None
      ensures r.Some? ==> i > old(i)
      decreases |toks| - i, 0
    {
      if depth > HARD_VALUE_DEPTH {
        return None;
      }
      var t := PeekToken();
      if t.None? {
        return None;
      }
      match t.value
      case Dollar =>
        var _ := Eat(Dollar);
        var name := ExpectName();
        r := if name.Some? then Some(Ast.Variable(name.value)) else None;
      case IntLit(n) =>
        var _ := NextToken();
        r := if FitsI64(n) then Some(Ast.Int(n)) else None;
      case FloatLit => var _ := NextToken(); r := Some(Ast.Other);
      case StringLit => var _ := NextToken(); r := Some(Ast.Other);
      case Name(_) => var _ := NextToken(); r := Some(Ast.Other);
      case BracketL =>
        var _ := Eat(BracketL);
        var ok := ParseListItems(depth + 1);
        r := if ok then Some(Ast.Other) else None;
      case BraceL =>
        var _ := Eat(BraceL);
        var fields := ParseBindings(BraceR, depth + 1);
        r := if fields.Some? then Some(Ast.Other) else None;
      case _ => r := None;
    }

    /** The loop over the items of a list value. */
    method ParseListItems(depth: nat) returns (ok: bool)
      requires Valid()
      modifies this
      ensures var p := G.ParseValues(old(Rest()), depth); Did(p) && ok == p.Got?
      ensures ok ==> i > old(i)
      decreases |toks| - i, 1
    {
      ghost var all := G.ParseValues(Rest(), depth);
      while true
        invariant Valid() && old(i) <= i && nesting == old(nesting)
        invariant var p := G.ParseValues(Rest(), depth); all.Got? == p.Got? && (p.Got? ==> all.rest == p.rest)
        decreases |toks| - i
      {
        var t := PeekToken();
        if t.None? {
          return false;
        }
        if t == Some(BracketR) {
          var _ := Eat(BracketR);
          return true;
        }
        var v := ParseValue(depth);
        if v.None? {
          return false;
        }
      }
    }

    /** The loop over arguments, or over the fields of an object value. */
    method ParseBindings(close: Token, depth: nat) returns (r: Option<seq<Ast.Argument>>)
      requires Valid()
      modifies this
      ensures var p := G.ParseBindings(old(Rest()), close, depth);
              Did(p) && r == if p.Got? then Some(EraseArguments(p.value)) else None
      ensures r.Some? ==> i > old(i)
      decreases |toks| - i, 1
    {
      hide G.ParseValue, EraseValue;
      ghost var all := G.ParseBindings(Rest(), close, depth);
      var args := [];
      while true
        invariant Valid() && old(i) <= i && nesting == old(nesting)
        invariant var p := G.ParseBindings(Rest(), close, depth);
                  && all.Got? == p.Got?
                  && (p.Got? ==> all.rest == p.rest && EraseArguments(all.value) == args + EraseArguments(p.value))
        decreases |toks| - i
      {
        var t := PeekToken();
        if t.None? {
          return None;
        }
        if t == Some(close) {
          var _ := Eat(close);
          assert args + [] == args;
          return Some(args);
        }
        var name := ExpectName();
        if name.None? {
          return None;
        }
        var colon := Eat(Colon);
        if !colon {
          return None;
        }
        var v := ParseValue(depth);
        if v.None? {
          return None;
        }
        ghost var more := G.ParseBindings(Rest(), close, depth);
        if more.Got? {
          MoveOver(args, Ast.Argument(name.value, v.value), EraseArguments(more.value));
        }
        args := args + [Ast.Argument(name.value, v.value)];
      }
    }

    method ParseArguments() returns (r: Option<seq<Ast.Argument>>)
      requires Valid()
      modifies this
      ensures var p := G.ParseArguments(old(Rest()));
              Did(p) && r == if p.Got? then Some(EraseArguments(p.value)) else None
      ensures r.Some? ==> i > old(i)
    {
      var open := Eat(ParenL);
      if !open {
        return None;
      }
      r := ParseBindings(ParenR, 0);
      if r == Some([]) {
        r := None;
      }
    }

    method ParseDirectives() returns (ok: bool)
      requires Valid()
      modifies this
      ensures var p := G.ParseDirectives(old(Rest())); Did(p) && ok == p.Got?
    {
      ghost var all := G.ParseDirectives(Rest());
      while true
        invariant Valid() && old(i) <= i && nesting == old(nesting)
        invariant var p := G.ParseDirectives(Rest()); all.Got? == p.Got? && (p.Got? ==> all.rest == p.rest)
        decreases |toks| - i
      {
        var t := PeekToken();
        if t != Some(At) {
          return true;
        }
        var _ := Eat(At);
        var name := ExpectName();
        if name.None? {
          return false;
        }
        t := PeekToken();
        if t.None? {
          return false;
        }
        if t == Some(ParenL) {
          var args := ParseArguments();
          if args.None? {
            return false;
          }
        }
      }
    }

    method ParseType() returns (ok: bool)
      requires Valid()
      modifies this
      ensures var p := G.ParseType(old(Rest())); Did(p) && ok == p.Got?
      ensures ok ==> i > old(i)
      decreases |toks| - i
    {
      var t := PeekToken();
      if t == Some(BracketL) {
        var _ := Eat(BracketL);
        ok := ParseType();
        if !ok {
          return false;
        }
        ok := Eat(BracketR);
        if !ok {
          return false;
        }
      } else {
        var name := ExpectName();
        if name.None? {
          return false;
        }
      }
      t := PeekToken();
      if t.None? {
        return false;
      }
      if t == Some(Bang) {
        var _ := Eat(Bang);
      }
      ok := true;
    }

    /** The variable definitions after the opening parenthesis. */
    method ParseVariableDefs() returns (ok: bool)
      requires Valid()
      modifies this
      ensures var p := G.ParseVarDefs(old(Rest())); Did(p) && ok == p.Got?
    {
      hide G.ParseType, G.ParseDirectives, G.ParseValue;
      ghost var all := G.ParseVarDefs(Rest());
      while true
        invariant Valid() && old(i) <= i && nesting == old(nesting)
        invariant var p := G.ParseVarDefs(Rest()); all.Got? == p.Got? && (p.Got? ==> all.rest == p.rest)
        decreases |toks| - i
      {
        var t := PeekToken();
        if t.None? {
          return false;
        }
        if t == Some(ParenR) {
          var _ := Eat(ParenR);
          return true;
        }
        var dollar := Eat(Dollar);
        if !dollar {
          return false;
        }
        var name := ExpectName();
        if name.None? {
          return false;
        }
        var colon := Eat(Colon);
        if !colon {
          return false;
        }
        ok := ParseType();
        if !ok {
          return false;
        }
        t := PeekToken();
        if t.None? {
          return false;
        }
        if t == Some(Equals) {
          var _ := Eat(Equals);
          var v := ParseValue(0);
          if v.None? {
            return false;
          }
        }
        ok := ParseDirectives();
        if !ok {
          return false;
        }
      }
    }

    method ParseSelectionSet() returns (r: Option<Ast.SelectionSet>)
      requires Valid()
      modifies this
      ensures var p := G.ParseBlock(old(Rest()), old(nesting));
              Did(p) && r == if p.Got? then Some(EraseBlock(p.value)) else None
      ensures r.Some? ==> i > old(i)
      decreases |toks| - i, 0
    {
      if nesting >= HARD_DEPTH {
        tooDeep := true;
        return None;
      }
      nesting := nesting + 1;
      var open := Eat(BraceL);
      if !open {
        r := None;
      } else {
        r := ParseSelections();
      }
      nesting := nesting - 1;
    }

    /** The loop over the selections after the opening brace. */
    method ParseSelections() returns (r: Option<Ast.SelectionSet>)
      requires Valid()
      modifies this
      ensures var p := G.ParseNodes(old(Rest()), old(nesting));
              Did(p) && r == if p.Got? && p.value.Cons? then Some(Ast.SelectionSet(EraseNodes(p.value))) else None
      ensures r.Some? ==> i > old(i)
      decreases |toks| - i, 2
    {
      hide G.ParseNode, EraseNode;
      ghost var all := G.ParseNodes(Rest(), nesting);
      var items := [];
      while true
        invariant Valid() && old(i) <= i && nesting == old(nesting)
        invariant var p := G.ParseNodes(Rest(), nesting);
                  && all.Got? == p.Got? && all.TooDeep? == p.TooDeep?
                  && (p.Got? ==> all.rest == p.rest && EraseNodes(all.value) == items + EraseNodes(p.value))
        decreases |toks| - i
      {
        var t := PeekToken();
        if t.None? {
          return None;
        }
        if t == Some(BraceR) {
          var _ := Eat(BraceR);
          assert items + [] == items;
          return if items == [] then None else Some(Ast.SelectionSet(items));
        }
        var item := ParseSelection();
        if item.None? {
          return None;
        }
        items := items + [item.value];
      }
    }

    method ParseSelection() returns (r: Option<Ast.Selection>)
      requires Valid()
      modifies this
      ensures var p := G.ParseNode(old(Rest()), old(nesting));
              Did(p) && r == if p.Got? then Some(EraseNode(p.value)) else None
      ensures r.Some? ==> i > old(i)
      decreases |toks| - i, 1
    {
      hide G.ParseDirectives, G.ParseBlock, EraseBlock, EraseArguments;
      var t := PeekToken();
      if t != Some(Dots) {
        r := ParseField();
        return;
      }
      var _ := Eat(Dots);
      t := PeekToken();
      if t.None? {
        return None;
      }
      if t.value.Name? && t.value.text != "on" {
        var name := ExpectName();
        var ok := ParseDirectives();
        return if ok then Some(Ast.Spread(name.value)) else None;
      }
      if t.value.Name? {
        var _ := ExpectName();
        var on := ExpectName();
        if on.None? {
          return None;
        }
      } else if t.value != BraceL && t.value != At {
        return None;
      }
      var ok := ParseDirectives();
      if !ok {
        return None;
      }
      var block := ParseSelectionSet();
      r := if block.Some? then Some(Ast.Inline(block.value)) else None;
    }

    method ParseField() returns (r: Option<Ast.Selection>)
      requires Valid() && !Starts(Rest(), Dots)
      modifies this
      ensures var p := G.ParseNode(old(Rest()), old(nesting));
              Did(p) && r == if p.Got? then Some(EraseNode(p.value)) else None
      ensures r.Some? ==> i > old(i)
      decreases |toks| - i, 0
    {
      hide G.ParseField, EraseArguments, EraseBlock;
      var first := ExpectName();
      if first.None? {
        return None;
      }
      var t := PeekToken();
      if t.None? {
        return None;
      }
      if t != Some(Colon) {
        r := ParseFieldTail(None, first.value);
        return;
      }
      var _ := Eat(Colon);
      var second := ExpectName();
      if second.None? {
        return None;
      }
      r := ParseFieldTail(first, second.value);
    }

    /** What follows the name of a field. */
    method ParseFieldTail(alias: Option<string>, name: string) returns (r: Option<Ast.Selection>)
      requires Valid()
      modifies this
      ensures var p := G.ParseField(alias, name, old(Rest()), old(nesting));
              Did(p) && r == if p.Got? then Some(EraseNode(p.value)) else None
      decreases |toks| - i, 1
    {
      hide G.ParseDirectives, G.ParseBlock, G.ParseArguments, EraseBlock;
      var t := PeekToken();
      if t.None? {
        return None;
      }
      var args := [];
      if t == Some(ParenL) {
        var some := ParseArguments();
        if some.None? {
          return None;
        }
        args := some.value;
      }
      var ok := ParseDirectives();
      if !ok {
        return None;
      }
      t := PeekToken();
      if t.None? {
        return None;
      }
      if t != Some(BraceL) {
        return Some(Ast.Field(alias.Some?, name, args, None));
      }
      var block := ParseSelectionSet();
      r := if block.Some? then Some(Ast.Field(alias.Some?, name, args, block)) else None;
    }

    /** One definition: its selection set, and its name when it is a fragment. */
    method ParseDefinition() returns (r: Option<(Option<string>, Ast.SelectionSet)>)
      requires Valid() && nesting == 0
      modifies this
      ensures var p := G.ParseDefinition(old(Rest()));
              Did(p) && r == if p.Got? then Some((FragmentName(p.value), EraseBlock(p.value.block))) else None
      ensures r.Some? ==> i > old(i)
    {
      hide G.ParseDirectives, G.ParseBlock, G.ParseVarDefs, EraseBlock;
      var t := PeekToken();
      if t.None? || !(t.value == BraceL || t.value.Name?) {
        return None;
      }
      if t.value == BraceL {
        var block := ParseSelectionSet();
        return if block.Some? then Some((None, block.value)) else None;
      }
      var keyword := ExpectName();
      if keyword.value == "fragment" {
        r := ParseFragment();
      } else if IsOperationKind(keyword.value) {
        r := ParseOperation(keyword.value);
      } else {
        r := None;
      }
    }

    method ParseFragment() returns (r: Option<(Option<string>, Ast.SelectionSet)>)
      requires Valid() && nesting == 0
      modifies this
      ensures var p := G.ParseFragment(old(Rest()));
              Did(p) && r == if p.Got? then Some((FragmentName(p.value), EraseBlock(p.value.block))) else None
    {
      hide G.ParseDirectives, G.ParseBlock, EraseBlock;
      var name := ExpectName();
      if name.None? || name.value == "on" {
        return None;
      }
      var on := ExpectName();
      if on != Some("on") {
        return None;
      }
      var on' := ExpectName();
      if on'.None? {
        return None;
      }
      var ok := ParseDirectives();
      if !ok {
        return None;
      }
      var block := ParseSelectionSet();
      r := if block.Some? then Some((name, block.value)) else None;
    }

    /** What follows `query`, `mutation` or `subscription`. */
    method ParseOperation(ghost kind: string) returns (r: Option<(Option<string>, Ast.SelectionSet)>)
      requires Valid() && nesting == 0
      modifies this
      ensures var p := if StartsName(old(Rest()))
              then G.ParseOperation(kind, Some(old(Rest()).head.text), old(Rest()).tail)
                       else G.ParseOperation(kind, None, old(Rest()));
              Did(p) && r == if p.Got? then Some((None, EraseBlock(p.value.block))) else None
    {
      hide G.ParseDirectives, G.ParseBlock, G.ParseVarDefs, EraseBlock;
      var t := PeekToken();
      if t.None? {
        return None;
      }
      if t.value.Name? {
        var _ := ExpectName();
      }
      t := PeekToken();
      if t.None? {
        return None;
      }
      if t == Some(ParenL) {
        var _ := Eat(ParenL);
        var ok := ParseVariableDefs();
        if !ok {
          return None;
        }
      }
      var ok := ParseDirectives();
      if !ok {
        return None;
      }
      var block := ParseSelectionSet();
      r := if block.Some? then Some((None, block.value)) else None;
    }
  }

  function FragmentName(d: Definition): Option<string> {
    if d.FragmentDef? then Some(d.fragment) else None
  }

  // ----- documents ------------------------------------------------------------------------------

  function Outcome(p: Parsed<List<Definition>>): Result<Ast.Document, ParseFail> {
    match p
    case Got(ds, _) => Ok(Erase(ds))
    case Bad => Err(Invalid)
    case TooDeep => Err(TooDeepToParse)
  }

  /** What the parser must answer for the tokens of a source. */
  function Reference(toks: seq<Token>, clean: bool): Result<Ast.Document, ParseFail> {
    if toks == [] then Err(Invalid) else Outcome(ParseDefinitions(Stream(toks, 0), clean, {}))
  }

  lemma {:induction false} AcceptedIsShaped(toks: seq<Token>, clean: bool)
    ensures Reference(toks, clean).Ok? ==> Ast.ShapedDocument(Reference(toks, clean).value)
  {
    if Reference(toks, clean).Ok? {
      DefinitionsSound(Stream(toks, 0), clean, {});
      ErasedDocumentIsShaped(ParseDefinitions(Stream(toks, 0), clean, {}).value, {});
    }
  }

  /** Taking a definition over from what is still to be read to what has been read. */
  lemma {:induction false} TakeOver(operations: seq<Ast.SelectionSet>, fragments: map<string, Ast.SelectionSet>,
                                    d: Definition, ds: List<Definition>)
    ensures operations + Operations(Cons(d, ds)) ==
            (if d.FragmentDef? then operations else operations + [EraseBlock(d.block)]) + Operations(ds)
    ensures fragments + Fragments(Cons(d, ds)) ==
            (if d.FragmentDef? then fragments[d.fragment := EraseBlock(d.block)] else fragments) + Fragments(ds)
  {}

  lemma {:induction false} NothingTaken(operations: seq<Ast.SelectionSet>, fragments: map<string, Ast.SelectionSet>,
                                        ds: List<Definition>)
    ensures operations + Operations(Nil) == operations && fragments + Fragments(Nil) == fragments
    ensures [] + Operations(ds) == Operations(ds) && map[] + Fragments(ds) == Fragments(ds)
  {}

  method ParseDocument(toks: seq<Token>, clean: bool) returns (r: Result<Ast.Document, ParseFail>)
    ensures r == Reference(toks, clean)
    ensures r.Ok? ==> Ast.ShapedDocument(r.value)
  {
    if toks == [] {
      return Err(Invalid);
    }
    var p := new Parser(toks, clean);
    ghost var all := ParseDefinitions(p.Rest(), clean, {});
    AcceptedIsShaped(toks, clean);
    hide G.ParseDefinition, EraseBlock, Ast.ShapedDocument, Operations, Fragments;
    var operations: seq<Ast.SelectionSet> := [];
    var fragments: map<string, Ast.SelectionSet> := map[];
    NothingTaken([], map[], if all.Got? then all.value else Nil);
    ghost var names: set<string> := {};
    while p.i < |toks| || !clean
      invariant fresh(p) && p.toks == toks && p.Valid() && p.nesting == 0 && names == fragments.Keys
      invariant var q := ParseDefinitions(p.Rest(), clean, names);
                && all.Got? == q.Got? && all.TooDeep? == q.TooDeep?
                && (q.Got? ==>
                      && Operations(all.value) == operations + Operations(q.value)
                      && Fragments(all.value) == fragments + Fragments(q.value))
      decreases |toks| - p.i
    {
      ghost var more := ParseDefinitions(p.Rest(), clean, names);
      var d := p.ParseDefinition();
      if d.None? {
        return Err(if p.tooDeep then TooDeepToParse else Invalid);
      }
      var (name, block) := d.value;
      if more.Got? {
        TakeOver(operations, fragments, more.value.head, more.value.tail);
      }
      if name.None? {
        operations, names := operations + [block], names + {};
      } else {
        if name.value in fragments {
          return Err(Invalid);
        }
        fragments, names := fragments[name.value := block], names + {name.value};
      }
    }
    NothingTaken(operations, fragments, Nil);
    r := Ok(Ast.Document(operations, fragments));
  }

  /** A source is accepted, with this document, exactly when it is a printed tree of the grammar within the limits. */
  lemma {:induction false} AcceptsExactlyTheGrammar(toks: seq<Token>, clean: bool, doc: Ast.Document)
    ensures Reference(toks, clean) == Ok(doc) <==>
            clean && exists ds: List<Definition> ::
                       && ds.Cons? && WellFormedDefinitions(ds, {}) && NestingOfDefinitions(ds) <= HARD_DEPTH
                       && PrintDefinitions(ds) == Stream(toks, 0) && Erase(ds) == doc
  {
    if Reference(toks, clean) == Ok(doc) {
      DefinitionsSound(Stream(toks, 0), clean, {});
    }
    if clean {
      forall ds: List<Definition> |
        && ds.Cons? && WellFormedDefinitions(ds, {}) && NestingOfDefinitions(ds) <= HARD_DEPTH
        && PrintDefinitions(ds) == Stream(toks, 0) && Erase(ds) == doc
        ensures Reference(toks, clean) == Ok(doc)
      {
        DefinitionsComplete(ds, {});
      }
    }
  }

  ghost function ToSequence(ts: Tokens): seq<Token> { if ts.Nil? then [] else [ts.head] + ToSequence(ts.tail) }

  lemma {:induction false} StreamOfTail(head: Token, toks: seq<Token>, i: nat)
    requires i <= |toks|
    ensures Stream([head] + toks, i + 1) == Stream(toks, i)
    decreases |toks| - i
  {
    if i < |toks| {
      StreamOfTail(head, toks, i + 1);
    }
  }

  lemma {:induction false} StreamOfSequence(ts: Tokens)
    ensures Stream(ToSequence(ts), 0) == ts
  {
    if ts.Cons? {
      StreamOfSequence(ts.tail);
      StreamOfTail(ts.head, ToSequence(ts.tail), 0);
    }
  }

  /** The round trip: every printed tree is read back, and one more level of nesting is refused as too deep. */
  lemma {:induction false} PrintedDocumentsAreReadBack(ds: List<Definition>)
    requires ds.Cons? && WellFormedDefinitions(ds, {})
    ensures Reference(ToSequence(PrintDefinitions(ds)), true) ==
            if NestingOfDefinitions(ds) <= HARD_DEPTH then Ok(Erase(ds)) else Err(TooDeepToParse)
  {
    hide ToSequence, PrintDefinitions, Erase;
    StreamOfSequence(PrintDefinitions(ds));
    DefinitionsComplete(ds, {});
  }
}
