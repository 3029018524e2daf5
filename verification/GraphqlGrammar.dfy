/**
 * The grammar that the parser of src/graphql.rs accepts, as concrete syntax trees with a
 * printer, and a reference parser over token streams. The reference parser is the inverse
 * of the printer: what it accepts prints back to what it read, and every printed tree is read
 * back (sections 2.2 to 2.11 of the GraphQL specification).
 */
module GraphqlGrammar {
  import opened Wrappers
  import Ast = GraphqlAst

  datatype Token =
    | Name(text: string) | IntLit(n: int) | FloatLit | StringLit
    | Bang | Dollar | Amp | ParenL | ParenR | Dots | Colon | Equals | At
    | BracketL | BracketR | BraceL | BraceR | Pipe

  datatype List<+T> = Nil | Cons(head: T, tail: List<T>)

  type Tokens = List<Token>

  function Length<T>(list: List<T>): nat {
    match list case Nil => 0 case Cons(_, tail) => 1 + Length(tail)
  }

  const HARD_DEPTH: nat := Ast.HARD_DEPTH
  const HARD_VALUE_DEPTH: nat := 32

  predicate FitsI64(n: int) { -0x8000_0000_0000_0000 <= n < 0x8000_0000_0000_0000 }

  /** A parse that stopped before `rest`, or failed; `TooDeep` is the limit on nested selection sets. */
  datatype Parsed<+T> = Got(value: T, rest: Tokens) | Bad | TooDeep {
    predicate IsFailure() { !Got? }
    function PropagateFailure<U>(): Parsed<U> requires IsFailure() { if Bad? then Bad else TooDeep }
    function Extract(): (T, Tokens) requires !IsFailure() { (value, rest) }
  }

  predicate Starts(ts: Tokens, t: Token) { ts.Cons? && ts.head == t }

  predicate StartsName(ts: Tokens) { ts.Cons? && ts.head.Name? }

  // ----- values, arguments and directives --------------------------------------------------

  datatype Value =
    | VarRef(name: string)
    | Number(n: int)
    | Scalar(token: Token)
    | ListValue(items: List<Value>)
    | ObjectValue(fields: List<Binding>)

  /** `name: value`, an argument or a field of an object value. */
  datatype Binding = Binding(name: string, value: Value)

  datatype Directive = Directive(name: string, args: List<Binding>)

  ghost predicate WellFormedValue(v: Value, depth: nat) {
    && depth <= HARD_VALUE_DEPTH
    && match v
       case VarRef(_) => true
       case Number(n) => FitsI64(n)
       case Scalar(t) => t.FloatLit? || t.StringLit? || t.Name?
       case ListValue(items) => WellFormedValues(items, depth + 1)
       case ObjectValue(fields) => WellFormedBindings(fields, depth + 1)
  }

  ghost predicate WellFormedValues(vs: List<Value>, depth: nat) {
    vs.Cons? ==> WellFormedValue(vs.head, depth) && WellFormedValues(vs.tail, depth)
  }

  ghost predicate WellFormedBindings(bs: List<Binding>, depth: nat) {
    bs.Cons? ==> WellFormedValue(bs.head.value, depth) && WellFormedBindings(bs.tail, depth)
  }

  ghost predicate WellFormedDirectives(ds: List<Directive>) {
    ds.Cons? ==> WellFormedBindings(ds.head.args, 0) && WellFormedDirectives(ds.tail)
  }

  // Printers put the tokens of a tree in front of a stream.

  ghost function PrintValue(v: Value, rest: Tokens): Tokens
    decreases v
  {
    match v
    case VarRef(name) => Cons(Dollar, Cons(Name(name), rest))
    case Number(n) => Cons(IntLit(n), rest)
    case Scalar(t) => Cons(t, rest)
    case ListValue(items) => Cons(BracketL, PrintValues(items, Cons(BracketR, rest)))
    case ObjectValue(fields) => Cons(BraceL, PrintBindings(fields, Cons(BraceR, rest)))
  }

  ghost function PrintValues(vs: List<Value>, rest: Tokens): Tokens
    decreases vs
  {
    if vs.Nil? then rest else PrintValue(vs.head, PrintValues(vs.tail, rest))
  }

  ghost function PrintBindings(bs: List<Binding>, rest: Tokens): Tokens
    decreases bs
  {
    if bs.Nil? then rest
    else Cons(Name(bs.head.name), Cons(Colon, PrintValue(bs.head.value, PrintBindings(bs.tail, rest))))
  }

  ghost function PrintArguments(args: List<Binding>, rest: Tokens): Tokens {
    if args.Nil? then rest else Cons(ParenL, PrintBindings(args, Cons(ParenR, rest)))
  }

  ghost function PrintDirectives(ds: List<Directive>, rest: Tokens): Tokens
    decreases ds
  {
    if ds.Nil? then rest
    else Cons(At, Cons(Name(ds.head.name), PrintArguments(ds.head.args, PrintDirectives(ds.tail, rest))))
  }

  function ParseValue(ts: Tokens, depth: nat): (r: Parsed<Value>)
    ensures !r.TooDeep? && (r.Got? ==> Length(r.rest) < Length(ts))
    decreases Length(ts), 0
  {
    if depth > HARD_VALUE_DEPTH || ts.Nil? then Bad
    else
      match ts.head
      case Dollar => if StartsName(ts.tail) then Got(VarRef(ts.tail.head.text), ts.tail.tail) else Bad
      case IntLit(n) => if FitsI64(n) then Got(Number(n), ts.tail) else Bad
      case FloatLit => Got(Scalar(ts.head), ts.tail)
      case StringLit => Got(Scalar(ts.head), ts.tail)
      case Name(_) => Got(Scalar(ts.head), ts.tail)
      case BracketL =>
        var (items, rest) :- ParseValues(ts.tail, depth + 1);
        Got(ListValue(items), rest)
      case BraceL =>
        var (fields, rest) :- ParseBindings(ts.tail, BraceR, depth + 1);
        Got(ObjectValue(fields), rest)
      case _ => Bad
  }

  /** Values up to the closing bracket. */
  function ParseValues(ts: Tokens, depth: nat): (r: Parsed<List<Value>>)
    ensures !r.TooDeep? && (r.Got? ==> Length(r.rest) < Length(ts))
    decreases Length(ts), 1
  {
    if ts.Nil? then Bad
    else if ts.head == BracketR then Got(Nil, ts.tail)
    else
      var (v, rest) :- ParseValue(ts, depth);
      var (vs, rest') :- ParseValues(rest, depth);
      Got(Cons(v, vs), rest')
  }

  /** Bindings up to the closing token. */
  function ParseBindings(ts: Tokens, close: Token, depth: nat): (r: Parsed<List<Binding>>)
    ensures !r.TooDeep? && (r.Got? ==> Length(r.rest) < Length(ts))
    decreases Length(ts), 1
  {
    if ts.Nil? then Bad
    else if ts.head == close then Got(Nil, ts.tail)
    else if !ts.head.Name? || !Starts(ts.tail, Colon) then Bad
    else
      assert Length(ts.tail.tail) < Length(ts.tail);
      var (v, rest) :- ParseValue(ts.tail.tail, depth);
      var (bs, rest') :- ParseBindings(rest, close, depth);
      Got(Cons(Binding(ts.head.text, v), bs), rest')
  }

  /** Arguments in parentheses, at least one. */
  function ParseArguments(ts: Tokens): (r: Parsed<List<Binding>>)
    ensures !r.TooDeep? && (r.Got? ==> Length(r.rest) < Length(ts))
  {
    if !Starts(ts, ParenL) then Bad
    else
      var (args, rest) :- ParseBindings(ts.tail, ParenR, 0);
      if args.Nil? then Bad else Got(args, rest)
  }

  /** An optional argument list; something must follow. */
  function ParseMaybeArguments(ts: Tokens): (r: Parsed<List<Binding>>)
    ensures !r.TooDeep? && (r.Got? ==> Length(r.rest) <= Length(ts))
  {
    if ts.Nil? then Bad else if ts.head == ParenL then ParseArguments(ts) else Got(Nil, ts)
  }

  function ParseDirectives(ts: Tokens): (r: Parsed<List<Directive>>)
    ensures !r.TooDeep? && (r.Got? ==> Length(r.rest) <= Length(ts))
    decreases Length(ts)
  {
    if !Starts(ts, At) then Got(Nil, ts)
    else if !StartsName(ts.tail) then Bad
    else
      assert Length(ts.tail.tail) < Length(ts.tail);
      var (args, rest) :- ParseMaybeArguments(ts.tail.tail);
      var (ds, rest') :- ParseDirectives(rest);
      Got(Cons(Directive(ts.tail.head.text, args), ds), rest')
  }

  // What is accepted prints back to what was read.

  lemma {:induction false} ValueSound(ts: Tokens, depth: nat)
    requires ParseValue(ts, depth).Got?
    ensures var r := ParseValue(ts, depth); ts == PrintValue(r.value, r.rest) && WellFormedValue(r.value, depth)
    decreases Length(ts), 0
  {
    if ts.head == BracketL {
      ValuesSound(ts.tail, depth + 1);
    } else if ts.head == BraceL {
      BindingsSound(ts.tail, BraceR, depth + 1);
    }
  }

  lemma {:induction false} ValuesSound(ts: Tokens, depth: nat)
    requires ParseValues(ts, depth).Got?
    ensures var r := ParseValues(ts, depth);
            ts == PrintValues(r.value, Cons(BracketR, r.rest)) && WellFormedValues(r.value, depth)
    decreases Length(ts), 1
  {
    if ts.head != BracketR {
      ValueSound(ts, depth);
      ValuesSound(ParseValue(ts, depth).rest, depth);
    }
  }

  lemma {:induction false} BindingsSound(ts: Tokens, close: Token, depth: nat)
    requires ParseBindings(ts, close, depth).Got?
    ensures var r := ParseBindings(ts, close, depth);
            ts == PrintBindings(r.value, Cons(close, r.rest)) && WellFormedBindings(r.value, depth)
    decreases Length(ts), 1
  {
    if ts.head != close {
      assert Length(ts.tail.tail) < Length(ts.tail);
      ValueSound(ts.tail.tail, depth);
      BindingsSound(ParseValue(ts.tail.tail, depth).rest, close, depth);
    }
  }

  lemma {:induction false} ArgumentsSound(ts: Tokens)
    requires ParseMaybeArguments(ts).Got?
    ensures var r := ParseMaybeArguments(ts);
            ts == PrintArguments(r.value, r.rest) && WellFormedBindings(r.value, 0)
  {
    if ts.head == ParenL {
      BindingsSound(ts.tail, ParenR, 0);
    }
  }

  lemma {:induction false} DirectivesSound(ts: Tokens)
    requires ParseDirectives(ts).Got?
    ensures var r := ParseDirectives(ts);
            ts == PrintDirectives(r.value, r.rest) && WellFormedDirectives(r.value)
    decreases Length(ts)
  {
    if Starts(ts, At) {
      assert Length(ts.tail.tail) < Length(ts.tail);
      ArgumentsSound(ts.tail.tail);
      DirectivesSound(ParseMaybeArguments(ts.tail.tail).rest);
    }
  }

  // What is printed is accepted, whatever follows.

  lemma {:induction false} ValueComplete(v: Value, depth: nat, rest: Tokens)
    requires WellFormedValue(v, depth)
    ensures ParseValue(PrintValue(v, rest), depth) == Got(v, rest)
    ensures PrintValue(v, rest).Cons? && PrintValue(v, rest).head != BracketR
    decreases v
  {
    match v
    case ListValue(items) => ValuesComplete(items, depth + 1, rest);
    case ObjectValue(fields) => BindingsComplete(fields, BraceR, depth + 1, rest);
    case _ =>
  }

  lemma {:induction false} ValuesComplete(vs: List<Value>, depth: nat, rest: Tokens)
    requires WellFormedValues(vs, depth)
    ensures ParseValues(PrintValues(vs, Cons(BracketR, rest)), depth) == Got(vs, rest)
    decreases vs
  {
    if vs.Cons? {
      ValueComplete(vs.head, depth, PrintValues(vs.tail, Cons(BracketR, rest)));
      ValuesComplete(vs.tail, depth, rest);
    }
  }

  lemma {:induction false} BindingsComplete(bs: List<Binding>, close: Token, depth: nat, rest: Tokens)
    requires WellFormedBindings(bs, depth) && !close.Name?
    ensures ParseBindings(PrintBindings(bs, Cons(close, rest)), close, depth) == Got(bs, rest)
    decreases bs
  {
    if bs.Cons? {
      ValueComplete(bs.head.value, depth, PrintBindings(bs.tail, Cons(close, rest)));
      BindingsComplete(bs.tail, close, depth, rest);
    }
  }

  lemma {:induction false} ArgumentsComplete(args: List<Binding>, rest: Tokens)
    requires WellFormedBindings(args, 0) && rest.Cons? && rest.head != ParenL
    ensures ParseMaybeArguments(PrintArguments(args, rest)) == Got(args, rest)
  {
    if args.Cons? {
      BindingsComplete(args, ParenR, 0, rest);
    }
  }

  lemma {:induction false} DirectivesComplete(ds: List<Directive>, rest: Tokens)
    requires WellFormedDirectives(ds) && rest.Cons? && rest.head != At && rest.head != ParenL
    ensures ParseDirectives(PrintDirectives(ds, rest)) == Got(ds, rest)
    decreases ds
  {
    if ds.Cons? {
      ArgumentsComplete(ds.head.args, PrintDirectives(ds.tail, rest));
      DirectivesComplete(ds.tail, rest);
    }
  }

  // ----- variable definitions --------------------------------------------------------------

  datatype Type = NamedType(name: string, required: bool) | ListType(of: Type, required: bool)

  datatype VarDef = VarDef(name: string, of: Type, default: Option<Value>, directives: List<Directive>)

  ghost predicate WellFormedVarDefs(vs: List<VarDef>) {
    vs.Cons? ==>
      && (vs.head.default.Some? ==> WellFormedValue(vs.head.default.value, 0))
      && WellFormedDirectives(vs.head.directives)
      && WellFormedVarDefs(vs.tail)
  }

  ghost function PrintBang(required: bool, rest: Tokens): Tokens { if required then Cons(Bang, rest) else rest }

  ghost function PrintType(t: Type, rest: Tokens): Tokens
    decreases t
  {
    match t
    case NamedType(name, required) => Cons(Name(name), PrintBang(required, rest))
    case ListType(of, required) => Cons(BracketL, PrintType(of, Cons(BracketR, PrintBang(required, rest))))
  }

  ghost function PrintDefault(default: Option<Value>, rest: Tokens): Tokens {
    if default.None? then rest else Cons(Equals, PrintValue(default.value, rest))
  }

  ghost function PrintVarDefs(vs: List<VarDef>, rest: Tokens): Tokens
    decreases vs
  {
    if vs.Nil? then rest
    else
      Cons(Dollar, Cons(Name(vs.head.name), Cons(Colon,
        PrintType(vs.head.of,
          PrintDefault(vs.head.default,
            PrintDirectives(vs.head.directives,
              PrintVarDefs(vs.tail, rest)))))))
  }

  /** Something must follow a type, since an optional `!` is looked for. */
  function ParseBang(ts: Tokens): (r: Parsed<bool>)
    ensures !r.TooDeep? && (r.Got? ==> Length(r.rest) <= Length(ts))
  {
    if ts.Nil? then Bad else if ts.head == Bang then Got(true, ts.tail) else Got(false, ts)
  }

  function ParseType(ts: Tokens): (r: Parsed<Type>)
    ensures !r.TooDeep? && (r.Got? ==> Length(r.rest) < Length(ts))
    decreases Length(ts)
  {
    if ts.Nil? then Bad
    else if ts.head == BracketL then
      var (of, rest) :- ParseType(ts.tail);
      if !Starts(rest, BracketR) then Bad
      else
        var (required, rest') :- ParseBang(rest.tail);
        Got(ListType(of, required), rest')
    else if ts.head.Name? then
      var (required, rest) :- ParseBang(ts.tail);
      Got(NamedType(ts.head.text, required), rest)
    else Bad
  }

  function ParseDefault(ts: Tokens): (r: Parsed<Option<Value>>)
    ensures !r.TooDeep? && (r.Got? ==> Length(r.rest) <= Length(ts))
  {
    if ts.Nil? then Bad
    else if ts.head == Equals then
      var (v, rest) :- ParseValue(ts.tail, 0);
      Got(Some(v), rest)
    else Got(None, ts)
  }

  /** Variable definitions up to the closing parenthesis, possibly none. */
  function ParseVarDefs(ts: Tokens): (r: Parsed<List<VarDef>>)
    ensures !r.TooDeep? && (r.Got? ==> Length(r.rest) < Length(ts))
    decreases Length(ts)
  {
    if ts.Nil? then Bad
    else if ts.head == ParenR then Got(Nil, ts.tail)
    else if ts.head != Dollar || !StartsName(ts.tail) || !Starts(ts.tail.tail, Colon) then Bad
    else
      assert Length(ts.tail.tail.tail) < Length(ts.tail.tail) < Length(ts.tail);
      var (of, rest1) :- ParseType(ts.tail.tail.tail);
      var (default, rest2) :- ParseDefault(rest1);
      var (directives, rest3) :- ParseDirectives(rest2);
      var (vs, rest4) :- ParseVarDefs(rest3);
      Got(Cons(VarDef(ts.tail.head.text, of, default, directives), vs), rest4)
  }

  lemma {:induction false} TypeSound(ts: Tokens)
    requires ParseType(ts).Got?
    ensures ts == PrintType(ParseType(ts).value, ParseType(ts).rest)
    decreases Length(ts)
  {
    if ts.head == BracketL {
      TypeSound(ts.tail);
    }
  }

  lemma {:induction false} TypeComplete(t: Type, rest: Tokens)
    requires rest.Cons? && rest.head != Bang
    ensures ParseType(PrintType(t, rest)) == Got(t, rest)
    decreases t
  {
    if t.ListType? {
      var inner := Cons(BracketR, PrintBang(t.required, rest));
      TypeComplete(t.of, inner);
    }
  }

  lemma {:induction false} VarDefsSound(ts: Tokens)
    requires ParseVarDefs(ts).Got?
    ensures var r := ParseVarDefs(ts);
            ts == PrintVarDefs(r.value, Cons(ParenR, r.rest)) && WellFormedVarDefs(r.value)
    decreases Length(ts)
  {
    hide PrintType, PrintDirectives, PrintValue, ParseType, ParseDirectives, ParseValue, WellFormedValue,
      WellFormedDirectives;
    if ts.head != ParenR {
      assert Length(ts.tail.tail.tail) < Length(ts.tail.tail) < Length(ts.tail);
      var of := ParseType(ts.tail.tail.tail);
      TypeSound(ts.tail.tail.tail);
      var default := ParseDefault(of.rest);
      if of.rest.head == Equals {
        ValueSound(of.rest.tail, 0);
      }
      DirectivesSound(default.rest);
      VarDefsSound(ParseDirectives(default.rest).rest);
    }
  }

  lemma {:induction false} VarDefsComplete(vs: List<VarDef>, rest: Tokens)
    requires WellFormedVarDefs(vs)
    ensures ParseVarDefs(PrintVarDefs(vs, Cons(ParenR, rest))) == Got(vs, rest)
    decreases vs
  {
    if vs.Cons? {
      var after := PrintVarDefs(vs.tail, Cons(ParenR, rest));
      VarDefsComplete(vs.tail, rest);
      assert after.head == ParenR || after.head == Dollar;
      hide PrintDefault, PrintType, ParseType, PrintDirectives, ParseDirectives, ParseDefault, WellFormedValue,
        WellFormedDirectives;
      VarDefComplete(vs.head, after);
    }
  }

  lemma {:induction false} VarDefComplete(v: VarDef, after: Tokens)
    requires WellFormedVarDefs(Cons(v, Nil)) && after.Cons? && (after.head == ParenR || after.head == Dollar)
    ensures var after1 := PrintDirectives(v.directives, after);
            var after2 := PrintDefault(v.default, after1);
            && ParseType(PrintType(v.of, after2)) == Got(v.of, after2)
            && ParseDefault(after2) == Got(v.default, after1)
            && ParseDirectives(after1) == Got(v.directives, after)
  {
    hide PrintType, ParseType, PrintDirectives, ParseDirectives, ParseValue, PrintValue, WellFormedValue,
      WellFormedDirectives;
    var after1 := PrintDirectives(v.directives, after);
    var after2 := PrintDefault(v.default, after1);
    DirectivesComplete(v.directives, after);
    DirectivesStart(v.directives, after);
    TypeComplete(v.of, after2);
    if v.default.Some? {
      ValueComplete(v.default.value, 0, after1);
    }
  }

  // ----- selections ------------------------------------------------------------------------

  datatype Node =
    | FieldNode(alias: Option<string>, name: string, args: List<Binding>, directives: List<Directive>,
                body: Option<Block>)
    | SpreadNode(fragment: string, directives: List<Directive>)
    | InlineNode(on: Option<string>, directives: List<Directive>, block: Block)

  /** A selection set in braces. */
  datatype Block = Block(items: List<Node>)

  ghost predicate WellFormedNode(n: Node) {
    match n
    case FieldNode(_, _, args, directives, body) =>
      && WellFormedBindings(args, 0) && WellFormedDirectives(directives)
      && (body.Some? ==> WellFormedBlock(body.value))
    case SpreadNode(fragment, directives) => fragment != "on" && WellFormedDirectives(directives)
    case InlineNode(_, directives, block) => WellFormedDirectives(directives) && WellFormedBlock(block)
  }

  ghost predicate WellFormedNodes(ns: List<Node>) {
    ns.Cons? ==> WellFormedNode(ns.head) && WellFormedNodes(ns.tail)
  }

  ghost predicate WellFormedBlock(b: Block) { b.items.Cons? && WellFormedNodes(b.items) }

  function Max(a: nat, b: nat): nat { if a < b then b else a }

  /** How many selection sets are nested, the block itself included. */
  ghost function Nesting(b: Block): nat { 1 + NestingOfNodes(b.items) }

  ghost function NestingOfNodes(ns: List<Node>): nat {
    if ns.Nil? then 0 else Max(NestingOfNode(ns.head), NestingOfNodes(ns.tail))
  }

  ghost function NestingOfNode(n: Node): nat {
    match n
    case FieldNode(_, _, _, _, body) => if body.None? then 0 else Nesting(body.value)
    case SpreadNode(_, _) => 0
    case InlineNode(_, _, block) => Nesting(block)
  }

  ghost function PrintNode(n: Node, rest: Tokens): Tokens
    decreases n
  {
    match n
    case FieldNode(alias, name, args, directives, body) =>
      var inner := PrintArguments(args, PrintDirectives(directives,
        if body.None? then rest else PrintBlock(body.value, rest)));
      if alias.None? then Cons(Name(name), inner)
      else Cons(Name(alias.value), Cons(Colon, Cons(Name(name), inner)))
    case SpreadNode(fragment, directives) => Cons(Dots, Cons(Name(fragment), PrintDirectives(directives, rest)))
    case InlineNode(on, directives, block) =>
      var inner := PrintDirectives(directives, PrintBlock(block, rest));
      if on.None? then Cons(Dots, inner) else Cons(Dots, Cons(Name("on"), Cons(Name(on.value), inner)))
  }

  ghost function PrintNodes(ns: List<Node>, rest: Tokens): Tokens
    decreases ns
  {
    if ns.Nil? then rest else PrintNode(ns.head, PrintNodes(ns.tail, rest))
  }

  ghost function PrintBlock(b: Block, rest: Tokens): Tokens
    decreases b
  {
    Cons(BraceL, PrintNodes(b.items, Cons(BraceR, rest)))
  }

  function ParseBlock(ts: Tokens, nesting: nat): (r: Parsed<Block>)
    ensures r.Got? ==> Length(r.rest) < Length(ts)
    decreases Length(ts), 0
  {
    if nesting >= HARD_DEPTH then TooDeep
    else if !Starts(ts, BraceL) then Bad
    else
      var (items, rest) :- ParseNodes(ts.tail, nesting + 1);
      if items.Nil? then Bad else Got(Block(items), rest)
  }

  /** Selections up to the closing brace. */
  function ParseNodes(ts: Tokens, nesting: nat): (r: Parsed<List<Node>>)
    ensures r.Got? ==> Length(r.rest) < Length(ts)
    decreases Length(ts), 2
  {
    if ts.Nil? then Bad
    else if ts.head == BraceR then Got(Nil, ts.tail)
    else
      var (n, rest) :- ParseNode(ts, nesting);
      var (ns, rest') :- ParseNodes(rest, nesting);
      Got(Cons(n, ns), rest')
  }

  function ParseNode(ts: Tokens, nesting: nat): (r: Parsed<Node>)
    ensures r.Got? ==> Length(r.rest) < Length(ts)
    decreases Length(ts), 1
  {
    if ts.Nil? then Bad
    else if ts.head == Dots then
      if Starts(ts.tail, Name("on")) then
        if !StartsName(ts.tail.tail) then Bad
        else
          assert Length(ts.tail.tail.tail) < Length(ts.tail.tail) < Length(ts.tail);
          var (directives, rest) :- ParseDirectives(ts.tail.tail.tail);
          var (block, rest') :- ParseBlock(rest, nesting);
          Got(InlineNode(Some(ts.tail.tail.head.text), directives, block), rest')
      else if StartsName(ts.tail) then
        assert Length(ts.tail.tail) < Length(ts.tail);
        var (directives, rest) :- ParseDirectives(ts.tail.tail);
        Got(SpreadNode(ts.tail.head.text, directives), rest)
      else if Starts(ts.tail, BraceL) || Starts(ts.tail, At) then
        var (directives, rest) :- ParseDirectives(ts.tail);
        var (block, rest') :- ParseBlock(rest, nesting);
        Got(InlineNode(None, directives, block), rest')
      else Bad
    else if !ts.head.Name? || ts.tail.Nil? then Bad
    else if ts.tail.head == Colon then
      if !StartsName(ts.tail.tail) then Bad
      else
        assert Length(ts.tail.tail.tail) < Length(ts.tail.tail) < Length(ts.tail);
        ParseField(Some(ts.head.text), ts.tail.tail.head.text, ts.tail.tail.tail, nesting)
    else ParseField(None, ts.head.text, ts.tail, nesting)
  }

  /** What follows the name of a field. */
  function ParseField(alias: Option<string>, name: string, ts: Tokens, nesting: nat): (r: Parsed<Node>)
    ensures r.Got? ==> Length(r.rest) <= Length(ts)
    decreases Length(ts), 1
  {
    var (args, rest1) :- ParseMaybeArguments(ts);
    var (directives, rest2) :- ParseDirectives(rest1);
    if rest2.Nil? then Bad
    else if rest2.head == BraceL then
      var (block, rest3) :- ParseBlock(rest2, nesting);
      Got(FieldNode(alias, name, args, directives, Some(block)), rest3)
    else Got(FieldNode(alias, name, args, directives, None), rest2)
  }

  lemma {:induction false} BlockSound(ts: Tokens, nesting: nat)
    requires ParseBlock(ts, nesting).Got?
    ensures var r := ParseBlock(ts, nesting);
            && ts == PrintBlock(r.value, r.rest) && WellFormedBlock(r.value)
            && nesting + Nesting(r.value) <= HARD_DEPTH
    decreases Length(ts), 0
  {
    NodesSound(ts.tail, nesting + 1);
  }

  lemma {:induction false} NodesSound(ts: Tokens, nesting: nat)
    requires ParseNodes(ts, nesting).Got? && nesting <= HARD_DEPTH
    ensures var r := ParseNodes(ts, nesting);
            && ts == PrintNodes(r.value, Cons(BraceR, r.rest)) && WellFormedNodes(r.value)
            && nesting + NestingOfNodes(r.value) <= HARD_DEPTH
    decreases Length(ts), 2
  {
    hide ParseNode, PrintNode, WellFormedNode, NestingOfNode;
    if ts.head != BraceR {
      NodeSound(ts, nesting);
      NodesSound(ParseNode(ts, nesting).rest, nesting);
    }
  }

  lemma {:induction false} NodeSound(ts: Tokens, nesting: nat)
    requires ParseNode(ts, nesting).Got? && nesting <= HARD_DEPTH
    ensures var r := ParseNode(ts, nesting);
            && ts == PrintNode(r.value, r.rest) && WellFormedNode(r.value)
            && nesting + NestingOfNode(r.value) <= HARD_DEPTH
    decreases Length(ts), 1
  {
    hide ParseField, ParseDirectives, PrintDirectives, ParseBlock, PrintBlock, WellFormedBlock, WellFormedDirectives,
      Nesting;
    if ts.head == Dots {
      if Starts(ts.tail, Name("on")) {
        assert Length(ts.tail.tail.tail) < Length(ts.tail.tail) < Length(ts.tail);
        DirectivesSound(ts.tail.tail.tail);
        BlockSound(ParseDirectives(ts.tail.tail.tail).rest, nesting);
      } else if StartsName(ts.tail) {
        DirectivesSound(ts.tail.tail);
      } else {
        DirectivesSound(ts.tail);
        BlockSound(ParseDirectives(ts.tail).rest, nesting);
      }
    } else if ts.tail.head == Colon {
      assert Length(ts.tail.tail.tail) < Length(ts.tail.tail) < Length(ts.tail);
      FieldSound(Some(ts.head.text), ts.tail.tail.head.text, ts.tail.tail.tail, nesting);
    } else {
      FieldSound(None, ts.head.text, ts.tail, nesting);
    }
  }

  lemma {:induction false} FieldSound(alias: Option<string>, name: string, ts: Tokens, nesting: nat)
    requires ParseField(alias, name, ts, nesting).Got? && nesting <= HARD_DEPTH
    ensures var r := ParseField(alias, name, ts, nesting); var n := r.value;
            && n.FieldNode? && n.alias == alias && n.name == name
            && ts == PrintArguments(n.args, PrintDirectives(n.directives,
                       if n.body.None? then r.rest else PrintBlock(n.body.value, r.rest)))
            && WellFormedNode(n) && nesting + NestingOfNode(n) <= HARD_DEPTH
    decreases Length(ts), 1
  {
    hide ParseMaybeArguments, PrintArguments, ParseDirectives, PrintDirectives, ParseBlock, PrintBlock,
      WellFormedBlock, WellFormedDirectives, WellFormedBindings, Nesting;
    ArgumentsSound(ts);
    var args := ParseMaybeArguments(ts);
    DirectivesSound(args.rest);
    var directives := ParseDirectives(args.rest);
    if directives.rest.head == BraceL {
      BlockSound(directives.rest, nesting);
    }
  }

  /** A token that cannot be taken for more of the selection before it. */
  predicate Follows(ts: Tokens) {
    ts.Cons? && ts.head !in {Colon, ParenL, At, BraceL}
  }

  /** Reading back a printed tree: the tree if it respects the nesting limit, otherwise `TooDeep`. */
  ghost function Expected<T>(value: T, rest: Tokens, nesting: nat): Parsed<T> {
    if nesting <= HARD_DEPTH then Got(value, rest) else TooDeep
  }

  lemma {:induction false} BlockComplete(b: Block, nesting: nat, rest: Tokens)
    requires WellFormedBlock(b) && nesting <= HARD_DEPTH
    ensures ParseBlock(PrintBlock(b, rest), nesting) == Expected(b, rest, nesting + Nesting(b))
    decreases b
  {
    hide ParseNodes, PrintNodes, NestingOfNodes, WellFormedNodes;
    if nesting < HARD_DEPTH {
      NodesComplete(b.items, nesting + 1, rest);
    }
  }

  lemma {:induction false} NodesComplete(ns: List<Node>, nesting: nat, rest: Tokens)
    requires WellFormedNodes(ns) && nesting <= HARD_DEPTH
    ensures ParseNodes(PrintNodes(ns, Cons(BraceR, rest)), nesting) == Expected(ns, rest, nesting + NestingOfNodes(ns))
    decreases ns
  {
    hide ParseNode, PrintNode, NestingOfNode, WellFormedNode;
    if ns.Cons? {
      var tail := PrintNodes(ns.tail, Cons(BraceR, rest));
      NodeStarts(ns.tail, Cons(BraceR, rest));
      NodeStarts(ns, Cons(BraceR, rest));
      NodeComplete(ns.head, nesting, tail);
      NodesComplete(ns.tail, nesting, rest);
    }
  }

  lemma {:induction false} NodeStarts(ns: List<Node>, rest: Tokens)
    ensures ns.Cons? ==>
              PrintNodes(ns, rest).Cons? && (PrintNodes(ns, rest).head.Name? || PrintNodes(ns, rest).head == Dots)
  {}

  lemma {:induction false} NodeComplete(n: Node, nesting: nat, rest: Tokens)
    requires WellFormedNode(n) && nesting <= HARD_DEPTH && Follows(rest)
    ensures ParseNode(PrintNode(n, rest), nesting) == Expected(n, rest, nesting + NestingOfNode(n))
    decreases n
  {
    match n
    case FieldNode(_, _, _, _, _) => FieldNodeComplete(n, nesting, rest);
    case SpreadNode(_, _) => SpreadComplete(n, nesting, rest);
    case InlineNode(_, _, _) => InlineComplete(n, nesting, rest);
  }

  lemma {:induction false} SpreadComplete(n: Node, nesting: nat, rest: Tokens)
    requires n.SpreadNode? && WellFormedNode(n) && nesting <= HARD_DEPTH && Follows(rest)
    ensures ParseNode(PrintNode(n, rest), nesting) == Expected(n, rest, nesting + NestingOfNode(n))
  {
    hide ParseField, ParseDirectives, PrintDirectives, ParseBlock, WellFormedDirectives;
    DirectivesComplete(n.directives, rest);
  }

  lemma {:induction false} FieldNodeComplete(n: Node, nesting: nat, rest: Tokens)
    requires n.FieldNode? && WellFormedNode(n) && nesting <= HARD_DEPTH && Follows(rest)
    ensures ParseNode(PrintNode(n, rest), nesting) == Expected(n, rest, nesting + NestingOfNode(n))
    decreases n, 1
  {
    hide ParseField, ParseDirectives, PrintDirectives, PrintArguments, ParseBlock, PrintBlock, WellFormedNode,
      NestingOfNode;
    FieldComplete(n, nesting, rest);
  }

  lemma {:induction false} InlineComplete(n: Node, nesting: nat, rest: Tokens)
    requires n.InlineNode? && WellFormedNode(n) && nesting <= HARD_DEPTH && Follows(rest)
    ensures ParseNode(PrintNode(n, rest), nesting) == Expected(n, rest, nesting + NestingOfNode(n))
    decreases n, 1
  {
    hide ParseField, ParseDirectives, PrintDirectives, ParseBlock, PrintNodes, WellFormedDirectives, WellFormedBlock,
      Nesting;
    var after := PrintBlock(n.block, rest);
    DirectivesComplete(n.directives, after);
    DirectivesStart(n.directives, after);
    BlockComplete(n.block, nesting, rest);
  }

  lemma {:induction false} DirectivesStart(ds: List<Directive>, rest: Tokens)
    ensures ds.Nil? ==> PrintDirectives(ds, rest) == rest
    ensures ds.Cons? ==> Starts(PrintDirectives(ds, rest), At)
  {}

  lemma {:induction false} ArgumentsStart(args: List<Binding>, rest: Tokens)
    ensures args.Nil? ==> PrintArguments(args, rest) == rest
    ensures args.Cons? ==> Starts(PrintArguments(args, rest), ParenL)
  {}

  lemma {:induction false} FieldComplete(n: Node, nesting: nat, rest: Tokens)
    requires n.FieldNode? && WellFormedNode(n) && nesting <= HARD_DEPTH && Follows(rest)
    ensures var inner := PrintArguments(n.args, PrintDirectives(n.directives,
                           if n.body.None? then rest else PrintBlock(n.body.value, rest)));
            && inner.Cons? && inner.head != Colon
            && ParseField(n.alias, n.name, inner, nesting) == Expected(n, rest, nesting + NestingOfNode(n))
    decreases n, 0
  {
    hide ParseDirectives, PrintDirectives, ParseMaybeArguments, PrintArguments, ParseBlock,
      WellFormedDirectives, WellFormedBindings, WellFormedBlock, Nesting;
    var after2 := if n.body.None? then rest else PrintBlock(n.body.value, rest);
    var after1 := PrintDirectives(n.directives, after2);
    DirectivesStart(n.directives, after2);
    ArgumentsStart(n.args, after1);
    ArgumentsComplete(n.args, after1);
    DirectivesComplete(n.directives, after2);
    if n.body.Some? {
      BlockComplete(n.body.value, nesting, rest);
    }
  }

  // ----- definitions and documents -----------------------------------------------------------

  datatype Definition =
    | Shorthand(block: Block)
    | Operation(kind: string, name: Option<string>, variables: Option<List<VarDef>>, directives: List<Directive>,
                block: Block)
    | FragmentDef(fragment: string, on: string, directives: List<Directive>, block: Block)

  predicate IsOperationKind(text: string) { text == "query" || text == "mutation" || text == "subscription" }

  ghost predicate WellFormedDefinition(d: Definition) {
    && WellFormedBlock(d.block)
    && match d
       case Shorthand(_) => true
       case Operation(kind, _, variables, directives, _) =>
         && IsOperationKind(kind) && WellFormedDirectives(directives)
         && (variables.Some? ==> WellFormedVarDefs(variables.value))
       case FragmentDef(fragment, _, directives, _) => fragment != "on" && WellFormedDirectives(directives)
  }

  ghost function PrintVariables(variables: Option<List<VarDef>>, rest: Tokens): Tokens {
    if variables.None? then rest else Cons(ParenL, PrintVarDefs(variables.value, Cons(ParenR, rest)))
  }

  ghost function PrintDefinition(d: Definition, rest: Tokens): Tokens {
    match d
    case Shorthand(block) => PrintBlock(block, rest)
    case Operation(kind, name, variables, directives, block) =>
      var inner := PrintVariables(variables, PrintDirectives(directives, PrintBlock(block, rest)));
      Cons(Name(kind), if name.None? then inner else Cons(Name(name.value), inner))
    case FragmentDef(fragment, on, directives, block) =>
      Cons(Name("fragment"), Cons(Name(fragment), Cons(Name("on"), Cons(Name(on),
        PrintDirectives(directives, PrintBlock(block, rest))))))
  }

  function ParseVariables(ts: Tokens): (r: Parsed<Option<List<VarDef>>>)
    ensures !r.TooDeep? && (r.Got? ==> Length(r.rest) <= Length(ts))
  {
    if ts.Nil? then Bad
    else if ts.head == ParenL then
      var (variables, rest) :- ParseVarDefs(ts.tail);
      Got(Some(variables), rest)
    else Got(None, ts)
  }

  function ParseOperation(kind: string, name: Option<string>, ts: Tokens): (r: Parsed<Definition>)
    ensures r.Got? ==> Length(r.rest) < Length(ts)
  {
    var (variables, rest1) :- ParseVariables(ts);
    var (directives, rest2) :- ParseDirectives(rest1);
    var (block, rest3) :- ParseBlock(rest2, 0);
    Got(Operation(kind, name, variables, directives, block), rest3)
  }

  function ParseFragment(ts: Tokens): (r: Parsed<Definition>)
    ensures r.Got? ==> Length(r.rest) < Length(ts)
  {
    if !StartsName(ts) || ts.head.text == "on" || !Starts(ts.tail, Name("on")) || !StartsName(ts.tail.tail) then Bad
    else
      assert Length(ts.tail.tail.tail) < Length(ts.tail.tail) < Length(ts.tail);
      var (directives, rest) :- ParseDirectives(ts.tail.tail.tail);
      var (block, rest') :- ParseBlock(rest, 0);
      Got(FragmentDef(ts.head.text, ts.tail.tail.head.text, directives, block), rest')
  }

  function ParseDefinition(ts: Tokens): (r: Parsed<Definition>)
    ensures r.Got? ==> Length(r.rest) < Length(ts)
  {
    if ts.Nil? then Bad
    else if ts.head == BraceL then
      var (block, rest) :- ParseBlock(ts, 0);
      Got(Shorthand(block), rest)
    else if ts.head == Name("fragment") then ParseFragment(ts.tail)
    else if ts.head.Name? && IsOperationKind(ts.head.text) then
      if StartsName(ts.tail) then ParseOperation(ts.head.text, Some(ts.tail.head.text), ts.tail.tail)
      else ParseOperation(ts.head.text, None, ts.tail)
    else Bad
  }

  /**
   * Definitions to the end of the source. `clean` says whether the tokens end because the source
   * does, rather than at characters that are no token; `names` are the fragments defined so far.
   */
  function ParseDefinitions(ts: Tokens, clean: bool, names: set<string>): (r: Parsed<List<Definition>>)
    decreases Length(ts)
  {
    if ts.Nil? then (if clean then Got(Nil, Nil) else Bad)
    else
      var (d, rest) :- ParseDefinition(ts);
      if d.FragmentDef? && d.fragment in names then Bad
      else
        var (ds, rest') :- ParseDefinitions(rest, clean, names + DefinedBy(d));
        Got(Cons(d, ds), rest')
  }

  function DefinedBy(d: Definition): set<string> { if d.FragmentDef? then {d.fragment} else {} }

  ghost predicate WellFormedDefinitions(ds: List<Definition>, names: set<string>) {
    ds.Cons? ==>
      && WellFormedDefinition(ds.head) && DefinedBy(ds.head) !! names
      && WellFormedDefinitions(ds.tail, names + DefinedBy(ds.head))
  }

  ghost function PrintDefinitions(ds: List<Definition>): Tokens {
    if ds.Nil? then Nil else PrintDefinition(ds.head, PrintDefinitions(ds.tail))
  }

  ghost function NestingOfDefinitions(ds: List<Definition>): nat {
    if ds.Nil? then 0 else Max(Nesting(ds.head.block), NestingOfDefinitions(ds.tail))
  }

  lemma {:induction false} DefinitionSound(ts: Tokens)
    requires ParseDefinition(ts).Got?
    ensures var r := ParseDefinition(ts);
            && ts == PrintDefinition(r.value, r.rest) && WellFormedDefinition(r.value)
            && Nesting(r.value.block) <= HARD_DEPTH
  {
    hide ParseDirectives, PrintDirectives, ParseBlock, PrintBlock, ParseVarDefs, PrintVarDefs, ParseOperation,
      ParseFragment, WellFormedBlock, WellFormedDirectives, WellFormedVarDefs, Nesting;
    if ts.head == BraceL {
      BlockSound(ts, 0);
    } else if ts.head == Name("fragment") {
      FragmentSound(ts.tail);
    } else if StartsName(ts.tail) {
      OperationSound(ts.head.text, Some(ts.tail.head.text), ts.tail.tail);
    } else {
      OperationSound(ts.head.text, None, ts.tail);
    }
  }

  lemma {:induction false} OperationSound(kind: string, name: Option<string>, ts: Tokens)
    requires IsOperationKind(kind) && ParseOperation(kind, name, ts).Got?
    ensures var r := ParseOperation(kind, name, ts); var d := r.value;
            && d.Operation? && d.kind == kind && d.name == name
            && ts == PrintVariables(d.variables, PrintDirectives(d.directives, PrintBlock(d.block, r.rest)))
            && WellFormedDefinition(d) && Nesting(d.block) <= HARD_DEPTH
  {
    hide ParseDirectives, PrintDirectives, ParseBlock, PrintBlock, ParseVarDefs, PrintVarDefs,
      WellFormedBlock, WellFormedDirectives, WellFormedVarDefs, Nesting, IsOperationKind;
    if ts.head == ParenL {
      VarDefsSound(ts.tail);
    }
    var variables := ParseVariables(ts);
    DirectivesSound(variables.rest);
    BlockSound(ParseDirectives(variables.rest).rest, 0);
  }

  lemma {:induction false} FragmentSound(ts: Tokens)
    requires ParseFragment(ts).Got?
    ensures var r := ParseFragment(ts);
            && r.value.FragmentDef? && Cons(Name("fragment"), ts) == PrintDefinition(r.value, r.rest)
            && WellFormedDefinition(r.value) && Nesting(r.value.block) <= HARD_DEPTH
  {
    hide ParseDirectives, PrintDirectives, ParseBlock, PrintBlock, WellFormedBlock, WellFormedDirectives, Nesting;
    DirectivesSound(ts.tail.tail.tail);
    BlockSound(ParseDirectives(ts.tail.tail.tail).rest, 0);
  }

  lemma {:induction false} OperationComplete(d: Definition, rest: Tokens)
    requires d.Operation? && WellFormedDefinition(d)
    ensures var ts := PrintVariables(d.variables, PrintDirectives(d.directives, PrintBlock(d.block, rest)));
            !StartsName(ts) && ParseOperation(d.kind, d.name, ts) == Expected(d, rest, Nesting(d.block))
  {
    hide ParseDirectives, PrintDirectives, ParseBlock, ParseVarDefs, PrintVarDefs,
      WellFormedBlock, WellFormedDirectives, WellFormedVarDefs, Nesting, IsOperationKind;
    BlockComplete(d.block, 0, rest);
    var after := PrintBlock(d.block, rest);
    DirectivesStart(d.directives, after);
    DirectivesComplete(d.directives, after);
    if d.variables.Some? {
      VarDefsComplete(d.variables.value, PrintDirectives(d.directives, after));
    }
  }

  lemma {:induction false} FragmentComplete(d: Definition, rest: Tokens)
    requires d.FragmentDef? && WellFormedDefinition(d)
    ensures ParseFragment(PrintDefinition(d, rest).tail) == Expected(d, rest, Nesting(d.block))
  {
    hide ParseDirectives, PrintDirectives, ParseBlock, PrintNodes, WellFormedBlock, WellFormedDirectives, Nesting;
    BlockComplete(d.block, 0, rest);
    DirectivesComplete(d.directives, PrintBlock(d.block, rest));
  }

  lemma {:induction false} DefinitionComplete(d: Definition, rest: Tokens)
    requires WellFormedDefinition(d)
    ensures PrintDefinition(d, rest).Cons?
    ensures ParseDefinition(PrintDefinition(d, rest)) == Expected(d, rest, Nesting(d.block))
  {
    hide ParseOperation, ParseFragment, PrintVariables, PrintDirectives, ParseBlock,
      WellFormedBlock, WellFormedDirectives, WellFormedVarDefs, Nesting;
    match d
    case Shorthand(block) => BlockComplete(block, 0, rest);
    case Operation(_, _, _, _, _) => OperationComplete(d, rest);
    case FragmentDef(_, _, _, _) => FragmentComplete(d, rest);
  }

  lemma {:induction false} DefinitionsSound(ts: Tokens, clean: bool, names: set<string>)
    requires ParseDefinitions(ts, clean, names).Got?
    ensures var ds := ParseDefinitions(ts, clean, names).value;
            && clean && ts == PrintDefinitions(ds) && WellFormedDefinitions(ds, names)
            && NestingOfDefinitions(ds) <= HARD_DEPTH
    decreases Length(ts)
  {
    hide ParseDefinition, PrintDefinition, WellFormedDefinition, Nesting;
    if ts.Cons? {
      DefinitionSound(ts);
      var d := ParseDefinition(ts);
      DefinitionsSound(d.rest, clean, names + DefinedBy(d.value));
    }
  }

  lemma {:induction false} DefinitionsComplete(ds: List<Definition>, names: set<string>)
    requires WellFormedDefinitions(ds, names)
    ensures ParseDefinitions(PrintDefinitions(ds), true, names) == Expected(ds, Nil, NestingOfDefinitions(ds))
    ensures ds.Cons? ==> PrintDefinitions(ds).Cons?
    decreases ds
  {
    hide ParseDefinition, PrintDefinition, WellFormedDefinition, Nesting;
    if ds.Cons? {
      DefinitionComplete(ds.head, PrintDefinitions(ds.tail));
      DefinitionsComplete(ds.tail, names + DefinedBy(ds.head));
    }
  }
}
