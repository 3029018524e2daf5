/**
 * The schema validator of src/openapi.rs: whether an instance satisfies a schema, within a depth
 * budget, with undeclared keys denied by default. Schemas are JSON values; a `$ref` is a lookup in
 * the finite table `doc` of its targets. Pointers and reasons of failures are not modelled.
 */
module Openapi {
  import opened Wrappers

  datatype Number = Integer(n: int) | Fraction(r: real)

  datatype Json =
    | Null
    | Bool(b: bool)
    | Num(number: Number)
    | Str(s: string)
    | Arr(items: seq<Json>)
    | Obj(fields: map<string, Json>)

  type Doc = map<string, Json>

  function Get(schema: Json, key: string): Option<Json> {
    if schema.Obj? && key in schema.fields then Some(schema.fields[key]) else None
  }

  predicate Has(schema: Json, key: string) { Get(schema, key).Some? }

  function GetArray(schema: Json, key: string): Option<seq<Json>> {
    match Get(schema, key) case Some(Arr(items)) => Some(items) case _ => None
  }

  function GetObject(schema: Json, key: string): map<string, Json> {
    match Get(schema, key) case Some(Obj(fields)) => fields case _ => map[]
  }

  function RefOf(schema: Json): Option<string> {
    match Get(schema, "$ref") case Some(Str(rel)) => Some(rel) case _ => None
  }

  function TypeNames(schema: Json): set<string> {
    match Get(schema, "type")
    case Some(Str(t)) => {t}
    case Some(Arr(items)) => set i | 0 <= i < |items| && items[i].Str? :: items[i].s
    case _ => {}
  }

  // ----- the declared names of a composition --------------------------------------------------

  /** The property names that a schema declares, through `$ref` and `allOf`. */
  function Names(doc: Doc, schema: Json, depth: nat): set<string>
    decreases depth, 1, 0
  {
    if depth == 0 then {}
    else
      (if RefOf(schema).Some? && RefOf(schema).value in doc then Names(doc, doc[RefOf(schema).value], depth - 1)
       else {})
      + GetObject(schema, "properties").Keys
      + (if GetArray(schema, "allOf").Some? then NamesOfAll(doc, GetArray(schema, "allOf").value, depth - 1) else {})
  }

  function NamesOfAll(doc: Doc, subs: seq<Json>, depth: nat): set<string>
    decreases depth, 2, |subs|
  {
    if subs == [] then {} else Names(doc, subs[0], depth) + NamesOfAll(doc, subs[1..], depth)
  }

  method CollectPropertyNames(doc: Doc, schema: Json, depth: nat, out: set<string>) returns (names: set<string>)
    ensures names == out + Names(doc, schema, depth)
    decreases depth, 0
  {
    names := out;
    if depth == 0 {
      return;
    }
    if RefOf(schema).Some? && RefOf(schema).value in doc {
      names := CollectPropertyNames(doc, doc[RefOf(schema).value], depth - 1, names);
    }
    names := names + GetObject(schema, "properties").Keys;
    var all := GetArray(schema, "allOf");
    if all.Some? {
      names := CollectFromAll(doc, all.value, depth - 1, names);
    }
  }

  method CollectFromAll(doc: Doc, subs: seq<Json>, depth: nat, out: set<string>) returns (names: set<string>)
    ensures names == out + NamesOfAll(doc, subs, depth)
    decreases depth, 1
  {
    hide Names;
    names := out;
    for i := 0 to |subs|
      invariant out + NamesOfAll(doc, subs, depth) == names + NamesOfAll(doc, subs[i..], depth)
    {
      assert subs[i..][1..] == subs[i + 1..];
      names := CollectPropertyNames(doc, subs[i], depth, names);
    }
  }

  predicate AllowsAdditional(doc: Doc, schema: Json, depth: nat)
    decreases depth
  {
    && depth > 0
    && (|| (RefOf(schema).Some? && RefOf(schema).value in doc
            && AllowsAdditional(doc, doc[RefOf(schema).value], depth - 1))
        || Get(schema, "additionalProperties") == Some(Bool(true))
        || (GetArray(schema, "allOf").Some? &&
            exists i :: 0 <= i < |GetArray(schema, "allOf").value| &&
                        AllowsAdditional(doc, GetArray(schema, "allOf").value[i], depth - 1)))
  }

  // ----- the validator ------------------------------------------------------------------------

  predicate SchemaOk(doc: Doc, schema: Json, inst: Json, depth: nat, strict: bool)
    decreases depth, 4
  {
    && depth > 0
    && if RefOf(schema).Some? then
         && RefOf(schema).value in doc
         && var target := doc[RefOf(schema).value];
            if |schema.fields| > 1 then
              && SchemaOk(doc, target, inst, depth - 1, false)
              && SchemaOk(doc, Obj(schema.fields - {"$ref"}), inst, depth - 1, false)
              && (inst.Obj? ==> DenyUndeclared(doc, schema, inst.fields, depth, strict))
            else SchemaOk(doc, target, inst, depth - 1, strict)
       else
         && (Has(schema, "const") ==> inst == Get(schema, "const").value)
         && (GetArray(schema, "enum").Some? ==> inst in GetArray(schema, "enum").value)
         && match NullVerdict(schema, inst)
            case Some(verdict) => verdict
            case None =>
              && ComposedOk(doc, schema, inst, depth, strict)
              && TypeOk(doc, schema, inst, depth, strict && !Has(schema, "allOf"))
  }

  /** What settles a null instance at once, if anything does. */
  function NullVerdict(schema: Json, inst: Json): Option<bool> {
    if !inst.Null? then None
    else if Get(schema, "nullable") == Some(Bool(true)) then Some(true)
    else if "null" in TypeNames(schema) then Some(true)
    else if TypeNames(schema) == {} && !Has(schema, "enum") && !Has(schema, "const") && !Has(schema, "properties") then
      Some(true)
    else if TypeNames(schema) != {} then Some(false)
    else None
  }

  predicate ComposedOk(doc: Doc, schema: Json, inst: Json, depth: nat, strict: bool)
    requires depth > 0
    decreases depth, 3
  {
    && AllOfOk(doc, schema, inst, depth, strict)
    && AnyOfOk(doc, schema, inst, depth)
    && (GetArray(schema, "oneOf").Some? && GetArray(schema, "oneOf").value != [] ==>
          Hits(doc, GetArray(schema, "oneOf").value, inst, depth - 1) == 1)
  }

  predicate AllOfOk(doc: Doc, schema: Json, inst: Json, depth: nat, strict: bool)
    requires depth > 0
    decreases depth, 2
  {
    GetArray(schema, "allOf").Some? ==>
      var all := GetArray(schema, "allOf").value;
      && (forall i :: 0 <= i < |all| ==> SchemaOk(doc, all[i], inst, depth - 1, false))
      && (inst.Obj? ==> DenyUndeclared(doc, schema, inst.fields, depth, strict))
  }

  predicate AnyOfOk(doc: Doc, schema: Json, inst: Json, depth: nat)
    requires depth > 0
    decreases depth, 2
  {
    GetArray(schema, "anyOf").Some? && GetArray(schema, "anyOf").value != [] ==>
      var any := GetArray(schema, "anyOf").value;
      exists i :: 0 <= i < |any| && SchemaOk(doc, any[i], inst, depth - 1, false)
  }

  /** How many of the schemas accept the instance. */
  function Hits(doc: Doc, subs: seq<Json>, inst: Json, depth: nat): nat
    decreases depth, 5, |subs|
  {
    if subs == [] then 0
    else (if SchemaOk(doc, subs[0], inst, depth, false) then 1 else 0) + Hits(doc, subs[1..], inst, depth)
  }

  predicate TypeOk(doc: Doc, schema: Json, inst: Json, depth: nat, strict: bool)
    requires depth > 0
    decreases depth, 3
  {
    match Get(schema, "type")
    case Some(Str(t)) => CheckType(doc, schema, t, inst, depth, strict)
    case Some(Arr(types)) =>
      exists i :: 0 <= i < |types| && types[i].Str? && CheckType(doc, schema, types[i].s, inst, depth, strict)
    case None =>
      if Has(schema, "properties") || Has(schema, "additionalProperties") || Has(schema, "required") then
        CheckType(doc, schema, "object", inst, depth, strict)
      else if Has(schema, "items") then CheckType(doc, schema, "array", inst, depth, strict)
      else true
    case _ => true
  }

  predicate CheckType(doc: Doc, schema: Json, t: string, inst: Json, depth: nat, strict: bool)
    requires depth > 0
    decreases depth, 2
  {
    if t == "null" then inst.Null?
    else if t == "boolean" then inst.Bool?
    else if t == "string" then inst.Str?
    else if t == "integer" then inst.Num? && inst.number.Integer?
    else if t == "number" then inst.Num?
    else if t == "array" then
      && inst.Arr?
      && (Has(schema, "items") ==>
            forall i :: 0 <= i < |inst.items| ==>
                SchemaOk(doc, Get(schema, "items").value, inst.items[i], depth - 1, true))
    else if t == "object" then
      && inst.Obj?
      && (GetArray(schema, "required").Some? ==>
            var required := GetArray(schema, "required").value;
            forall i :: 0 <= i < |required| && required[i].Str? ==> required[i].s in inst.fields)
      && (forall key :: key in inst.fields ==> KeyOk(doc, schema, key, inst.fields[key], depth, strict))
    else true
  }

  predicate KeyOk(doc: Doc, schema: Json, key: string, value: Json, depth: nat, strict: bool)
    requires depth > 0
    decreases depth, 1
  {
    if key in GetObject(schema, "properties") then
      SchemaOk(doc, GetObject(schema, "properties")[key], value, depth - 1, true)
    else
      match Get(schema, "additionalProperties")
      case Some(Bool(b)) => b
      case Some(sub) => SchemaOk(doc, sub, value, depth - 1, true)
      case None => !strict
  }

  predicate DenyUndeclared(doc: Doc, schema: Json, fields: map<string, Json>, depth: nat, strict: bool)
    requires depth > 0
    decreases depth, 1
  {
    || AllowsAdditional(doc, schema, depth)
    || (!strict && Get(schema, "additionalProperties") != Some(Bool(false)))
    || forall key :: key in fields && key !in Names(doc, schema, depth) ==>
        AdditionalOk(doc, schema, fields[key], depth)
  }

  predicate AdditionalOk(doc: Doc, schema: Json, value: Json, depth: nat)
    requires depth > 0
    decreases depth, 0
  {
    match Get(schema, "additionalProperties")
    case Some(Bool(b)) => b
    case Some(sub) => SchemaOk(doc, sub, value, depth - 1, true)
    case None => false
  }

  // ----- monotonicity -------------------------------------------------------------------------

  lemma {:induction false} LaxCheck(doc: Doc, schema: Json, t: string, inst: Json, depth: nat)
    requires depth > 0 && CheckType(doc, schema, t, inst, depth, true)
    ensures CheckType(doc, schema, t, inst, depth, false)
  {
    hide SchemaOk;
    if t == "object" {
      forall key | key in inst.fields
        ensures KeyOk(doc, schema, key, inst.fields[key], depth, false)
      {
        assert KeyOk(doc, schema, key, inst.fields[key], depth, true);
      }
    }
  }

  lemma {:induction false} LaxType(doc: Doc, schema: Json, inst: Json, depth: nat)
    requires depth > 0 && TypeOk(doc, schema, inst, depth, true)
    ensures TypeOk(doc, schema, inst, depth, false)
  {
    hide OneOfFree, CheckType;
    forall t | CheckType(doc, schema, t, inst, depth, true)
      ensures CheckType(doc, schema, t, inst, depth, false)
    {
      LaxCheck(doc, schema, t, inst, depth);
    }
  }

  lemma {:induction false} LaxComposed(doc: Doc, schema: Json, inst: Json, depth: nat)
    requires depth > 0 && ComposedOk(doc, schema, inst, depth, true)
    ensures ComposedOk(doc, schema, inst, depth, false)
  {
    hide SchemaOk, DenyUndeclared, Hits;
    if inst.Obj? && DenyUndeclared(doc, schema, inst.fields, depth, true) {
      LaxDeny(doc, schema, inst.fields, depth);
    }
  }

  lemma {:induction false} LaxDeny(doc: Doc, schema: Json, fields: map<string, Json>, depth: nat)
    requires depth > 0 && DenyUndeclared(doc, schema, fields, depth, true)
    ensures DenyUndeclared(doc, schema, fields, depth, false)
  {}

  /** Strictness only refuses more. */
  lemma {:induction false} StrictImpliesLax(doc: Doc, schema: Json, inst: Json, depth: nat)
    requires SchemaOk(doc, schema, inst, depth, true)
    ensures SchemaOk(doc, schema, inst, depth, false)
    decreases depth
  {
    hide ComposedOk, TypeOk, DenyUndeclared;
    if RefOf(schema).Some? {
      if |schema.fields| <= 1 {
        StrictImpliesLax(doc, doc[RefOf(schema).value], inst, depth - 1);
      } else if inst.Obj? {
        LaxDeny(doc, schema, inst.fields, depth);
      }
    } else if NullVerdict(schema, inst).None? {
      LaxComposed(doc, schema, inst, depth);
      if !Has(schema, "allOf") {
        LaxType(doc, schema, inst, depth);
      }
    }
  }

  function Values(fields: map<string, Json>): set<Json> { set key | key in fields :: fields[key] }

  function Parts(schema: Json, key: string): (subs: set<Json>)
    ensures forall sub :: sub in subs ==> sub < schema
  {
    match Get(schema, key)
    case Some(Arr(items)) => set i | 0 <= i < |items| :: items[i]
    case _ => {}
  }

  /** The schemas that stand directly in a schema; `enum` and `const` hold values, whatever they look like. */
  function Subschemas(schema: Json): (subs: set<Json>)
    ensures forall sub :: sub in subs ==> sub < schema
  {
    Parts(schema, "allOf") + Parts(schema, "anyOf") + Parts(schema, "oneOf") + Values(GetObject(schema, "properties"))
    + (if Has(schema, "items") then {Get(schema, "items").value} else {})
    + (if Has(schema, "additionalProperties") then {Get(schema, "additionalProperties").value} else {})
  }

  lemma {:induction false} PartsAreSubschemas(schema: Json, key: string, i: nat)
    requires key == "allOf" || key == "anyOf" || key == "oneOf"
    requires GetArray(schema, key).Some? && i < |GetArray(schema, key).value|
    ensures GetArray(schema, key).value[i] in Subschemas(schema)
  {
    assert GetArray(schema, key).value[i] in Parts(schema, key);
  }

  lemma {:induction false} PropertiesAreSubschemas(schema: Json, key: string)
    requires key in GetObject(schema, "properties")
    ensures GetObject(schema, "properties")[key] in Subschemas(schema)
  {
    assert GetObject(schema, "properties")[key] in Values(GetObject(schema, "properties"));
  }

  /** Beside a reference stand the same schemas. */
  lemma {:induction false} SameBesideRef(schema: Json)
    requires schema.Obj?
    ensures Subschemas(Obj(schema.fields - {"$ref"})) == Subschemas(schema)
    ensures GetArray(Obj(schema.fields - {"$ref"}), "oneOf") == GetArray(schema, "oneOf")
    ensures Get(Obj(schema.fields - {"$ref"}), "additionalProperties") == Get(schema, "additionalProperties")
  {
    var rest := Obj(schema.fields - {"$ref"});
    GetBesideRef(schema, "allOf");
    GetBesideRef(schema, "anyOf");
    GetBesideRef(schema, "oneOf");
    GetBesideRef(schema, "properties");
    GetBesideRef(schema, "items");
    GetBesideRef(schema, "additionalProperties");
    hide Get, Values;
    assert Parts(rest, "allOf") == Parts(schema, "allOf") && Parts(rest, "anyOf") == Parts(schema, "anyOf");
    assert Parts(rest, "oneOf") == Parts(schema, "oneOf")
           && GetObject(rest, "properties") == GetObject(schema, "properties");
    hide Parts, GetObject;
  }

  lemma {:induction false} GetBesideRef(schema: Json, key: string)
    requires schema.Obj? && key != "$ref"
    ensures Get(Obj(schema.fields - {"$ref"}), key) == Get(schema, key)
  {}

  /** Neither the schema nor one inside it counts acceptances. */
  ghost predicate OneOfFree(schema: Json) {
    && (GetArray(schema, "oneOf").None? || GetArray(schema, "oneOf").value == [])
    && forall sub :: sub in Subschemas(schema) ==> OneOfFree(sub)
  }

  ghost predicate OneOfFreeDoc(doc: Doc) { forall rel :: rel in doc ==> OneOfFree(doc[rel]) }

  lemma {:induction false} FreeBesideRef(schema: Json)
    requires schema.Obj? && OneOfFree(schema)
    ensures OneOfFree(Obj(schema.fields - {"$ref"}))
  {
    hide Subschemas;
    SameBesideRef(schema);
  }

  lemma {:induction false} SubschemaIsFree(schema: Json, sub: Json)
    requires OneOfFree(schema) && sub in Subschemas(schema)
    ensures OneOfFree(sub)
  {}

  lemma {:induction false} NamesGrow(doc: Doc, schema: Json, depth: nat)
    ensures Names(doc, schema, depth) <= Names(doc, schema, depth + 1)
    decreases depth, 0, 0
  {
    if depth > 0 {
      if RefOf(schema).Some? && RefOf(schema).value in doc {
        NamesGrow(doc, doc[RefOf(schema).value], depth - 1);
      }
      if GetArray(schema, "allOf").Some? {
        NamesOfAllGrow(doc, GetArray(schema, "allOf").value, depth - 1);
      }
    }
  }

  lemma {:induction false} NamesOfAllGrow(doc: Doc, subs: seq<Json>, depth: nat)
    ensures NamesOfAll(doc, subs, depth) <= NamesOfAll(doc, subs, depth + 1)
    decreases depth, 1, |subs|
  {
    if subs != [] {
      hide Names;
      NamesGrow(doc, subs[0], depth);
      NamesOfAllGrow(doc, subs[1..], depth);
    }
  }

  lemma {:induction false} AllowsAdditionalGrows(doc: Doc, schema: Json, depth: nat)
    requires AllowsAdditional(doc, schema, depth)
    ensures AllowsAdditional(doc, schema, depth + 1)
    decreases depth
  {
    if RefOf(schema).Some? && RefOf(schema).value in doc && AllowsAdditional(doc, doc[RefOf(schema).value], depth - 1) {
      AllowsAdditionalGrows(doc, doc[RefOf(schema).value], depth - 1);
    } else if Get(schema, "additionalProperties") != Some(Bool(true)) {
      var all := GetArray(schema, "allOf").value;
      var i :| 0 <= i < |all| && AllowsAdditional(doc, all[i], depth - 1);
      AllowsAdditionalGrows(doc, all[i], depth - 1);
    }
  }

  /** A larger budget only accepts more, as long as no `oneOf` counts acceptances. */
  lemma {:induction false} BudgetGrows(doc: Doc, schema: Json, inst: Json, depth: nat, strict: bool)
    requires OneOfFreeDoc(doc) && OneOfFree(schema) && SchemaOk(doc, schema, inst, depth, strict)
    ensures SchemaOk(doc, schema, inst, depth + 1, strict)
    decreases depth, 4
  {
    hide ComposedOk, TypeOk, DenyUndeclared, OneOfFree, NullVerdict;
    if RefOf(schema).None? {
      if NullVerdict(schema, inst).None? {
        ComposedGrows(doc, schema, inst, depth, strict);
        TypeGrows(doc, schema, inst, depth, strict && !Has(schema, "allOf"));
      }
    } else if |schema.fields| <= 1 {
      BudgetGrows(doc, doc[RefOf(schema).value], inst, depth - 1, strict);
    } else {
      BudgetGrows(doc, doc[RefOf(schema).value], inst, depth - 1, false);
      FreeBesideRef(schema);
      BudgetGrows(doc, Obj(schema.fields - {"$ref"}), inst, depth - 1, false);
      if inst.Obj? {
        DenyGrows(doc, schema, inst.fields, depth, strict);
      }
    }
  }

  lemma {:induction false} ComposedGrows(doc: Doc, schema: Json, inst: Json, depth: nat, strict: bool)
    requires depth > 0 && OneOfFreeDoc(doc) && OneOfFree(schema) && ComposedOk(doc, schema, inst, depth, strict)
    ensures ComposedOk(doc, schema, inst, depth + 1, strict)
    decreases depth, 3
  {
    hide AllOfOk, AnyOfOk, Hits, OneOfFree;
    NothingCounts(schema);
    AllOfGrows(doc, schema, inst, depth, strict);
    AnyOfGrows(doc, schema, inst, depth);
  }

  lemma {:induction false} AllOfGrows(doc: Doc, schema: Json, inst: Json, depth: nat, strict: bool)
    requires depth > 0 && OneOfFreeDoc(doc) && OneOfFree(schema) && AllOfOk(doc, schema, inst, depth, strict)
    ensures AllOfOk(doc, schema, inst, depth + 1, strict)
    decreases depth, 2
  {
    hide SchemaOk, DenyUndeclared, OneOfFree;
    if GetArray(schema, "allOf").Some? {
      var all := GetArray(schema, "allOf").value;
      forall i | 0 <= i < |all| ensures SchemaOk(doc, all[i], inst, depth, false) {
        PartGrows(doc, schema, "allOf", i, inst, depth);
      }
      if inst.Obj? {
        DenyGrows(doc, schema, inst.fields, depth, strict);
      }
    }
  }

  lemma {:induction false} AnyOfGrows(doc: Doc, schema: Json, inst: Json, depth: nat)
    requires depth > 0 && OneOfFreeDoc(doc) && OneOfFree(schema) && AnyOfOk(doc, schema, inst, depth)
    ensures AnyOfOk(doc, schema, inst, depth + 1)
    decreases depth, 2
  {
    hide SchemaOk, OneOfFree;
    if GetArray(schema, "anyOf").Some? && GetArray(schema, "anyOf").value != [] {
      var any := GetArray(schema, "anyOf").value;
      var i :| 0 <= i < |any| && SchemaOk(doc, any[i], inst, depth - 1, false);
      PartGrows(doc, schema, "anyOf", i, inst, depth);
    }
  }

  lemma {:induction false} NothingCounts(schema: Json)
    requires OneOfFree(schema)
    ensures GetArray(schema, "oneOf").None? || GetArray(schema, "oneOf").value == []
  {}

  lemma {:induction false} PartGrows(doc: Doc, schema: Json, key: string, i: nat, inst: Json, depth: nat)
    requires key == "allOf" || key == "anyOf"
    requires depth > 0 && OneOfFreeDoc(doc) && OneOfFree(schema) && GetArray(schema, key).Some?
             && i < |GetArray(schema, key).value|
    requires SchemaOk(doc, GetArray(schema, key).value[i], inst, depth - 1, false)
    ensures SchemaOk(doc, GetArray(schema, key).value[i], inst, depth, false)
    decreases depth, 0
  {
    hide SchemaOk, OneOfFree, Subschemas;
    PartsAreSubschemas(schema, key, i);
    SubschemaIsFree(schema, GetArray(schema, key).value[i]);
    BudgetGrows(doc, GetArray(schema, key).value[i], inst, depth - 1, false);
  }

  lemma {:induction false} DenyGrows(doc: Doc, schema: Json, fields: map<string, Json>, depth: nat, strict: bool)
    requires depth > 0 && OneOfFreeDoc(doc) && OneOfFree(schema) && DenyUndeclared(doc, schema, fields, depth, strict)
    ensures DenyUndeclared(doc, schema, fields, depth + 1, strict)
    decreases depth, 1
  {
    hide OneOfFree, SchemaOk, Names, AllowsAdditional;
    if AllowsAdditional(doc, schema, depth) {
      AllowsAdditionalGrows(doc, schema, depth);
    } else {
      NamesGrow(doc, schema, depth);
      forall key | key in fields && AdditionalOk(doc, schema, fields[key], depth)
        ensures AdditionalOk(doc, schema, fields[key], depth + 1)
      {
        SubGrows(doc, schema, "additionalProperties", fields[key], depth);
      }
    }
  }

  lemma {:induction false} SubGrows(doc: Doc, schema: Json, key: string, value: Json, depth: nat)
    requires depth > 0 && OneOfFreeDoc(doc) && OneOfFree(schema) && (key == "items" || key == "additionalProperties")
    ensures Has(schema, key) && SchemaOk(doc, Get(schema, key).value, value, depth - 1, true) ==>
              SchemaOk(doc, Get(schema, key).value, value, depth, true)
    decreases depth, 0
  {
    hide SchemaOk;
    if Has(schema, key) && SchemaOk(doc, Get(schema, key).value, value, depth - 1, true) {
      SubschemaIsFree(schema, Get(schema, key).value);
      BudgetGrows(doc, Get(schema, key).value, value, depth - 1, true);
    }
  }

  lemma {:induction false} TypeGrows(doc: Doc, schema: Json, inst: Json, depth: nat, strict: bool)
    requires depth > 0 && OneOfFreeDoc(doc) && OneOfFree(schema) && TypeOk(doc, schema, inst, depth, strict)
    ensures TypeOk(doc, schema, inst, depth + 1, strict)
    decreases depth, 3
  {
    hide OneOfFree, CheckType;
    forall t | CheckType(doc, schema, t, inst, depth, strict)
      ensures CheckType(doc, schema, t, inst, depth + 1, strict)
    {
      CheckGrows(doc, schema, t, inst, depth, strict);
    }
  }

  lemma {:induction false} CheckGrows(doc: Doc, schema: Json, t: string, inst: Json, depth: nat, strict: bool)
    requires depth > 0 && OneOfFreeDoc(doc) && OneOfFree(schema) && CheckType(doc, schema, t, inst, depth, strict)
    ensures CheckType(doc, schema, t, inst, depth + 1, strict)
    decreases depth, 2
  {
    hide OneOfFree, SchemaOk, KeyOk;
    if t == "array" && Has(schema, "items") {
      forall i | 0 <= i < |inst.items|
        ensures SchemaOk(doc, Get(schema, "items").value, inst.items[i], depth, true)
      {
        SubGrows(doc, schema, "items", inst.items[i], depth);
      }
    } else if t == "object" {
      forall key | key in inst.fields
        ensures KeyOk(doc, schema, key, inst.fields[key], depth + 1, strict)
      {
        KeyGrows(doc, schema, key, inst.fields[key], depth, strict);
      }
    }
  }

  lemma {:induction false} KeyGrows(doc: Doc, schema: Json, key: string, value: Json, depth: nat, strict: bool)
    requires depth > 0 && OneOfFreeDoc(doc) && OneOfFree(schema) && KeyOk(doc, schema, key, value, depth, strict)
    ensures KeyOk(doc, schema, key, value, depth + 1, strict)
    decreases depth, 1
  {
    hide SchemaOk, OneOfFree, Subschemas;
    var properties := GetObject(schema, "properties");
    if key in properties {
      PropertiesAreSubschemas(schema, key);
      SubschemaIsFree(schema, properties[key]);
      BudgetGrows(doc, properties[key], value, depth - 1, true);
    } else {
      SubGrows(doc, schema, "additionalProperties", value, depth);
    }
  }

  lemma {:induction false} LargerBudgetAcceptsMore(doc: Doc, schema: Json, inst: Json, depth: nat, larger: nat,
                                                   strict: bool)
    requires OneOfFreeDoc(doc) && OneOfFree(schema) && SchemaOk(doc, schema, inst, depth, strict) && depth <= larger
    ensures SchemaOk(doc, schema, inst, larger, strict)
    decreases larger
  {
    hide SchemaOk, OneOfFree;
    if depth < larger {
      LargerBudgetAcceptsMore(doc, schema, inst, depth, larger - 1, strict);
      BudgetGrows(doc, schema, inst, larger - 1, strict);
    }
  }

  lemma {:induction false} OneOfCounts(doc: Doc, a: Json, b: Json, depth: nat)
    requires depth > 0
    ensures SchemaOk(doc, Obj(map["oneOf" := Arr([a, b])]), Bool(true), depth, true) <==>
            SchemaOk(doc, a, Bool(true), depth - 1, false) != SchemaOk(doc, b, Bool(true), depth - 1, false)
  {
    var schema := Obj(map["oneOf" := Arr([a, b])]);
    assert Get(schema, "oneOf") == Some(Arr([a, b]));
    assert AllOfOk(doc, schema, Bool(true), depth, true) && AnyOfOk(doc, schema, Bool(true), depth);
    assert SchemaOk(doc, schema, Bool(true), depth, true) == (Hits(doc, [a, b], Bool(true), depth - 1) == 1);
    hide SchemaOk;
    assert [a, b][1..] == [b] && [b][1..] == [];
    assert Hits(doc, [b], Bool(true), depth - 1) == if SchemaOk(doc, b, Bool(true), depth - 1, false) then 1 else 0;
  }

  lemma {:induction false} EmptySchemaAccepts(doc: Doc, inst: Json, depth: nat)
    requires !inst.Null?
    ensures SchemaOk(doc, Obj(map[]), inst, depth, false) <==> depth >= 1
  {
    if depth >= 1 {
      assert AllOfOk(doc, Obj(map[]), inst, depth, false) && AnyOfOk(doc, Obj(map[]), inst, depth);
      assert ComposedOk(doc, Obj(map[]), inst, depth, false);
    }
  }

  lemma {:induction false} RefCostsOne(doc: Doc, inst: Json, depth: nat)
    requires !inst.Null? && doc == map["#/r" := Obj(map[])]
    ensures SchemaOk(doc, Obj(map["$ref" := Str("#/r")]), inst, depth, false) <==> depth >= 2
  {
    var viaRef := Obj(map["$ref" := Str("#/r")]);
    assert RefOf(viaRef) == Some("#/r") && |viaRef.fields| == 1;
    if depth > 0 {
      assert SchemaOk(doc, viaRef, inst, depth, false) == SchemaOk(doc, Obj(map[]), inst, depth - 1, false);
      hide SchemaOk;
      EmptySchemaAccepts(doc, inst, depth - 1);
    }
  }

  /** With `oneOf` an instance can be accepted within a budget and refused within a larger one. */
  lemma {:induction false} OneOfIsNotMonotone() returns (doc: Doc, schema: Json, inst: Json)
    ensures SchemaOk(doc, schema, inst, 2, true) && !SchemaOk(doc, schema, inst, 3, true)
  {
    hide SchemaOk;
    var empty, viaRef := Obj(map[]), Obj(map["$ref" := Str("#/r")]);
    doc, schema, inst := map["#/r" := empty], Obj(map["oneOf" := Arr([empty, viaRef])]), Bool(true);
    EmptySchemaAccepts(doc, inst, 1);
    EmptySchemaAccepts(doc, inst, 2);
    RefCostsOne(doc, inst, 1);
    RefCostsOne(doc, inst, 2);
    OneOfCounts(doc, empty, viaRef, 2);
    OneOfCounts(doc, empty, viaRef, 3);
  }

  // ----- the closed world ---------------------------------------------------------------------

  /** One call of the validator. */
  datatype Check = Check(schema: Json, inst: Json, depth: nat, strict: bool)

  ghost predicate Accepts(doc: Doc, c: Check) { SchemaOk(doc, c.schema, c.inst, c.depth, c.strict) }

  predicate IsTypeName(t: string) {
    t == "null" || t == "boolean" || t == "string" || t == "integer" || t == "number" || t == "array" || t == "object"
  }

  /** The type of the schema makes the validator look into an instance of type `t`, an object or an array. */
  ghost predicate LooksInto(schema: Json, t: string) {
    match Get(schema, "type")
    case Some(Str(name)) => name == t
    case Some(Arr(types)) => forall i :: 0 <= i < |types| && types[i].Str? ==> IsTypeName(types[i].s)
    case None =>
      var objectKeys := Has(schema, "properties") || Has(schema, "additionalProperties") || Has(schema, "required");
      if t == "object" then objectKeys else !objectKeys && Has(schema, "items")
    case _ => false
  }

  /** `b` is a check that `a` cannot succeed without. */
  ghost predicate Step(doc: Doc, a: Check, b: Check) {
    && a.depth == b.depth + 1
    && if RefOf(a.schema).Some? then
         && RefOf(a.schema).value in doc && b.inst == a.inst
         && if |a.schema.fields| > 1 then
              !b.strict && (b.schema == doc[RefOf(a.schema).value] || b.schema == Obj(a.schema.fields - {"$ref"}))
            else b.schema == doc[RefOf(a.schema).value] && b.strict == a.strict
       else
         && NullVerdict(a.schema, a.inst).None?
         && (|| (GetArray(a.schema, "allOf").Some? && b.schema in GetArray(a.schema, "allOf").value && b.inst == a.inst
                 && !b.strict)
             || (b.strict && a.inst.Obj? && LooksInto(a.schema, "object") && exists key :: IsMember(a, b, key))
             || (b.strict && a.inst.Arr? && LooksInto(a.schema, "array") && b.inst in a.inst.items
                 && Get(a.schema, "items") == Some(b.schema)))
  }

  ghost predicate IsMember(a: Check, b: Check, key: string) {
    && a.inst.Obj? && key in a.inst.fields && b.inst == a.inst.fields[key]
    && var properties := GetObject(a.schema, "properties");
       if key in properties then b.schema == properties[key]
       else Get(a.schema, "additionalProperties") == Some(b.schema) && !b.schema.Bool?
  }

  lemma {:induction false} LooksIntoMeansChecked(doc: Doc, schema: Json, inst: Json, t: string, depth: nat,
                                                 strict: bool)
    requires depth > 0 && TypeOk(doc, schema, inst, depth, strict) && LooksInto(schema, t)
    requires (t == "object" && inst.Obj?) || (t == "array" && inst.Arr?)
    ensures CheckType(doc, schema, t, inst, depth, strict)
  {
    hide SchemaOk, KeyOk;
    if Get(schema, "type").Some? && Get(schema, "type").value.Arr? {
      var types := Get(schema, "type").value.items;
      var i :| 0 <= i < |types| && types[i].Str? && CheckType(doc, schema, types[i].s, inst, depth, strict);
      assert types[i].s == t;
    }
  }

  lemma {:induction false} StepKeepsAcceptance(doc: Doc, a: Check, b: Check)
    requires Step(doc, a, b) && Accepts(doc, a)
    ensures Accepts(doc, b)
  {
    hide ComposedOk, TypeOk, DenyUndeclared;
    if RefOf(a.schema).None? {
      StepWithoutRef(doc, a, b);
    }
  }

  lemma {:induction false} StepWithoutRef(doc: Doc, a: Check, b: Check)
    requires Step(doc, a, b) && RefOf(a.schema).None?
    requires ComposedOk(doc, a.schema, a.inst, a.depth, a.strict)
    requires TypeOk(doc, a.schema, a.inst, a.depth, a.strict && !Has(a.schema, "allOf"))
    ensures Accepts(doc, b)
  {
    hide SchemaOk, TypeOk, DenyUndeclared, Hits, LooksInto;
    var strict := a.strict && !Has(a.schema, "allOf");
    if b.strict && a.inst.Obj? && LooksInto(a.schema, "object") && exists key :: IsMember(a, b, key) {
      LooksIntoMeansChecked(doc, a.schema, a.inst, "object", a.depth, strict);
      var key :| IsMember(a, b, key);
      assert KeyOk(doc, a.schema, key, a.inst.fields[key], a.depth, strict);
    } else if b.strict && a.inst.Arr? && LooksInto(a.schema, "array") && b.inst in a.inst.items {
      LooksIntoMeansChecked(doc, a.schema, a.inst, "array", a.depth, strict);
    }
  }

  /** The schema describes objects: by its type, by a composition, or through a `$ref`. */
  ghost predicate DescribesObject(doc: Doc, schema: Json, depth: nat)
    decreases depth
  {
    && depth > 0
    && if RefOf(schema).Some? then
         || |schema.fields| > 1
         || (RefOf(schema).value in doc && DescribesObject(doc, doc[RefOf(schema).value], depth - 1))
       else GetArray(schema, "allOf").Some? || (!Has(schema, "allOf") && LooksInto(schema, "object"))
  }

  /** A value under an undeclared key, admitted by the schema given for additional properties. */
  ghost predicate AdmittedAsAdditional(doc: Doc, schema: Json, value: Json, depth: nat)
    decreases depth
  {
    && depth > 0
    && (|| (match Get(schema, "additionalProperties")
            case Some(Bool(_)) => false
            case Some(sub) => SchemaOk(doc, sub, value, depth - 1, true)
            case None => false)
        || (RefOf(schema).Some? && RefOf(schema).value in doc
            && AdmittedAsAdditional(doc, doc[RefOf(schema).value], value, depth - 1)))
  }

  /** A key is declared, or the schema says explicitly what may stand under other keys. */
  ghost predicate Covered(doc: Doc, schema: Json, key: string, value: Json, depth: nat) {
    || key in Names(doc, schema, depth) || AllowsAdditional(doc, schema, depth)
    || AdmittedAsAdditional(doc, schema, value, depth)
  }

  /** A strict acceptance covers every key of an object that the schema describes. */
  lemma {:induction false} StrictCoversEveryKey(doc: Doc, schema: Json, inst: Json, depth: nat, key: string)
    requires SchemaOk(doc, schema, inst, depth, true) && DescribesObject(doc, schema, depth)
    requires inst.Obj? && key in inst.fields
    ensures Covered(doc, schema, key, inst.fields[key], depth)
    decreases depth
  {
    hide ComposedOk, TypeOk;
    if RefOf(schema).Some? && |schema.fields| <= 1 {
      StrictCoversEveryKey(doc, doc[RefOf(schema).value], inst, depth - 1, key);
    } else if RefOf(schema).Some? {
      DeniedUnlessCovered(doc, schema, inst.fields, depth, key);
    } else {
      CoveredWithoutRef(doc, schema, inst, depth, key);
    }
  }

  lemma {:induction false} DeniedUnlessCovered(doc: Doc, schema: Json, fields: map<string, Json>, depth: nat,
                                               key: string)
    requires depth > 0 && DenyUndeclared(doc, schema, fields, depth, true) && key in fields
    ensures Covered(doc, schema, key, fields[key], depth)
  {
    hide Names, SchemaOk;
  }

  lemma {:induction false} CoveredWithoutRef(doc: Doc, schema: Json, inst: Json, depth: nat, key: string)
    requires depth > 0 && RefOf(schema).None? && DescribesObject(doc, schema, depth) && inst.Obj? && key in inst.fields
    requires ComposedOk(doc, schema, inst, depth, true) && TypeOk(doc, schema, inst, depth, !Has(schema, "allOf"))
    ensures Covered(doc, schema, key, inst.fields[key], depth)
  {
    hide SchemaOk, TypeOk, DenyUndeclared, Hits, LooksInto;
    if GetArray(schema, "allOf").Some? {
      DeniedUnlessCovered(doc, schema, inst.fields, depth, key);
    } else {
      LooksIntoMeansChecked(doc, schema, inst, "object", depth, true);
      assert KeyOk(doc, schema, key, inst.fields[key], depth, true);
    }
  }

  ghost predicate IsRun(doc: Doc, run: seq<Check>) {
    run != [] && forall i :: 0 < i < |run| ==> Step(doc, run[i - 1], run[i])
  }

  /**
   * The closed world, at every depth: follow any chain of the checks that an accepted one rests on,
   * down properties, array items, references and compositions. Each is accepted, and at each strict
   * check of an object that its schema describes every key is covered.
   */
  lemma {:induction false} ClosedWorld(doc: Doc, run: seq<Check>)
    requires IsRun(doc, run) && Accepts(doc, run[0])
    ensures forall i :: 0 <= i < |run| ==> Accepts(doc, run[i])
    ensures forall i, key :: 0 <= i < |run| && run[i].strict && run[i].inst.Obj? && key in run[i].inst.fields &&
                             DescribesObject(doc, run[i].schema, run[i].depth) ==>
                               Covered(doc, run[i].schema, key, run[i].inst.fields[key], run[i].depth)
  {
    hide SchemaOk, Step, Covered, DescribesObject;
    var n := 0;
    while n < |run| - 1
      invariant 0 <= n < |run| && forall i :: 0 <= i <= n ==> Accepts(doc, run[i])
    {
      assert Step(doc, run[n + 1 - 1], run[n + 1]);
      StepKeepsAcceptance(doc, run[n], run[n + 1]);
      n := n + 1;
    }
    forall i, key | 0 <= i < |run| && run[i].strict && run[i].inst.Obj? && key in run[i].inst.fields &&
                    DescribesObject(doc, run[i].schema, run[i].depth)
      ensures Covered(doc, run[i].schema, key, run[i].inst.fields[key], run[i].depth)
    {
      assert Accepts(doc, run[i]);
      StrictCoversEveryKey(doc, run[i].schema, run[i].inst, run[i].depth, key);
    }
  }

  /** Neither the schema nor one inside it admits additional properties: it says nothing of them, or forbids them. */
  ghost predicate NoAdditional(schema: Json) {
    && (Has(schema, "additionalProperties") ==> Get(schema, "additionalProperties") == Some(Bool(false)))
    && forall sub :: sub in Subschemas(schema) ==> NoAdditional(sub)
  }

  ghost predicate NoAdditionalDoc(doc: Doc) { forall rel :: rel in doc ==> NoAdditional(doc[rel]) }

  lemma {:induction false} SubschemaHasNoAdditional(schema: Json, sub: Json)
    requires NoAdditional(schema) && sub in Subschemas(schema)
    ensures NoAdditional(sub)
  {}

  /** In documents without such exceptions, to be covered is to be declared. */
  lemma {:induction false} CoveredMeansDeclared(doc: Doc, schema: Json, key: string, value: Json, depth: nat)
    requires NoAdditional(schema) && NoAdditionalDoc(doc)
    ensures Covered(doc, schema, key, value, depth) <==> key in Names(doc, schema, depth)
  {
    hide NoAdditional, Names;
    NothingAllowed(doc, schema, value, depth);
  }

  lemma {:induction false} NothingAllowed(doc: Doc, schema: Json, value: Json, depth: nat)
    requires NoAdditional(schema) && NoAdditionalDoc(doc)
    ensures !AllowsAdditional(doc, schema, depth) && !AdmittedAsAdditional(doc, schema, value, depth)
    decreases depth
  {
    hide Subschemas, SchemaOk, NoAdditional;
    if depth > 0 {
      NoAdditionalHere(schema);
      if RefOf(schema).Some? && RefOf(schema).value in doc {
        NothingAllowed(doc, doc[RefOf(schema).value], value, depth - 1);
      }
      if GetArray(schema, "allOf").Some? {
        forall i | 0 <= i < |GetArray(schema, "allOf").value|
          ensures !AllowsAdditional(doc, GetArray(schema, "allOf").value[i], depth - 1)
        {
          PartsAreSubschemas(schema, "allOf", i);
          SubschemaHasNoAdditional(schema, GetArray(schema, "allOf").value[i]);
          NothingAllowed(doc, GetArray(schema, "allOf").value[i], value, depth - 1);
        }
      }
    }
  }

  lemma {:induction false} NoAdditionalHere(schema: Json)
    requires NoAdditional(schema)
    ensures Get(schema, "additionalProperties") == None || Get(schema, "additionalProperties") == Some(Bool(false))
  {}

  /** Every check that a step leads to is against a schema of the same kind. */
  lemma {:induction false} StepKeepsNoAdditional(doc: Doc, a: Check, b: Check)
    requires Step(doc, a, b) && NoAdditional(a.schema) && NoAdditionalDoc(doc)
    ensures NoAdditional(b.schema)
  {
    hide Subschemas, LooksInto, NullVerdict;
    if RefOf(a.schema).Some? {
      SameBesideRef(a.schema);
    } else if GetArray(a.schema, "allOf").Some? && b.schema in GetArray(a.schema, "allOf").value {
      var i :| 0 <= i < |GetArray(a.schema, "allOf").value| && b.schema == GetArray(a.schema, "allOf").value[i];
      PartsAreSubschemas(a.schema, "allOf", i);
    } else if b.inst in (if a.inst.Arr? then a.inst.items else []) && Get(a.schema, "items") == Some(b.schema) {
      ItemsAreSubschemas(a.schema);
    } else {
      var key :| IsMember(a, b, key);
      assert key in GetObject(a.schema, "properties");
      PropertiesAreSubschemas(a.schema, key);
    }
  }

  lemma {:induction false} ItemsAreSubschemas(schema: Json)
    requires Has(schema, "items")
    ensures Get(schema, "items").value in Subschemas(schema)
  {}

  /**
   * The closed world: where no schema of the document admits additional properties, everything that an
   * accepted instance holds, at every depth, under a schema that describes objects, is declared there.
   */
  lemma {:induction false} OnlyDeclaredKeys(doc: Doc, run: seq<Check>)
    requires IsRun(doc, run) && Accepts(doc, run[0]) && NoAdditional(run[0].schema) && NoAdditionalDoc(doc)
    ensures forall i, key :: 0 <= i < |run| && run[i].strict && run[i].inst.Obj? && key in run[i].inst.fields &&
                             DescribesObject(doc, run[i].schema, run[i].depth) ==>
                               key in Names(doc, run[i].schema, run[i].depth)
  {
    hide SchemaOk, Step, Covered, DescribesObject, NoAdditional, Names;
    ClosedWorld(doc, run);
    var n := 0;
    while n < |run| - 1
      invariant 0 <= n < |run| && forall i :: 0 <= i <= n ==> NoAdditional(run[i].schema)
    {
      assert Step(doc, run[n + 1 - 1], run[n + 1]);
      StepKeepsNoAdditional(doc, run[n], run[n + 1]);
      n := n + 1;
    }
    forall i, key | 0 <= i < |run| && run[i].strict && run[i].inst.Obj? && key in run[i].inst.fields &&
                    DescribesObject(doc, run[i].schema, run[i].depth)
      ensures key in Names(doc, run[i].schema, run[i].depth)
    {
      assert Covered(doc, run[i].schema, key, run[i].inst.fields[key], run[i].depth);
      CoveredMeansDeclared(doc, run[i].schema, key, run[i].inst.fields[key], run[i].depth);
    }
  }
}
