/**
 * What the validator of `Openapi` accepts, keyword by keyword: kinds of values, `required`, `properties`, `items`,
 * `const`, `enum`, `allOf`, `anyOf`, `oneOf` and null, for single schemas and at every depth of an accepted instance.
 */
module OpenapiLaws {
  import opened Wrappers
  import opened Openapi

  ghost predicate OfKind(inst: Json, t: string) {
    match t
    case "null" => inst.Null?
    case "boolean" => inst.Bool?
    case "string" => inst.Str?
    case "integer" => inst.Num? && inst.number.Integer?
    case "number" => inst.Num?
    case "array" => inst.Arr?
    case "object" => inst.Obj?
    case _ => true
  }

  ghost predicate OfSomeKind(inst: Json, types: seq<Json>) {
    exists i :: 0 <= i < |types| && types[i].Str? && OfKind(inst, types[i].s)
  }

  /** Nothing but its own type, properties and items decides about an instance of the schema. */
  ghost predicate Plain(schema: Json) {
    && schema.Obj?
    && forall key :: key in ["$ref", "const", "enum", "nullable", "allOf", "anyOf", "oneOf"] ==> key !in schema.fields
  }

  lemma {:induction false} PlainSchema(doc: Doc, schema: Json, inst: Json, depth: nat, strict: bool)
    requires depth > 0 && Plain(schema) && Get(schema, "type").Some? && Get(schema, "type").value.Str?
    ensures var t := Get(schema, "type").value.s;
            SchemaOk(doc, schema, inst, depth, strict) <==>
              if inst.Null? then t == "null" else CheckType(doc, schema, t, inst, depth, strict)
  {
    hide CheckType, DenyUndeclared, Hits;
    var t := Get(schema, "type").value.s;
    assert "$ref" !in schema.fields && "const" !in schema.fields && "enum" !in schema.fields;
    assert "nullable" !in schema.fields && "allOf" !in schema.fields && "anyOf" !in schema.fields;
    assert "oneOf" !in schema.fields;
    assert TypeNames(schema) == {t};
    assert AllOfOk(doc, schema, inst, depth, strict) && AnyOfOk(doc, schema, inst, depth);
    assert ComposedOk(doc, schema, inst, depth, strict);
    assert TypeOk(doc, schema, inst, depth, strict) == CheckType(doc, schema, t, inst, depth, strict);
  }

  /** A schema that only names a type accepts exactly the values of that kind; a strict object must then be empty. */
  lemma {:induction false} TypeMeansKind(doc: Doc, t: string, inst: Json, depth: nat, strict: bool)
    requires depth > 0
    ensures SchemaOk(doc, Obj(map["type" := Str(t)]), inst, depth, strict) <==>
              && OfKind(inst, t) && (inst.Null? ==> t == "null")
              && (t == "object" && strict ==> inst.fields == map[])
  {
    var schema := Obj(map["type" := Str(t)]);
    PlainSchema(doc, schema, inst, depth, strict);
    hide SchemaOk;
    if !inst.Null? && t == "object" && inst.Obj? {
      assert forall key :: key in inst.fields ==> KeyOk(doc, schema, key, inst.fields[key], depth, strict) == !strict;
      if inst.fields != map[] {
        var key :| key in inst.fields;
        assert KeyOk(doc, schema, key, inst.fields[key], depth, strict) == !strict;
      }
    }
  }

  /** An object schema accepts exactly the objects that have the required keys and whose keys it accepts one by one. */
  lemma {:induction false} ObjectExactly(doc: Doc, schema: Json, inst: Json, depth: nat, strict: bool)
    requires depth > 0 && Plain(schema) && Get(schema, "type") == Some(Str("object"))
    ensures SchemaOk(doc, schema, inst, depth, strict) <==>
              && inst.Obj?
              && (GetArray(schema, "required").Some? ==>
                    forall name :: Str(name) in GetArray(schema, "required").value ==> name in inst.fields)
              && forall key :: key in inst.fields ==>
                   var properties, others := GetObject(schema, "properties"), Get(schema, "additionalProperties");
                   if key in properties then SchemaOk(doc, properties[key], inst.fields[key], depth - 1, true)
                   else if others.None? then !strict
                   else if others.value.Bool? then others.value.b
                   else SchemaOk(doc, others.value, inst.fields[key], depth - 1, true)
  {
    PlainSchema(doc, schema, inst, depth, strict);
    RequiredKeys(schema, inst);
    hide Plain;
    if inst.Obj? {
      forall key | key in inst.fields
        ensures KeyOk(doc, schema, key, inst.fields[key], depth, strict) ==
                var properties, others := GetObject(schema, "properties"), Get(schema, "additionalProperties");
                if key in properties then SchemaOk(doc, properties[key], inst.fields[key], depth - 1, true)
                else if others.None? then !strict
                else if others.value.Bool? then others.value.b
                else SchemaOk(doc, others.value, inst.fields[key], depth - 1, true)
      {}
    }
    hide SchemaOk, KeyOk;
  }

  lemma {:induction false} RequiredKeys(schema: Json, inst: Json)
    ensures inst.Obj? && GetArray(schema, "required").Some? ==>
              var required := GetArray(schema, "required").value;
              (forall i :: 0 <= i < |required| && required[i].Str? ==> required[i].s in inst.fields) <==>
              (forall name :: Str(name) in required ==> name in inst.fields)
  {
    if inst.Obj? && GetArray(schema, "required").Some? {
      var required := GetArray(schema, "required").value;
      if forall name :: Str(name) in required ==> name in inst.fields {
        forall i | 0 <= i < |required| && required[i].Str? ensures required[i].s in inst.fields {
          assert Str(required[i].s) in required;
        }
      }
    }
  }

  /** An array schema accepts exactly the arrays whose items are all accepted by what is said of items. */
  lemma {:induction false} ArrayExactly(doc: Doc, schema: Json, inst: Json, depth: nat, strict: bool)
    requires depth > 0 && Plain(schema) && Get(schema, "type") == Some(Str("array"))
    ensures SchemaOk(doc, schema, inst, depth, strict) <==>
              && inst.Arr?
              && (Has(schema, "items") ==>
                    forall i :: 0 <= i < |inst.items| ==>
                      SchemaOk(doc, Get(schema, "items").value, inst.items[i], depth - 1, true))
  {
    PlainSchema(doc, schema, inst, depth, strict);
    hide SchemaOk;
  }

  // ----- at every depth of an accepted instance ----------------------------------------------------------------------

  /** What each keyword of a schema promises of an instance that is accepted. */
  ghost predicate Keeps(doc: Doc, schema: Json, inst: Json, depth: nat)
    requires depth > 0
  {
    && (Has(schema, "const") ==> inst == Get(schema, "const").value)
    && (GetArray(schema, "enum").Some? ==> inst in GetArray(schema, "enum").value)
    && (!inst.Null? ==>
          && (Get(schema, "type").Some? && Get(schema, "type").value.Str? ==> OfKind(inst, Get(schema, "type").value.s))
          && (GetArray(schema, "type").Some? ==> OfSomeKind(inst, GetArray(schema, "type").value))
          && (inst.Obj? && LooksInto(schema, "object") && GetArray(schema, "required").Some? ==>
                forall name :: Str(name) in GetArray(schema, "required").value ==> name in inst.fields)
          && (GetArray(schema, "allOf").Some? ==>
                forall sub :: sub in GetArray(schema, "allOf").value ==> SchemaOk(doc, sub, inst, depth - 1, false))
          && (GetArray(schema, "anyOf").Some? && GetArray(schema, "anyOf").value != [] ==>
                exists sub :: sub in GetArray(schema, "anyOf").value && SchemaOk(doc, sub, inst, depth - 1, false))
          && (GetArray(schema, "oneOf").Some? && GetArray(schema, "oneOf").value != [] ==>
                OnlyOne(doc, GetArray(schema, "oneOf").value, inst, depth - 1)))
  }

  ghost predicate IsOnly(doc: Doc, subs: seq<Json>, inst: Json, depth: nat, i: nat) {
    i < |subs| && forall j :: 0 <= j < |subs| ==> (SchemaOk(doc, subs[j], inst, depth, false) <==> j == i)
  }

  ghost predicate OnlyOne(doc: Doc, subs: seq<Json>, inst: Json, depth: nat) {
    exists i: nat :: IsOnly(doc, subs, inst, depth, i)
  }

  lemma {:induction false} NoHits(doc: Doc, subs: seq<Json>, inst: Json, depth: nat)
    ensures Hits(doc, subs, inst, depth) == 0 <==>
              forall j :: 0 <= j < |subs| ==> !SchemaOk(doc, subs[j], inst, depth, false)
    decreases |subs|
  {
    hide SchemaOk;
    if subs != [] {
      NoHits(doc, subs[1..], inst, depth);
      assert forall j :: 0 < j < |subs| ==> subs[j] == subs[1..][j - 1];
    }
  }

  lemma {:induction false} OneHit(doc: Doc, subs: seq<Json>, inst: Json, depth: nat)
    requires Hits(doc, subs, inst, depth) == 1
    ensures OnlyOne(doc, subs, inst, depth)
    decreases |subs|
  {
    hide SchemaOk;
    var tail := subs[1..];
    assert forall j :: 0 <= j < |tail| ==> tail[j] == subs[j + 1];
    if SchemaOk(doc, subs[0], inst, depth, false) {
      NoHits(doc, tail, inst, depth);
      assert IsOnly(doc, subs, inst, depth, 0);
    } else {
      OneHit(doc, tail, inst, depth);
      var i: nat :| IsOnly(doc, tail, inst, depth, i);
      forall j | 0 <= j < |subs| ensures SchemaOk(doc, subs[j], inst, depth, false) <==> j == i + 1 {
        assert j > 0 ==> subs[j] == tail[j - 1];
      }
      assert IsOnly(doc, subs, inst, depth, i + 1);
    }
  }

  lemma {:induction false} AcceptedKeeps(doc: Doc, schema: Json, inst: Json, depth: nat, strict: bool)
    requires SchemaOk(doc, schema, inst, depth, strict) && RefOf(schema).None?
    ensures Keeps(doc, schema, inst, depth)
  {
    hide ComposedOk, TypeOk, OfKind, OfSomeKind, LooksInto, OnlyOne;
    ValueIsKept(doc, schema, inst, depth, strict);
    if !inst.Null? {
      hide SchemaOk;
      ComposedKeeps(doc, schema, inst, depth, strict);
      TypeKeeps(doc, schema, inst, depth, strict && !Has(schema, "allOf"));
    }
  }

  lemma {:induction false} ValueIsKept(doc: Doc, schema: Json, inst: Json, depth: nat, strict: bool)
    requires SchemaOk(doc, schema, inst, depth, strict) && RefOf(schema).None?
    ensures Has(schema, "const") ==> inst == Get(schema, "const").value
    ensures GetArray(schema, "enum").Some? ==> inst in GetArray(schema, "enum").value
    ensures !inst.Null? ==> ComposedOk(doc, schema, inst, depth, strict)
    ensures !inst.Null? ==> TypeOk(doc, schema, inst, depth, strict && !Has(schema, "allOf"))
  {
    hide ComposedOk, TypeOk;
  }

  lemma {:induction false} ComposedKeeps(doc: Doc, schema: Json, inst: Json, depth: nat, strict: bool)
    requires depth > 0 && ComposedOk(doc, schema, inst, depth, strict)
    ensures GetArray(schema, "allOf").Some? ==>
              forall sub :: sub in GetArray(schema, "allOf").value ==> SchemaOk(doc, sub, inst, depth - 1, false)
    ensures GetArray(schema, "anyOf").Some? && GetArray(schema, "anyOf").value != [] ==>
              exists sub :: sub in GetArray(schema, "anyOf").value && SchemaOk(doc, sub, inst, depth - 1, false)
    ensures GetArray(schema, "oneOf").Some? && GetArray(schema, "oneOf").value != [] ==>
              OnlyOne(doc, GetArray(schema, "oneOf").value, inst, depth - 1)
  {
    hide SchemaOk, DenyUndeclared, OnlyOne;
    if GetArray(schema, "oneOf").Some? && GetArray(schema, "oneOf").value != [] {
      OneHit(doc, GetArray(schema, "oneOf").value, inst, depth - 1);
    }
    if GetArray(schema, "anyOf").Some? && GetArray(schema, "anyOf").value != [] {
      var any := GetArray(schema, "anyOf").value;
      var i :| 0 <= i < |any| && SchemaOk(doc, any[i], inst, depth - 1, false);
      assert any[i] in any;
    }
  }

  lemma {:induction false} TypeKeeps(doc: Doc, schema: Json, inst: Json, depth: nat, strict: bool)
    requires depth > 0 && TypeOk(doc, schema, inst, depth, strict)
    ensures Get(schema, "type").Some? && Get(schema, "type").value.Str? ==> OfKind(inst, Get(schema, "type").value.s)
    ensures GetArray(schema, "type").Some? ==> OfSomeKind(inst, GetArray(schema, "type").value)
    ensures inst.Obj? && LooksInto(schema, "object") && GetArray(schema, "required").Some? ==>
              forall name :: Str(name) in GetArray(schema, "required").value ==> name in inst.fields
  {
    hide SchemaOk, KeyOk;
    if inst.Obj? && LooksInto(schema, "object") && GetArray(schema, "required").Some? {
      LooksIntoMeansChecked(doc, schema, inst, "object", depth, strict);
      RequiredKeys(schema, inst);
    }
  }

  /** Follow any chain of the checks that an accepted one rests on: every keyword of every schema met there is kept. */
  lemma {:induction false} EveryKeywordIsKept(doc: Doc, run: seq<Check>, i: nat)
    requires IsRun(doc, run) && Accepts(doc, run[0]) && i < |run| && RefOf(run[i].schema).None?
    ensures run[i].depth > 0 && Keeps(doc, run[i].schema, run[i].inst, run[i].depth)
  {
    hide Step, Keeps;
    ClosedWorld(doc, run);
    assert Accepts(doc, run[i]);
    AcceptedKeeps(doc, run[i].schema, run[i].inst, run[i].depth, run[i].strict);
  }

  /** Null is accepted against a schema with a type exactly when it is nullable or `null` is one of the types. */
  lemma {:induction false} NullExactly(doc: Doc, schema: Json, depth: nat, strict: bool)
    requires depth > 0 && schema.Obj? && TypeNames(schema) != {}
    requires forall key :: key in ["$ref", "const", "enum"] ==> key !in schema.fields
    ensures SchemaOk(doc, schema, Null, depth, strict) <==>
              Get(schema, "nullable") == Some(Bool(true)) || "null" in TypeNames(schema)
  {
    assert "$ref" !in schema.fields && "const" !in schema.fields && "enum" !in schema.fields;
    hide ComposedOk, TypeOk, TypeNames;
  }

  /** A reference costs one level of the budget, and one that leads nowhere accepts nothing. */
  lemma {:induction false} RefExactly(doc: Doc, rel: string, inst: Json, depth: nat, strict: bool)
    ensures SchemaOk(doc, Obj(map["$ref" := Str(rel)]), inst, depth, strict) <==>
              depth > 0 && rel in doc && SchemaOk(doc, doc[rel], inst, depth - 1, strict)
  {
    var schema := Obj(map["$ref" := Str(rel)]);
    assert RefOf(schema) == Some(rel) && |schema.fields| == 1;
  }

  /** Where composition meets `additionalProperties: false` the keys are declared, be the check strict or not. */
  lemma {:induction false} FalseClosesComposition(doc: Doc, schema: Json, fields: map<string, Json>, depth: nat,
                                                  strict: bool)
    requires SchemaOk(doc, schema, Obj(fields), depth, strict)
    requires Get(schema, "additionalProperties") == Some(Bool(false))
    requires RefOf(schema).Some? || GetArray(schema, "allOf").Some?
    ensures AllowsAdditional(doc, schema, depth) || fields.Keys <= Names(doc, schema, depth)
  {
    hide AllowsAdditional, Names, ComposedOk, TypeOk;
    if RefOf(schema).Some? {
      assert {"$ref", "additionalProperties"} <= schema.fields.Keys;
      TwoKeys(schema.fields, "$ref", "additionalProperties");
      ClosedByFalse(doc, schema, fields, depth, strict);
    } else {
      assert ComposedOk(doc, schema, Obj(fields), depth, strict);
      AllOfIsClosed(doc, schema, fields, depth, strict);
    }
  }

  lemma {:induction false} TwoKeys(fields: map<string, Json>, a: string, b: string)
    requires a in fields && b in fields && a != b
    ensures |fields| > 1
  {
    var rest := fields - {a};
    assert b in rest && |rest.Keys| > 0;
    assert fields.Keys == rest.Keys + {a};
  }

  lemma {:induction false} AllOfIsClosed(doc: Doc, schema: Json, fields: map<string, Json>, depth: nat, strict: bool)
    requires depth > 0 && ComposedOk(doc, schema, Obj(fields), depth, strict) && GetArray(schema, "allOf").Some?
    requires Get(schema, "additionalProperties") == Some(Bool(false))
    ensures AllowsAdditional(doc, schema, depth) || fields.Keys <= Names(doc, schema, depth)
  {
    hide AllowsAdditional, Names, SchemaOk, AnyOfOk, Hits;
    assert DenyUndeclared(doc, schema, fields, depth, strict);
    ClosedByFalse(doc, schema, fields, depth, strict);
  }

  lemma {:induction false} ClosedByFalse(doc: Doc, schema: Json, fields: map<string, Json>, depth: nat, strict: bool)
    requires depth > 0 && DenyUndeclared(doc, schema, fields, depth, strict)
    requires Get(schema, "additionalProperties") == Some(Bool(false))
    ensures AllowsAdditional(doc, schema, depth) || fields.Keys <= Names(doc, schema, depth)
  {
    hide AllowsAdditional, Names, SchemaOk;
    forall key | key in fields
      ensures AllowsAdditional(doc, schema, depth) || key in Names(doc, schema, depth)
    {
      assert !AdditionalOk(doc, schema, fields[key], depth);
    }
  }
}
