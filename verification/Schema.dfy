/**
 The schema shorthand of the driver SDK (packages/driver-sdk/src/schema.ts): a
 spec is compiled to a JSON Schema, and a value is valid against the result
 exactly when it matches the shorthand read directly.

 A validator is any function that obeys the rules JSON Schema 2020-12 gives for
 the four shapes the compiler emits; what it makes of a schema passed through
 untouched is its own business.
 */
module Schema {

  datatype Result<+T> = Ok(value: T) | Error

  datatype Json =
    | Null
    | Bool(b: bool)
    | Num(n: real)
    | Str(s: string)
    | Arr(items: seq<Json>)
    | Obj(fields: seq<Field>)

  // An entry of an object; an object's entries have their keys once each.
  datatype Field = Field(key: string, value: Json)

  predicate HasKey(fields: seq<Field>, key: string) {
    exists i :: 0 <= i < |fields| && fields[i].key == key
  }

  function Get(fields: seq<Field>, key: string): Json {
    if fields == [] then Null
    else if fields[0].key == key then fields[0].value
    else Get(fields[1..], key)
  }

  function Keys(fields: seq<Field>): set<string> {
    set i | 0 <= i < |fields| :: fields[i].key
  }

  // ---------- the compiler ----------

  predicate IsPrimitive(t: string) {
    t == "string" || t == "number" || t == "integer" || t == "boolean" || t == "null"
  }

  predicate IsMarker(key: string) {
    || key == "type" || key == "properties" || key == "items" || key == "enum" || key == "const"
    || key == "$ref" || key == "anyOf" || key == "oneOf" || key == "allOf"
  }

  predicate LooksLikeSchema(fields: seq<Field>) {
    exists i :: 0 <= i < |fields| && IsMarker(fields[i].key)
  }

  function TypeSchema(t: string): Json {
    Obj([Field("type", Str(t))])
  }

  function ArraySchema(items: Json): Json {
    Obj([Field("type", Str("array")), Field("items", items)])
  }

  function ObjectSchema(properties: seq<Field>, required: seq<string>): Json {
    Obj([
          Field("type", Str("object")),
          Field("properties", Obj(properties)),
          Field("required", Arr(seq(|required|, i requires 0 <= i < |required| => Str(required[i])))),
          Field("additionalProperties", Bool(false))
        ])
  }

  const ANYTHING := Obj([])

  // A field whose value ends in a question mark may be absent.
  predicate Optional(spec: Json) {
    spec.Str? && spec.s != "" && spec.s[|spec.s| - 1] == '?'
  }

  function Base(spec: Json): string
    requires Optional(spec)
  {
    spec.s[..|spec.s| - 1]
  }

  function CompileName(t: string): Result<Json> {
    if IsPrimitive(t) then Ok(TypeSchema(t)) else Error
  }

  function CompileValue(spec: Json): Result<Json>
    decreases spec, 1
  {
    if Optional(spec) then CompileName(Base(spec)) else Compile(spec)
  }

  /** What `s` returns, or Error where it throws. */
  function Compile(spec: Json): Result<Json>
    decreases spec, 0
  {
    match spec
    case Str(t) => CompileName(t)
    case Arr(items) =>
      if items == [] then Ok(ArraySchema(ANYTHING)) else
        var first := Compile(items[0]);
        if first.Error? then Error else Ok(ArraySchema(first.value))
    case Obj(fields) =>
      if LooksLikeSchema(fields) then Ok(spec) else
        var parts := CompileFields(fields);
        if parts.Error? then Error else Ok(ObjectSchema(parts.value, Required(fields)))
    case _ => Error
  }

  function CompileFields(fields: seq<Field>): (r: Result<seq<Field>>)
    decreases fields, 0
    ensures r.Ok? ==> |r.value| == |fields|
  {
    if fields == [] then Ok([]) else
      var n := |fields| - 1;
      var before, last := CompileFields(fields[..n]), CompileValue(fields[n].value);
      if before.Error? || last.Error? then Error
      else Ok(before.value + [Field(fields[n].key, last.value)])
  }

  function Required(fields: seq<Field>): seq<string> {
    if fields == [] then [] else
      var n := |fields| - 1;
      Required(fields[..n]) + (if Optional(fields[n].value) then [] else [fields[n].key])
  }

  // ---------- the shorthand, read directly ----------

  type Validator = (Json, Json) -> bool

  predicate HasType(v: Json, t: string) {
    match v
    case Null => t == "null"
    case Bool(_) => t == "boolean"
    case Num(n) => t == "number" || (t == "integer" && n == n.Floor as real)
    case Str(_) => t == "string"
    case Arr(_) => t == "array"
    case Obj(_) => t == "object"
  }

  ghost predicate Matches(valid: Validator, spec: Json, v: Json)
    decreases spec, 0
  {
    match spec
    case Str(t) => HasType(v, t)
    case Arr(items) =>
      v.Arr? && (items == [] || forall i :: 0 <= i < |v.items| ==> Matches(valid, items[0], v.items[i]))
    case Obj(fields) =>
      if LooksLikeSchema(fields) then valid(spec, v)
      else
        && v.Obj?
        && Keys(v.fields) <= Keys(fields)
        && forall i :: 0 <= i < |fields| ==> MatchesField(valid, fields[i], v.fields)
    case _ => false
  }

  ghost predicate MatchesField(valid: Validator, field: Field, given: seq<Field>)
    decreases field, 1
  {
    if Optional(field.value) then
      HasKey(given, field.key) ==> HasType(Get(given, field.key), Base(field.value))
    else
      HasKey(given, field.key) && Matches(valid, field.value, Get(given, field.key))
  }

  // ---------- what a validator obeys ----------

  // Sections 6.1.1 of JSON Schema Validation and 10.3.1.2 of JSON Schema Core.
  ghost predicate ObeysArrays(valid: Validator) {
    forall items, v :: valid(ArraySchema(items), v) <==>
                       v.Arr? && forall i :: 0 <= i < |v.items| ==> valid(items, v.items[i])
  }

  // Section 6.5.3 of JSON Schema Validation, sections 10.3.2.1 and 10.3.2.3 of
  // JSON Schema Core.
  ghost predicate ObeysObjects(valid: Validator) {
    forall properties, required, v ::
      valid(ObjectSchema(properties, required), v) <==> v.Obj? && FitsObject(valid, properties, required, v.fields)
  }

  ghost predicate FitsObject(valid: Validator, properties: seq<Field>, required: seq<string>, given: seq<Field>) {
    && (forall i :: 0 <= i < |required| ==> HasKey(given, required[i]))
    && (forall i :: 0 <= i < |properties| ==> HasKey(given, properties[i].key) ==>
          valid(properties[i].value, Get(given, properties[i].key)))
    && Keys(given) <= Keys(properties)
  }

  ghost predicate Conforms(valid: Validator) {
    && (forall t, v :: valid(TypeSchema(t), v) <==> HasType(v, t))
    && (forall v :: valid(ANYTHING, v))
    && ObeysArrays(valid)
    && ObeysObjects(valid)
  }

  // ---------- compiling keeps the meaning ----------

  lemma {:induction false} CompiledFieldsAre(fields: seq<Field>, i: nat)
    requires CompileFields(fields).Ok? && i < |fields|
    ensures CompileValue(fields[i].value).Ok?
    ensures CompileFields(fields).value[i] == Field(fields[i].key, CompileValue(fields[i].value).value)
  {
    var n := |fields| - 1;
    if i < n { CompiledFieldsAre(fields[..n], i); }
  }

  lemma {:induction false} RequiredAre(fields: seq<Field>, key: string)
    ensures key in Required(fields) <==>
            exists i :: 0 <= i < |fields| && fields[i].key == key && !Optional(fields[i].value)
  {
    if fields != [] {
      var n := |fields| - 1;
      RequiredAre(fields[..n], key);
      assert forall i :: 0 <= i < n ==> fields[..n][i] == fields[i];
    }
  }

  lemma KeysStay(fields: seq<Field>)
    requires CompileFields(fields).Ok?
    ensures Keys(CompileFields(fields).value) == Keys(fields)
  {
    var done := CompileFields(fields).value;
    forall i | 0 <= i < |fields| ensures done[i].key == fields[i].key { CompiledFieldsAre(fields, i); }
    assert forall k :: k in Keys(done) ==> k in Keys(fields);
    assert forall k :: k in Keys(fields) ==> k in Keys(done);
  }

  // One field: its part of the compiled object says what the shorthand says of it.
  lemma FieldKeepsMeaning(valid: Validator, field: Field, given: seq<Field>)
    requires Conforms(valid) && CompileValue(field.value).Ok?
    requires !Optional(field.value) ==>
             forall v :: valid(CompileValue(field.value).value, v) <==> Matches(valid, field.value, v)
    ensures MatchesField(valid, field, given) <==>
            && (!Optional(field.value) ==> HasKey(given, field.key))
            && (HasKey(given, field.key) ==> valid(CompileValue(field.value).value, Get(given, field.key)))
  {}

  /** For every spec that compiles and every value: the value is valid against the
      compiled schema exactly when it matches the shorthand. */
  lemma {:induction false} CompileKeepsMeaning(valid: Validator, spec: Json, v: Json)
    requires Conforms(valid) && Compile(spec).Ok?
    ensures valid(Compile(spec).value, v) <==> Matches(valid, spec, v)
    decreases spec, v
  {
    match spec
    case Str(t) =>
    case Arr(items) => ArrayKeepsMeaning(valid, items, v);
    case Obj(fields) => if !LooksLikeSchema(fields) { ObjectKeepsMeaning(valid, fields, v); }
    case _ =>
  }

  lemma {:induction false} ArrayKeepsMeaning(valid: Validator, items: seq<Json>, v: Json)
    requires Conforms(valid) && Compile(Arr(items)).Ok?
    ensures valid(Compile(Arr(items)).value, v) <==> Matches(valid, Arr(items), v)
    decreases items, v
  {
    if v.Arr? && items != [] {
      forall i | 0 <= i < |v.items|
        ensures valid(Compile(items[0]).value, v.items[i]) <==> Matches(valid, items[0], v.items[i])
      {
        CompileKeepsMeaning(valid, items[0], v.items[i]);
      }
    }
  }

  lemma RequiredPresent(fields: seq<Field>, given: seq<Field>)
    ensures (forall i :: 0 <= i < |Required(fields)| ==> HasKey(given, Required(fields)[i])) <==>
            (forall i :: 0 <= i < |fields| && !Optional(fields[i].value) ==> HasKey(given, fields[i].key))
  {
    var required := Required(fields);
    forall i | 0 <= i < |fields| && !Optional(fields[i].value) ensures fields[i].key in required {
      RequiredAre(fields, fields[i].key);
    }
    forall i | 0 <= i < |required|
      ensures exists j :: 0 <= j < |fields| && fields[j].key == required[i] && !Optional(fields[j].value)
    {
      RequiredAre(fields, required[i]);
    }
  }

  // What the compiled object says of one field of a value.
  ghost predicate FieldFits(valid: Validator, field: Field, given: seq<Field>)
    requires CompileValue(field.value).Ok?
  {
    && (!Optional(field.value) ==> HasKey(given, field.key))
    && (HasKey(given, field.key) ==> valid(CompileValue(field.value).value, Get(given, field.key)))
  }

  lemma ObjectFits(valid: Validator, fields: seq<Field>, given: seq<Field>)
    requires CompileFields(fields).Ok?
    ensures forall i :: 0 <= i < |fields| ==> CompileValue(fields[i].value).Ok?
    ensures FitsObject(valid, CompileFields(fields).value, Required(fields), given) <==>
            Keys(given) <= Keys(fields) && forall i :: 0 <= i < |fields| ==> FieldFits(valid, fields[i], given)
  {
    KeysStay(fields);
    RequiredPresent(fields, given);
    var properties := CompileFields(fields).value;
    forall i | 0 <= i < |fields|
      ensures CompileValue(fields[i].value).Ok?
      ensures properties[i] == Field(fields[i].key, CompileValue(fields[i].value).value)
    {
      CompiledFieldsAre(fields, i);
    }
  }

  lemma {:induction false} ObjectKeepsMeaning(valid: Validator, fields: seq<Field>, v: Json)
    requires Conforms(valid) && !LooksLikeSchema(fields) && Compile(Obj(fields)).Ok?
    ensures valid(Compile(Obj(fields)).value, v) <==> Matches(valid, Obj(fields), v)
    decreases fields, v
  {
    if v.Obj? {
      ObjectFits(valid, fields, v.fields);
      forall i | 0 <= i < |fields|
        ensures MatchesField(valid, fields[i], v.fields) <==> FieldFits(valid, fields[i], v.fields)
      {
        if !Optional(fields[i].value) {
          forall u ensures valid(Compile(fields[i].value).value, u) <==> Matches(valid, fields[i].value, u) {
            CompileKeepsMeaning(valid, fields[i].value, u);
          }
        }
        FieldKeepsMeaning(valid, fields[i], v.fields);
      }
    }
  }

  // ---------- which specs compile ----------

  /** Every name it visits is a primitive, and nothing it visits is a bare null,
      boolean or number; only the first item of an array is visited. */
  ghost predicate WellFormed(spec: Json)
    decreases spec
  {
    match spec
    case Str(t) => IsPrimitive(t)
    case Arr(items) => items == [] || WellFormed(items[0])
    case Obj(fields) =>
      LooksLikeSchema(fields) ||
      forall i :: 0 <= i < |fields| ==>
                    if Optional(fields[i].value) then IsPrimitive(Base(fields[i].value))
                    else WellFormed(fields[i].value)
    case _ => false
  }

  lemma {:induction false} FieldsCompileTogether(fields: seq<Field>)
    ensures CompileFields(fields).Ok? <==> forall i :: 0 <= i < |fields| ==> CompileValue(fields[i].value).Ok?
  {
    if fields != [] {
      var n := |fields| - 1;
      FieldsCompileTogether(fields[..n]);
      assert forall i :: 0 <= i < n ==> fields[..n][i] == fields[i];
    }
  }

  /** The compiler throws for exactly the specs that are not well formed. */
  lemma {:induction false} CompilesExactlyTheWellFormed(spec: Json)
    ensures Compile(spec).Ok? <==> WellFormed(spec)
    decreases spec
  {
    match spec
    case Arr(items) => if items != [] { CompilesExactlyTheWellFormed(items[0]); }
    case Obj(fields) =>
      FieldsCompileTogether(fields);
      forall i | 0 <= i < |fields| && !Optional(fields[i].value)
        ensures Compile(fields[i].value).Ok? <==> WellFormed(fields[i].value)
      {
        CompilesExactlyTheWellFormed(fields[i].value);
      }
    case _ =>
  }

  /** A compiled schema is a schema: compiling it again changes nothing. */
  lemma CompilingTwiceIsCompilingOnce(spec: Json)
    requires Compile(spec).Ok?
    ensures Compile(Compile(spec).value) == Compile(spec)
  {
    var j := Compile(spec).value;
    if !(spec.Obj? && LooksLikeSchema(spec.fields)) { assert IsMarker(j.fields[0].key); }
  }

  // ---------- such validators exist ----------

  // One keyword of a schema at a time; keywords it does not know say nothing.
  ghost predicate Validate(schema: Json, v: Json)
    decreases schema, 1
  {
    schema.Obj? ==> forall i :: 0 <= i < |schema.fields| ==> Keyword(schema.fields, schema.fields[i], v)
  }

  ghost predicate Keyword(all: seq<Field>, f: Field, v: Json)
    decreases f, 0
  {
    if f.key == "type" then f.value.Str? ==> HasType(v, f.value.s)
    else if f.key == "items" then v.Arr? ==> forall i :: 0 <= i < |v.items| ==> Validate(f.value, v.items[i])
    else if f.key == "properties" then
      v.Obj? && f.value.Obj? ==>
        forall i :: 0 <= i < |f.value.fields| ==>
                      HasKey(v.fields, f.value.fields[i].key) ==>
                        Validate(f.value.fields[i].value, Get(v.fields, f.value.fields[i].key))
    else if f.key == "required" then
      v.Obj? && f.value.Arr? ==>
        forall i :: 0 <= i < |f.value.items| ==> f.value.items[i].Str? ==> HasKey(v.fields, f.value.items[i].s)
    else if f.key == "additionalProperties" then
      v.Obj? && f.value == Bool(false) ==> Keys(v.fields) <= PropertyKeys(all)
    else true
  }

  function PropertyKeys(all: seq<Field>): set<string> {
    var properties := Get(all, "properties");
    if properties.Obj? then Keys(properties.fields) else {}
  }

  ghost function Reference(): Validator {
    (schema, v) => Validate(schema, v)
  }

  lemma TypeByKeyword(t: string, v: Json)
    ensures Validate(TypeSchema(t), v) <==> HasType(v, t)
  {
    var all := TypeSchema(t).fields;
    assert Validate(TypeSchema(t), v) <==> Keyword(all, all[0], v);
  }

  lemma ArrayByKeyword(items: Json, v: Json)
    ensures Validate(ArraySchema(items), v) <==>
            v.Arr? && forall i :: 0 <= i < |v.items| ==> Validate(items, v.items[i])
  {
    var all := ArraySchema(items).fields;
    assert Validate(ArraySchema(items), v) <==> Keyword(all, all[0], v) && Keyword(all, all[1], v);
    assert Keyword(all, all[0], v) <==> v.Arr?;
  }

  lemma ObjectByKeyword(properties: seq<Field>, required: seq<string>, v: Json)
    ensures Validate(ObjectSchema(properties, required), v) <==>
            v.Obj? && FitsObject(Reference(), properties, required, v.fields)
  {
    var all := ObjectSchema(properties, required).fields;
    assert Validate(ObjectSchema(properties, required), v) <==>
      Keyword(all, all[0], v) && Keyword(all, all[1], v) && Keyword(all, all[2], v) && Keyword(all, all[3], v);
    assert Keyword(all, all[0], v) <==> v.Obj?;
    assert Get(all, "properties") == Obj(properties);
    if v.Obj? {
      var names := all[2].value.items;
      assert forall i :: 0 <= i < |required| ==> names[i] == Str(required[i]);
      assert Keyword(all, all[2], v) <==> forall i :: 0 <= i < |required| ==> HasKey(v.fields, required[i]);
      assert Keyword(all, all[3], v) <==> Keys(v.fields) <= Keys(properties);
    }
  }

  lemma ReferenceObeysArrays()
    ensures ObeysArrays(Reference())
  {
    forall items, v
      ensures Reference()(ArraySchema(items), v) <==>
              v.Arr? && forall i :: 0 <= i < |v.items| ==> Reference()(items, v.items[i])
    {
      ArrayByKeyword(items, v);
    }
  }

  lemma ReferenceObeysObjects()
    ensures ObeysObjects(Reference())
  {
    forall properties, required, v
      ensures Reference()(ObjectSchema(properties, required), v) <==>
              v.Obj? && FitsObject(Reference(), properties, required, v.fields)
    {
      ObjectByKeyword(properties, required, v);
    }
  }

  /** A validator that reads one keyword at a time obeys the rules. */
  lemma ReferenceConforms()
    ensures Conforms(Reference())
  {
    forall t, v ensures Reference()(TypeSchema(t), v) <==> HasType(v, t) { TypeByKeyword(t, v); }
    ReferenceObeysArrays();
    ReferenceObeysObjects();
  }

  // ---------- the words of the shorthand ----------

  /** What each name stands for, and that no other is one. */
  lemma NamesMean(v: Json, t: string)
    ensures HasType(v, "string") <==> v.Str?
    ensures HasType(v, "boolean") <==> v.Bool?
    ensures HasType(v, "null") <==> v.Null?
    ensures HasType(v, "number") <==> v.Num?
    ensures HasType(v, "integer") <==> v.Num? && v.n == v.n.Floor as real
    ensures Compile(Str(t)).Ok? <==> t in ["string", "number", "integer", "boolean", "null"]
    ensures Compile(Str(t)).Ok? ==> Compile(Str(t)).value == Obj([Field("type", Str(t))])
  {}

  /** A question mark at the end of a name, and nothing else, makes a field optional. */
  lemma MarkMakesOptional(spec: Json)
    ensures Optional(spec) <==> exists t :: spec == Str(t + "?")
    ensures Optional(spec) ==> spec == Str(Base(spec) + "?")
  {
    if Optional(spec) { assert spec.s == Base(spec) + "?"; }
  }

  const SCHEMA_KEYS := ["type", "properties", "items", "enum", "const", "$ref", "anyOf", "oneOf", "allOf"]

  ghost predicate HasSchemaKey(fields: seq<Field>) {
    exists i :: 0 <= i < |fields| && fields[i].key in SCHEMA_KEYS
  }

  lemma MarkersAre(key: string)
    ensures IsMarker(key) <==> key in SCHEMA_KEYS
  {}

  /** An object is passed through as a schema exactly if it has one of these keys. */
  lemma SchemaIsPassedThrough(fields: seq<Field>)
    ensures Compile(Obj(fields)) == Ok(Obj(fields)) <==> HasSchemaKey(fields)
  {
    forall i | 0 <= i < |fields| ensures IsMarker(fields[i].key) <==> fields[i].key in SCHEMA_KEYS {
      MarkersAre(fields[i].key);
    }
    assert LooksLikeSchema(fields) <==> HasSchemaKey(fields);
    var made := Compile(Obj(fields));
    if !LooksLikeSchema(fields) && made.Ok? { assert made.value.fields[0].key == "type"; }
  }

  const PERSON := [Field("name", Str("string")), Field("age", Str("integer?")), Field("tags", Arr([Str("string")]))]

  /** A shorthand as it is written: a name, an age or none, and a list of tags. */
  lemma PersonIsChecked(valid: Validator, v: Json, fields: seq<Field>)
    requires Conforms(valid)
    requires fields == PERSON
    ensures Compile(Obj(fields)).Ok?
    ensures valid(Compile(Obj(fields)).value, v) <==>
            && v.Obj? && Keys(v.fields) <= {"name", "age", "tags"}
            && HasKey(v.fields, "name") && Get(v.fields, "name").Str?
            && (HasKey(v.fields, "age") ==> HasType(Get(v.fields, "age"), "integer"))
            && HasKey(v.fields, "tags") && IsListOfStrings(Get(v.fields, "tags"))
  {
    PersonCompiles(fields);
    CompileKeepsMeaning(valid, Obj(fields), v);
    ThreeKeys(fields);
    assert !LooksLikeSchema(fields);
    if v.Obj? { PersonMatches(valid, fields, v.fields); }
  }

  ghost predicate IsListOfStrings(v: Json) {
    v.Arr? && forall i :: 0 <= i < |v.items| ==> v.items[i].Str?
  }

  lemma PersonCompiles(fields: seq<Field>)
    requires fields == PERSON
    ensures Compile(Obj(fields)).Ok?
  {
    assert Base(Str("integer?")) == "integer";
    assert WellFormed(fields[2].value);
    CompilesExactlyTheWellFormed(Obj(fields));
  }

  lemma ThreeKeys(fields: seq<Field>)
    requires |fields| == 3
    ensures Keys(fields) == {fields[0].key, fields[1].key, fields[2].key}
  {}

  lemma PersonMatches(valid: Validator, fields: seq<Field>, given: seq<Field>)
    requires fields == PERSON
    ensures (forall i :: 0 <= i < |fields| ==> MatchesField(valid, fields[i], given)) <==>
            && HasKey(given, "name") && Get(given, "name").Str?
            && (HasKey(given, "age") ==> HasType(Get(given, "age"), "integer"))
            && HasKey(given, "tags") && IsListOfStrings(Get(given, "tags"))
  {
    assert Base(Str("integer?")) == "integer";
    var tags := Get(given, "tags");
    assert Matches(valid, Arr([Str("string")]), tags) <==> IsListOfStrings(tags);
    assert MatchesField(valid, fields[0], given) <==> HasKey(given, "name") && Get(given, "name").Str?;
    assert MatchesField(valid, fields[1], given) <==>
      (HasKey(given, "age") ==> HasType(Get(given, "age"), "integer"));
    assert MatchesField(valid, fields[2], given) <==> HasKey(given, "tags") && IsListOfStrings(tags);
  }

  // ---------- the loop ----------

  /** Fields are found by their keys. */
  lemma {:induction false} KeysAreFound(fields: seq<Field>, key: string)
    ensures HasKey(fields, key) <==> key in Keys(fields)
    ensures HasKey(fields, key) ==> Field(key, Get(fields, key)) in fields
  {
    if fields != [] {
      KeysAreFound(fields[1..], key);
      if HasKey(fields, key) && fields[0].key != key {
        var i :| 0 <= i < |fields| && fields[i].key == key;
        assert fields[1..][i - 1].key == key;
      }
    }
  }

  // The value of an entry.
  method SugarValue(val: Json) returns (r: Result<Json>)
    ensures r == CompileValue(val)
    decreases val, 1
  {
    if Optional(val) { r := CompileName(Base(val)); } else { r := Sugar(val); }
  }

  // The entries of an object that is no schema.
  method SugarFields(fields: seq<Field>) returns (r: Result<Json>)
    requires !LooksLikeSchema(fields)
    ensures r == Compile(Obj(fields))
    decreases fields, 2
  {
    var properties: seq<Field>, required: seq<string> := [], [];
    for i := 0 to |fields|
      invariant CompileFields(fields[..i]) == Ok(properties) && required == Required(fields[..i])
    {
      assert fields[..i + 1][..i] == fields[..i];
      var compiled := SugarValue(fields[i].value);
      if compiled.Error? {
        FieldsCompileTogether(fields);
        return Error;
      }
      if Optional(fields[i].value) {
        assert required + [] == required;
      } else {
        required := required + [fields[i].key];
      }
      properties := properties + [Field(fields[i].key, compiled.value)];
    }
    assert fields[..|fields|] == fields;
    return Ok(ObjectSchema(properties, required));
  }

  /** s: the properties and the required names are filled entry by entry. */
  method Sugar(spec: Json) returns (r: Result<Json>)
    ensures r == Compile(spec)
    decreases spec, 0
  {
    match spec
    case Str(t) =>
      if !IsPrimitive(t) { return Error; }
      return Ok(TypeSchema(t));
    case Arr(items) =>
      if items == [] { return Ok(ArraySchema(ANYTHING)); }
      var first := Sugar(items[0]);
      if first.Error? { return Error; }
      return Ok(ArraySchema(first.value));
    case Obj(fields) =>
      if LooksLikeSchema(fields) { return Ok(spec); }
      r := SugarFields(fields);
    case _ => return Error;
  }
}
