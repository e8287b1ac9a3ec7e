// packages/flutter-ultra-gesture/src/json-schema.ts
//
// The Zod-to-JSON-Schema compiler, the meaning of both languages, and the
// proof that compilation loses no accepted value and, away from the cycle
// guard, adds none.
module ZodSchema {
  import opened Collections

  // ---------------------------------------------------------------- values

  datatype Json =
    | JNull
    | JBool(b: bool)
    | JNum(n: real)
    | JStr(s: string)
    | JArr(elems: seq<Json>)
    | JObj(fields: map<string, Json>)

  // ---------------------------------------------------------------- Zod

  datatype Field = Field(key: string, schema: Zod)

  // A ZLazy node is known by its identity; `env` maps it to what its getter
  // returns. Strings, numbers and arrays carry what their checks (min, int,
  // positive, email and so on) come to together; ZOther stands for every node
  // type the compiler does not know, with an arbitrary validator.
  datatype Zod =
    | ZObject(shape: seq<Field>, strict: bool)
    | ZString(stringOk: string -> bool)
    | ZNumber(numberOk: real -> bool)
    | ZBoolean
    | ZArray(element: Zod, arrayOk: seq<Json> -> bool)
    | ZEnum(options: seq<string>)
    | ZLiteral(value: Json)
    | ZOptional(inner: Zod)
    | ZNullable(inner: Zod)
    | ZDefault(inner: Zod, defaultValue: Json)
    | ZUnion(choices: seq<Zod>)
    | ZDiscriminatedUnion(discriminator: string, choices: seq<Zod>)
    | ZRecord(valueSchema: Zod)
    | ZLazy(id: nat)
    | ZUnknown
    | ZAny
    | ZOther(check: Option<Json> -> bool)

  type Env = map<nat, Zod>

  /** Every lazy node that s mentions is one of ids. */
  predicate RefsIn(s: Zod, ids: set<nat>)
  {
    match s
    case ZObject(shape, _) => forall i :: 0 <= i < |shape| ==> RefsIn(shape[i].schema, ids)
    case ZArray(e, _) => RefsIn(e, ids)
    case ZOptional(inner) => RefsIn(inner, ids)
    case ZNullable(inner) => RefsIn(inner, ids)
    case ZDefault(inner, _) => RefsIn(inner, ids)
    case ZUnion(cs) => forall i :: 0 <= i < |cs| ==> RefsIn(cs[i], ids)
    case ZDiscriminatedUnion(_, cs) => forall i :: 0 <= i < |cs| ==> RefsIn(cs[i], ids)
    case ZRecord(v) => RefsIn(v, ids)
    case ZLazy(id) => id in ids
    case _ => true
  }

  /** A finite, possibly cyclic schema graph: every getter is defined. */
  ghost predicate Closed(env: Env, s: Zod)
  {
    RefsIn(s, env.Keys) && forall id :: id in env ==> RefsIn(env[id], env.Keys)
  }

  /** The strings a discriminated-union option admits under its discriminator. */
  function DiscriminatorValues(option: Zod, key: string): seq<string>
  {
    if option.ZObject? then ValuesAt(option.shape, key) else []
  }

  function ValuesAt(shape: seq<Field>, key: string): seq<string>
  {
    if shape == [] then []
    else if shape[0].key == key then
      match shape[0].schema
      case ZLiteral(JStr(x)) => [x]
      case ZEnum(xs) => xs
      case _ => []
    else ValuesAt(shape[1..], key)
  }

  /** Zod's own verdict. The value None is JavaScript's `undefined`, which an
      absent object field is parsed as. `fuel` bounds the nesting of lazy
      unfoldings, so that "accepted for some fuel" is "the parse returns". */
  ghost predicate Accepts(env: Env, s: Zod, v: Option<Json>, fuel: nat)
    decreases fuel, s
  {
    match s
    case ZObject(shape, strict) =>
      && v.Some? && v.value.JObj?
      && (forall i :: 0 <= i < |shape| ==>
            Accepts(env, shape[i].schema, Get(v.value.fields, shape[i].key), fuel))
      && (strict ==> forall k :: k in v.value.fields ==> HasField(shape, k))
    case ZString(ok) => v.Some? && v.value.JStr? && ok(v.value.s)
    case ZNumber(ok) => v.Some? && v.value.JNum? && ok(v.value.n)
    case ZBoolean => v.Some? && v.value.JBool?
    case ZArray(e, ok) =>
      && v.Some? && v.value.JArr? && ok(v.value.elems)
      && forall i :: 0 <= i < |v.value.elems| ==> Accepts(env, e, Some(v.value.elems[i]), fuel)
    case ZEnum(options) => v.Some? && v.value.JStr? && v.value.s in options
    case ZLiteral(x) => v == Some(x)
    case ZOptional(inner) => v.None? || Accepts(env, inner, v, fuel)
    case ZNullable(inner) => v == Some(JNull) || Accepts(env, inner, v, fuel)
    case ZDefault(inner, d) => Accepts(env, inner, if v.None? then Some(d) else v, fuel)
    case ZUnion(cs) => exists i :: 0 <= i < |cs| && Accepts(env, cs[i], v, fuel)
    case ZDiscriminatedUnion(key, cs) =>
      && v.Some? && v.value.JObj? && key in v.value.fields && v.value.fields[key].JStr?
      && exists i :: 0 <= i < |cs|
                     && v.value.fields[key].s in DiscriminatorValues(cs[i], key)
                     && Accepts(env, cs[i], v, fuel)
    case ZRecord(vs) =>
      && v.Some? && v.value.JObj?
      && forall k :: k in v.value.fields ==> Accepts(env, vs, Some(v.value.fields[k]), fuel)
    case ZLazy(id) => fuel > 0 && id in env && Accepts(env, env[id], v, fuel - 1)
    case ZUnknown => true
    case ZAny => true
    case ZOther(check) => check(v)
  }

  predicate HasField(shape: seq<Field>, k: string)
  {
    exists i :: 0 <= i < |shape| && shape[i].key == k
  }

  // ---------------------------------------------------------------- JSON Schema

  datatype TypeName = TObject | TString | TNumber | TBoolean | TArray

  datatype Property = Property(key: string, schema: JsonSchema)
  datatype Properties = NoProperties | Properties(list: seq<Property>)
  datatype Branches = NoBranches | Branches(list: seq<JsonSchema>)

  // One field per keyword the compiler can emit; None (NoProperties, NoBranches) is an absent keyword.
  datatype JsonSchema = JsonSchema(
    typ: Option<TypeName>,
    properties: Properties,
    required: Option<seq<string>>,
    items: Option<JsonSchema>,
    enumeration: Option<seq<Json>>,
    anyOf: Branches,
    oneOf: Branches,
    additionalProperties: Option<JsonSchema>,
    default: Option<Json>)

  const OPEN := JsonSchema(None, NoProperties, None, None, None, NoBranches, NoBranches, None, None)

  predicate HasType(t: TypeName, v: Json)
  {
    match t
    case TObject => v.JObj?
    case TString => v.JStr?
    case TNumber => v.JNum?
    case TBoolean => v.JBool?
    case TArray => v.JArr?
  }

  predicate HasProperty(ps: seq<Property>, k: string)
  {
    exists i :: 0 <= i < |ps| && ps[i].key == k
  }

  function PropertyList(js: JsonSchema): seq<Property>
  {
    if js.properties.Properties? then js.properties.list else []
  }

  /** JSON Schema 2020-12: every keyword present must hold (Core section 10,
      Validation sections 6.1 and 6.5.3). `default` asserts nothing. */
  ghost predicate Valid(js: JsonSchema, v: Json)
  {
    && (js.typ.Some? ==> HasType(js.typ.value, v))
    && (js.enumeration.Some? ==> v in js.enumeration.value)
    && (js.required.Some? && v.JObj? ==>
          forall k :: k in js.required.value ==> k in v.fields)
    && (js.properties.Properties? && v.JObj? ==>
          forall i :: 0 <= i < |js.properties.list| && js.properties.list[i].key in v.fields ==>
            Valid(js.properties.list[i].schema, v.fields[js.properties.list[i].key]))
    && (js.additionalProperties.Some? && v.JObj? ==>
          forall k :: k in v.fields && !HasProperty(PropertyList(js), k) ==>
            Valid(js.additionalProperties.value, v.fields[k]))
    && (js.items.Some? && v.JArr? ==>
          forall i :: 0 <= i < |v.elems| ==> Valid(js.items.value, v.elems[i]))
    && (js.anyOf.Branches? ==>
          exists i :: 0 <= i < |js.anyOf.list| && Valid(js.anyOf.list[i], v))
    && (js.oneOf.Branches? ==>
          exists i :: 0 <= i < |js.oneOf.list| && Valid(js.oneOf.list[i], v)
            && forall j :: 0 <= j < |js.oneOf.list| && Valid(js.oneOf.list[j], v) ==> j == i)
  }

  // ---------------------------------------------------------------- compiler

  predicate IsOptional(s: Zod)
  {
    s.ZOptional? || s.ZDefault? || s.ZNullable?
  }

  datatype Converted = Converted(json: JsonSchema, visited: set<nat>)
  datatype ConvertedList = ConvertedList(jsons: seq<JsonSchema>, visited: set<nat>)

  function TypeOnly(t: TypeName): JsonSchema { OPEN.(typ := Some(t)) }

  function EnumOf(values: seq<Json>): JsonSchema
  {
    OPEN.(typ := Some(TString), enumeration := Some(values))
  }

  function Strings(xs: seq<string>): seq<Json>
  {
    seq(|xs|, i requires 0 <= i < |xs| => JStr(xs[i]))
  }

  function ObjectSchema(shape: seq<Field>, jsons: seq<JsonSchema>): JsonSchema
    requires |shape| == |jsons|
  {
    var required := RequiredKeys(shape);
    OPEN.(typ := Some(TObject),
          properties := Properties(seq(|shape|, i requires 0 <= i < |shape| => Property(shape[i].key, jsons[i]))),
          required := if |required| > 0 then Some(required) else None)
  }

  function RequiredKeys(shape: seq<Field>): seq<string>
  {
    if shape == [] then []
    else
      var rest := RequiredKeys(shape[..|shape| - 1]);
      var last := shape[|shape| - 1];
      if IsOptional(last.schema) then rest else rest + [last.key]
  }

  /** The compilation, with the visited set passed through every sibling. It
      terminates on any closed graph: either a fresh lazy node is visited, or
      none is and the schema gets smaller. */
  function Conversion(env: Env, s: Zod, visited: set<nat>): (r: Converted)
    requires Closed(env, s)
    ensures visited <= r.visited <= visited + env.Keys
    decreases |env.Keys - visited|, s
  {
    match s
    case ZObject(shape, _) =>
      var r := FieldsConversion(env, shape, visited);
      Converted(ObjectSchema(shape, r.jsons), r.visited)
    case ZString(_) => Converted(TypeOnly(TString), visited)
    case ZNumber(_) => Converted(TypeOnly(TNumber), visited)
    case ZBoolean => Converted(TypeOnly(TBoolean), visited)
    case ZArray(e, _) =>
      var r := Conversion(env, e, visited);
      Converted(OPEN.(typ := Some(TArray), items := Some(r.json)), r.visited)
    case ZEnum(options) => Converted(EnumOf(Strings(options)), visited)
    case ZLiteral(x) => Converted(EnumOf([x]), visited)
    case ZOptional(inner) => Conversion(env, inner, visited)
    case ZNullable(inner) => Conversion(env, inner, visited)
    case ZDefault(inner, d) =>
      var r := Conversion(env, inner, visited);
      Converted(r.json.(default := Some(d)), r.visited)
    case ZUnion(cs) =>
      var r := ListConversion(env, cs, visited);
      Converted(OPEN.(anyOf := Branches(r.jsons)), r.visited)
    case ZDiscriminatedUnion(_, cs) =>
      var r := ListConversion(env, cs, visited);
      Converted(OPEN.(oneOf := Branches(r.jsons)), r.visited)
    case ZRecord(vs) =>
      var r := Conversion(env, vs, visited);
      Converted(OPEN.(typ := Some(TObject), additionalProperties := Some(r.json)), r.visited)
    case ZLazy(id) =>
      if id in visited then Converted(OPEN, visited)
      else
        FreshLazy(env.Keys, visited, id);
        Conversion(env, env[id], visited + {id})
    case ZUnknown => Converted(OPEN, visited)
    case ZAny => Converted(OPEN, visited)
    case ZOther(_) => Converted(OPEN, visited)
  }

  function ListConversion(env: Env, ss: seq<Zod>, visited: set<nat>): (r: ConvertedList)
    requires forall i :: 0 <= i < |ss| ==> Closed(env, ss[i])
    ensures |r.jsons| == |ss| && visited <= r.visited <= visited + env.Keys
    decreases |env.Keys - visited|, ss
  {
    if ss == [] then ConvertedList([], visited)
    else
      var first := Conversion(env, ss[0], visited);
      SubsetSize(env.Keys - first.visited, env.Keys - visited);
      var rest := ListConversion(env, ss[1..], first.visited);
      ConvertedList([first.json] + rest.jsons, rest.visited)
  }

  function FieldsConversion(env: Env, shape: seq<Field>, visited: set<nat>): (r: ConvertedList)
    requires forall i :: 0 <= i < |shape| ==> Closed(env, shape[i].schema)
    ensures |r.jsons| == |shape| && visited <= r.visited <= visited + env.Keys
    decreases |env.Keys - visited|, shape
  {
    if shape == [] then ConvertedList([], visited)
    else
      var first := Conversion(env, shape[0].schema, visited);
      SubsetSize(env.Keys - first.visited, env.Keys - visited);
      var rest := FieldsConversion(env, shape[1..], first.visited);
      ConvertedList([first.json] + rest.jsons, rest.visited)
  }

  lemma FreshLazy(ids: set<nat>, visited: set<nat>, id: nat)
    requires id in ids && id !in visited
    ensures |ids - (visited + {id})| < |ids - visited|
    ensures visited + {id} + ids == visited + ids
  {
    assert ids - visited == (ids - (visited + {id})) + {id};
  }
}
