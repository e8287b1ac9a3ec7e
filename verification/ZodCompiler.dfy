// packages/flutter-ultra-gesture/src/json-schema.ts
//
// The compiler as the source runs it: one set of lazy bodies, changed in place
// while the siblings are converted one after the other.
module ZodCompiler {
  import opened Collections
  import opened ZodSchema
  import opened SchemaSoundness

  /** The WeakSet of one conversion. */
  class LazyBodies {
    var ids: set<nat>

    constructor ()
      ensures ids == {}
    {
      ids := {};
    }
  }

  method Convert(env: Env, s: Zod, lazyBodies: LazyBodies) returns (json: JsonSchema)
    requires Closed(env, s)
    modifies lazyBodies
    ensures Converted(json, lazyBodies.ids) == old(Conversion(env, s, lazyBodies.ids))
    decreases |env.Keys - lazyBodies.ids|, s, 1
  {
    match s {
      case ZObject(_, _) =>
        json := ConvertObject(env, s, lazyBodies);
      case ZString(_) => json := TypeOnly(TString);
      case ZNumber(_) => json := TypeOnly(TNumber);
      case ZBoolean => json := TypeOnly(TBoolean);
      case ZArray(element, _) =>
        var items := Convert(env, element, lazyBodies);
        json := OPEN.(typ := Some(TArray), items := Some(items));
      case ZEnum(options) => json := EnumOf(Strings(options));
      case ZLiteral(x) => json := EnumOf([x]);
      case ZOptional(inner) => json := Convert(env, inner, lazyBodies);
      case ZNullable(inner) => json := Convert(env, inner, lazyBodies);
      case ZDefault(inner, d) =>
        json := Convert(env, inner, lazyBodies);
        json := json.(default := Some(d));
      case ZUnion(choices) =>
        var branches := ConvertEach(env, choices, lazyBodies);
        json := OPEN.(anyOf := Branches(branches));
      case ZDiscriminatedUnion(_, choices) =>
        var branches := ConvertEach(env, choices, lazyBodies);
        json := OPEN.(oneOf := Branches(branches));
      case ZRecord(valueSchema) =>
        var values := Convert(env, valueSchema, lazyBodies);
        json := OPEN.(typ := Some(TObject), additionalProperties := Some(values));
      case ZLazy(id) =>
        if id in lazyBodies.ids {
          return OPEN;
        }
        FreshLazy(env.Keys, lazyBodies.ids, id);
        lazyBodies.ids := lazyBodies.ids + {id};
        json := Convert(env, env[id], lazyBodies);
      case ZUnknown => json := OPEN;
      case ZAny => json := OPEN;
      case ZOther(_) => json := OPEN;
    }
  }

  function Then(before: ConvertedList, last: Converted): ConvertedList
  {
    ConvertedList(before.jsons + [last.json], last.visited)
  }

  lemma {:induction false} FieldsSnoc(env: Env, shape: seq<Field>, last: Field, visited: set<nat>)
    requires forall j :: 0 <= j < |shape| ==> Closed(env, shape[j].schema)
    requires Closed(env, last.schema)
    ensures FieldsConversion(env, shape + [last], visited)
         == Then(FieldsConversion(env, shape, visited),
                 Conversion(env, last.schema, FieldsConversion(env, shape, visited).visited))
    decreases |shape|
  {
    if shape == [] {
      assert shape + [last] == [last];
    } else {
      assert (shape + [last])[1..] == shape[1..] + [last];
      FieldsSnoc(env, shape[1..], last, Conversion(env, shape[0].schema, visited).visited);
    }
  }

  /** What the loop of ConvertObject has built from the fields in `shape`. */
  ghost predicate FieldsDone(env: Env, shape: seq<Field>, start: set<nat>,
                             properties: seq<Property>, required: seq<string>, visited: set<nat>)
  {
    && (forall j :: 0 <= j < |shape| ==> Closed(env, shape[j].schema))
    && required == RequiredKeys(shape)
    && |properties| == |shape|
    && visited == FieldsConversion(env, shape, start).visited
    && forall j :: 0 <= j < |shape| ==>
         properties[j] == Property(shape[j].key, FieldsConversion(env, shape, start).jsons[j])
  }

  lemma FieldsDoneStep(env: Env, shape: seq<Field>, i: nat, start: set<nat>,
                       properties: seq<Property>, required: seq<string>, visited: set<nat>)
    requires i < |shape| && Closed(env, shape[i].schema)
    requires FieldsDone(env, shape[..i], start, properties, required, visited)
    ensures var last := shape[i]; var converted := Conversion(env, last.schema, visited);
            FieldsDone(env, shape[..i + 1], start, properties + [Property(last.key, converted.json)],
                       if IsOptional(last.schema) then required else required + [last.key],
                       converted.visited)
  {
    PrefixSnoc(shape, i);
    FieldsSnoc(env, shape[..i], shape[i], start);
    assert shape[..i + 1][..i] == shape[..i];
  }

  // The `options.map((s) => convert(s, lazyBodies))` of both unions.
  method ConvertEach(env: Env, ss: seq<Zod>, lazyBodies: LazyBodies) returns (jsons: seq<JsonSchema>)
    requires forall i :: 0 <= i < |ss| ==> Closed(env, ss[i])
    modifies lazyBodies
    ensures ConvertedList(jsons, lazyBodies.ids) == old(ListConversion(env, ss, lazyBodies.ids))
    decreases |env.Keys - lazyBodies.ids|, ss, 0
  {
    if ss == [] {
      return [];
    }
    ghost var start := lazyBodies.ids;
    var first := Convert(env, ss[0], lazyBodies);
    SubsetSize(env.Keys - lazyBodies.ids, env.Keys - start);
    var rest := ConvertEach(env, ss[1..], lazyBodies);
    jsons := [first] + rest;
  }

  method ConvertObject(env: Env, s: Zod, lazyBodies: LazyBodies) returns (json: JsonSchema)
    requires Closed(env, s) && s.ZObject?
    modifies lazyBodies
    ensures Converted(json, lazyBodies.ids) == old(Conversion(env, s, lazyBodies.ids))
    decreases |env.Keys - lazyBodies.ids|, s, 0
  {
    var shape := s.shape;
    var properties: seq<Property> := [];
    var required: seq<string> := [];
    ghost var start := lazyBodies.ids;
    for i := 0 to |shape|
      invariant start <= lazyBodies.ids
      invariant FieldsDone(env, shape[..i], start, properties, required, lazyBodies.ids)
    {
      SubsetSize(env.Keys - lazyBodies.ids, env.Keys - start);
      FieldsDoneStep(env, shape, i, start, properties, required, lazyBodies.ids);
      var converted := Convert(env, shape[i].schema, lazyBodies);
      properties := properties + [Property(shape[i].key, converted)];
      if !IsOptional(shape[i].schema) {
        required := required + [shape[i].key];
      }
    }
    PrefixAll(shape);
    json := OPEN.(typ := Some(TObject), properties := Properties(properties));
    if |required| > 0 {
      json := json.(required := Some(required));
    }
    assert properties == ObjectSchema(shape, FieldsConversion(env, shape, start).jsons).properties.list;
  }

  method CompileSchema(env: Env, s: Zod) returns (json: JsonSchema)
    requires Closed(env, s)
    ensures json == ZodToJsonSchema(env, s)
  {
    var lazyBodies := new LazyBodies();
    json := Convert(env, s, lazyBodies);
  }

  // ---------------------------------------------------------------- tool input

  /** `{ type: 'object', ...json }` with `properties` filled in. */
  function AsToolInput(json: JsonSchema): JsonSchema
  {
    if json.typ == Some(TObject) then json
    else
      json.(typ := Some(json.typ.GetOr(TObject)),
            properties := if json.properties.Properties? then json.properties else Properties([]))
  }

  method ToInputJsonSchema(env: Env, s: Zod) returns (wrapped: JsonSchema)
    requires Closed(env, s)
    ensures wrapped == AsToolInput(ZodToJsonSchema(env, s))
  {
    var json := CompileSchema(env, s);
    if json.typ == Some(TObject) {
      return json;
    }
    wrapped := OPEN.(typ := Some(TObject));
    wrapped := json.(typ := if json.typ.Some? then json.typ else wrapped.typ);
    if wrapped.properties.NoProperties? {
      wrapped := wrapped.(properties := Properties([]));
    }
  }

  /** Presenting a schema as tool input rejects no object it accepted, and
      admits none it rejected. */
  lemma ToolInputKeepsObjects(json: JsonSchema, fields: map<string, Json>)
    ensures Valid(AsToolInput(json), JObj(fields)) <==> Valid(json, JObj(fields))
  {
    var wrapped := AsToolInput(json);
    assert PropertyList(wrapped) == PropertyList(json);
    if json.typ != Some(TObject) && json.typ.None? {
      assert Valid(wrapped, JObj(fields)) == Valid(json.(typ := Some(TObject)), JObj(fields));
    }
  }

  /** What the compiler looks through at the root: optional, nullable and
      default wrappers and lazy nodes not met before. */
  function Core(env: Env, s: Zod, visited: set<nat>): Zod
    requires Closed(env, s)
    decreases |env.Keys - visited|, s
  {
    match s
    case ZOptional(inner) => Core(env, inner, visited)
    case ZNullable(inner) => Core(env, inner, visited)
    case ZDefault(inner, _) => Core(env, inner, visited)
    case ZLazy(id) =>
      if id in visited then s
      else
        FreshLazy(env.Keys, visited, id);
        Core(env, env[id], visited + {id})
    case _ => s
  }

  predicate IsScalarOrArray(s: Zod)
  {
    s.ZString? || s.ZNumber? || s.ZBoolean? || s.ZArray? || s.ZEnum? || s.ZLiteral?
  }

  /** What an optional, nullable or default wrapper holds. */
  function Unwrapped(s: Zod): Option<Zod>
  {
    match s
    case ZOptional(inner) => Some(inner)
    case ZNullable(inner) => Some(inner)
    case ZDefault(inner, _) => Some(inner)
    case _ => None
  }

  lemma TypeOfPlain(env: Env, s: Zod, visited: set<nat>)
    requires Closed(env, s) && Unwrapped(s).None? && !s.ZLazy?
    ensures Core(env, s, visited) == s
    ensures var t := Conversion(env, s, visited).json.typ;
            t.None? || t == Some(TObject) <==> !IsScalarOrArray(s)
  {
  }

  lemma RootOfWrapper(env: Env, s: Zod, visited: set<nat>)
    requires Closed(env, s) && Unwrapped(s).Some?
    ensures Closed(env, Unwrapped(s).value) && Unwrapped(s).value < s
    ensures Core(env, s, visited) == Core(env, Unwrapped(s).value, visited)
    ensures var js, inner := Conversion(env, s, visited).json, Conversion(env, Unwrapped(s).value, visited).json;
            js.typ == inner.typ && js.properties == inner.properties && js.required == inner.required
  {
  }

  lemma {:induction false} RootType(env: Env, s: Zod, visited: set<nat>)
    requires Closed(env, s)
    ensures var t := Conversion(env, s, visited).json.typ;
            t.None? || t == Some(TObject) <==> !IsScalarOrArray(Core(env, s, visited))
    decreases |env.Keys - visited|, s
  {
    if Unwrapped(s).Some? {
      RootOfWrapper(env, s, visited);
      RootType(env, Unwrapped(s).value, visited);
    } else if s.ZLazy? {
      if s.id !in visited {
        FreshLazy(env.Keys, visited, s.id);
        RootType(env, env[s.id], visited + {s.id});
      }
    } else {
      TypeOfPlain(env, s, visited);
    }
  }

  /** The advertised root is an object schema exactly when the root, looked at
      through its wrappers, is not a scalar or an array: an explicit other type
      wins over the `type: 'object'` it is spread onto. */
  lemma ToolInputTypeIff(env: Env, s: Zod)
    requires Closed(env, s)
    ensures AsToolInput(ZodToJsonSchema(env, s)).typ == Some(TObject)
       <==> !IsScalarOrArray(Core(env, s, {}))
  {
    RootType(env, s, {});
  }

  function PropertyKeys(ps: seq<Property>): seq<string>
  {
    seq(|ps|, i requires 0 <= i < |ps| => ps[i].key)
  }

  function ShapeKeys(shape: seq<Field>): seq<string>
  {
    seq(|shape|, i requires 0 <= i < |shape| => shape[i].key)
  }

  /** Only an object brings properties, those of its shape, and a `required` list if a
      field has no wrapper; only an object or a record is typed as an object. */
  ghost predicate RootAgrees(js: JsonSchema, core: Zod)
  {
    && (js.properties.Properties? <==> core.ZObject?)
    && (core.ZObject? ==> PropertyKeys(js.properties.list) == ShapeKeys(core.shape))
    && (js.typ == Some(TObject) <==> core.ZObject? || core.ZRecord?)
    && (js.required.Some? <==> core.ZObject? && exists i :: 0 <= i < |core.shape| && !IsOptional(core.shape[i].schema))
  }

  lemma {:induction false} RootProperties(env: Env, s: Zod, visited: set<nat>)
    requires Closed(env, s)
    ensures RootAgrees(Conversion(env, s, visited).json, Core(env, s, visited))
    decreases |env.Keys - visited|, s
  {
    if Unwrapped(s).Some? {
      RootOfWrapper(env, s, visited);
      RootProperties(env, Unwrapped(s).value, visited);
    } else if s.ZLazy? {
      if s.id !in visited {
        FreshLazy(env.Keys, visited, s.id);
        RootProperties(env, env[s.id], visited + {s.id});
      }
    } else {
      PropertiesOfPlain(env, s, visited);
    }
  }

  lemma {:induction false} SomethingRequired(shape: seq<Field>)
    ensures RequiredKeys(shape) != [] <==> exists i :: 0 <= i < |shape| && !IsOptional(shape[i].schema)
  {
    if shape != [] {
      SomethingRequired(shape[..|shape| - 1]);
    }
  }

  lemma PropertiesOfPlain(env: Env, s: Zod, visited: set<nat>)
    requires Closed(env, s) && Unwrapped(s).None? && !s.ZLazy?
    ensures RootAgrees(Conversion(env, s, visited).json, Core(env, s, visited))
  {
    if s.ZObject? {
      var js := Conversion(env, s, visited).json;
      assert PropertyKeys(js.properties.list) == ShapeKeys(s.shape);
      SomethingRequired(s.shape);
    }
  }

  /** The advertised schema lists the properties of the root object; a root that is a
      record lists none, and every other root an empty list. */
  lemma ToolInputProperties(env: Env, s: Zod)
    requires Closed(env, s)
    ensures var ps, core := AsToolInput(ZodToJsonSchema(env, s)).properties, Core(env, s, {});
            && (ps.NoProperties? <==> core.ZRecord?)
            && (ps.Properties? ==> PropertyKeys(ps.list) == if core.ZObject? then ShapeKeys(core.shape) else [])
  {
    RootProperties(env, s, {});
  }
}
