// packages/flutter-ultra-gesture/src/json-schema.ts:83-94
//
// How a client learns the default of a field: which `default` each place of a
// generated schema shows, read off the Zod schema.
module SchemaDefaults {
  import opened Collections
  import opened ZodSchema

  /** The default of the outermost default wrapper, looking through optional and
      nullable wrappers and lazy nodes not met before. */
  function DefaultOf(env: Env, s: Zod, visited: set<nat>): Option<Json>
    requires Closed(env, s)
    decreases |env.Keys - visited|, s
  {
    match s
    case ZDefault(_, d) => Some(d)
    case ZOptional(inner) => DefaultOf(env, inner, visited)
    case ZNullable(inner) => DefaultOf(env, inner, visited)
    case ZLazy(id) =>
      if id in visited then None
      else
        FreshLazy(env.Keys, visited, id);
        DefaultOf(env, env[id], visited + {id})
    case _ => None
  }

  // Where a schema holds another.
  datatype Place = OfField(key: string) | OfItems | OfChoice | OfValues

  // The defaults of a schema: its own, and those of every schema in it.
  datatype Defaults = Defaults(here: Option<Json>, below: seq<At>)
  datatype At = At(place: Place, defaults: Defaults)

  // ---------------------------------------------------------------- what is shown

  function Shown(js: JsonSchema): Defaults
  {
    Defaults(js.default,
             (if js.properties.Properties? then ShownFields(js.properties.list) else [])
             + (if js.items.Some? then [At(OfItems, Shown(js.items.value))] else [])
             + (if js.anyOf.Branches? then ShownChoices(js.anyOf.list) else [])
             + (if js.oneOf.Branches? then ShownChoices(js.oneOf.list) else [])
             + if js.additionalProperties.Some? then [At(OfValues, Shown(js.additionalProperties.value))] else [])
  }

  function ShownFields(ps: seq<Property>): seq<At>
  {
    if ps == [] then [] else [At(OfField(ps[0].key), Shown(ps[0].schema))] + ShownFields(ps[1..])
  }

  function ShownChoices(branches: seq<JsonSchema>): seq<At>
  {
    if branches == [] then [] else [At(OfChoice, Shown(branches[0]))] + ShownChoices(branches[1..])
  }

  // ---------------------------------------------------------------- what the Zod schema holds

  function Held(env: Env, s: Zod, visited: set<nat>): Defaults
    requires Closed(env, s)
    decreases |env.Keys - visited|, s, 1
  {
    Defaults(DefaultOf(env, s, visited), HeldBelow(env, s, visited))
  }

  function HeldBelow(env: Env, s: Zod, visited: set<nat>): seq<At>
    requires Closed(env, s)
    decreases |env.Keys - visited|, s, 0
  {
    match s
    case ZObject(shape, _) => HeldFields(env, shape, visited)
    case ZArray(e, _) => [At(OfItems, Held(env, e, visited))]
    case ZUnion(cs) => HeldChoices(env, cs, visited)
    case ZDiscriminatedUnion(_, cs) => HeldChoices(env, cs, visited)
    case ZRecord(vs) => [At(OfValues, Held(env, vs, visited))]
    case ZOptional(inner) => HeldBelow(env, inner, visited)
    case ZNullable(inner) => HeldBelow(env, inner, visited)
    case ZDefault(inner, _) => HeldBelow(env, inner, visited)
    case ZLazy(id) =>
      if id in visited then []
      else
        FreshLazy(env.Keys, visited, id);
        HeldBelow(env, env[id], visited + {id})
    case _ => []
  }

  function HeldFields(env: Env, shape: seq<Field>, visited: set<nat>): seq<At>
    requires forall i :: 0 <= i < |shape| ==> Closed(env, shape[i].schema)
    decreases |env.Keys - visited|, shape, 0
  {
    if shape == [] then []
    else
      var next := Conversion(env, shape[0].schema, visited).visited;
      SubsetSize(env.Keys - next, env.Keys - visited);
      [At(OfField(shape[0].key), Held(env, shape[0].schema, visited))] + HeldFields(env, shape[1..], next)
  }

  function HeldChoices(env: Env, ss: seq<Zod>, visited: set<nat>): seq<At>
    requires forall i :: 0 <= i < |ss| ==> Closed(env, ss[i])
    decreases |env.Keys - visited|, ss, 0
  {
    if ss == [] then []
    else
      var next := Conversion(env, ss[0], visited).visited;
      SubsetSize(env.Keys - next, env.Keys - visited);
      [At(OfChoice, Held(env, ss[0], visited))] + HeldChoices(env, ss[1..], next)
  }

  // ---------------------------------------------------------------- they agree

  /** A schema shows a default exactly if the reading above finds one, and that. */
  lemma {:induction false} DefaultIsShown(env: Env, s: Zod, visited: set<nat>)
    requires Closed(env, s)
    ensures Conversion(env, s, visited).json.default == DefaultOf(env, s, visited)
    decreases |env.Keys - visited|, s
  {
    if s.ZOptional? || s.ZNullable? {
      LooksThrough(env, s, visited);
      DefaultIsShown(env, s.inner, visited);
    } else if s.ZLazy? && s.id !in visited {
      FreshLazy(env.Keys, visited, s.id);
      DefaultIsShown(env, env[s.id], visited + {s.id});
    } else {
      OwnDefault(env, s, visited);
    }
  }

  lemma LooksThrough(env: Env, s: Zod, visited: set<nat>)
    requires Closed(env, s) && (s.ZOptional? || s.ZNullable?)
    ensures Closed(env, s.inner) && s.inner < s
    ensures Conversion(env, s, visited) == Conversion(env, s.inner, visited)
    ensures DefaultOf(env, s, visited) == DefaultOf(env, s.inner, visited)
  {
  }

  lemma OwnDefault(env: Env, s: Zod, visited: set<nat>)
    requires Closed(env, s) && !s.ZOptional? && !s.ZNullable? && (s.ZLazy? ==> s.id in visited)
    ensures Conversion(env, s, visited).json.default == DefaultOf(env, s, visited)
  {
  }

  ghost predicate Agrees(env: Env, s: Zod, visited: set<nat>)
    requires Closed(env, s)
  {
    Shown(Conversion(env, s, visited).json) == Held(env, s, visited)
  }

  /** And so does every schema in it, down to the leaves: every field, item, choice
      and value of a record shows the default that the Zod schema holds for it. */
  lemma {:induction false} DefaultsAreShown(env: Env, s: Zod, visited: set<nat>)
    requires Closed(env, s)
    ensures Agrees(env, s, visited)
    decreases |env.Keys - visited|, s, 1
  {
    if s.ZOptional? || s.ZNullable? || s.ZDefault? {
      WrapperShows(env, s, visited);
    } else if s.ZLazy? && s.id !in visited {
      LazyShows(env, s, visited);
    } else if s.ZObject? {
      FieldsAreShown(env, s.shape, visited);
      ObjectShows(env, s, visited);
    } else if s.ZUnion? || s.ZDiscriminatedUnion? {
      ChoicesAreShown(env, s.choices, visited);
      UnionShows(env, s, visited);
    } else if s.ZArray? || s.ZRecord? {
      ContainerShows(env, s, visited);
    } else {
      PlainShows(env, s, visited);
    }
  }

  lemma PlainShows(env: Env, s: Zod, visited: set<nat>)
    requires Closed(env, s) && (s.ZLazy? ==> s.id in visited)
    requires !s.ZOptional? && !s.ZNullable? && !s.ZDefault? && !s.ZObject? && !s.ZUnion?
          && !s.ZDiscriminatedUnion? && !s.ZArray? && !s.ZRecord?
    ensures Agrees(env, s, visited)
  {
  }

  lemma LazyShows(env: Env, s: Zod, visited: set<nat>)
    requires Closed(env, s) && s.ZLazy? && s.id !in visited
    ensures Agrees(env, s, visited)
    decreases |env.Keys - visited|, s, 0
  {
    FreshLazy(env.Keys, visited, s.id);
    DefaultsAreShown(env, env[s.id], visited + {s.id});
  }

  lemma ObjectShows(env: Env, s: Zod, visited: set<nat>)
    requires Closed(env, s) && s.ZObject?
    requires var jsons := FieldsConversion(env, s.shape, visited).jsons;
             ShownFields(ObjectSchema(s.shape, jsons).properties.list) == HeldFields(env, s.shape, visited)
    ensures Agrees(env, s, visited)
  {
    ShownObject(s.shape, FieldsConversion(env, s.shape, visited).jsons);
  }

  lemma ShownObject(shape: seq<Field>, jsons: seq<JsonSchema>)
    requires |shape| == |jsons|
    ensures var js := ObjectSchema(shape, jsons);
            Shown(js) == Defaults(None, ShownFields(js.properties.list))
  {
  }

  lemma ShownUnion(branches: seq<JsonSchema>)
    ensures Shown(OPEN.(anyOf := Branches(branches))) == Defaults(None, ShownChoices(branches))
    ensures Shown(OPEN.(oneOf := Branches(branches))) == Defaults(None, ShownChoices(branches))
  {
  }

  lemma UnionShows(env: Env, s: Zod, visited: set<nat>)
    requires Closed(env, s) && (s.ZUnion? || s.ZDiscriminatedUnion?)
    requires ShownChoices(ListConversion(env, s.choices, visited).jsons) == HeldChoices(env, s.choices, visited)
    ensures Agrees(env, s, visited)
  {
    var jsons := ListConversion(env, s.choices, visited).jsons;
    ShownUnion(jsons);
    UnionIs(env, s, visited);
  }

  lemma UnionIs(env: Env, s: Zod, visited: set<nat>)
    requires Closed(env, s) && (s.ZUnion? || s.ZDiscriminatedUnion?)
    ensures var jsons := ListConversion(env, s.choices, visited).jsons;
            Conversion(env, s, visited).json
            == if s.ZUnion? then OPEN.(anyOf := Branches(jsons)) else OPEN.(oneOf := Branches(jsons))
    ensures Held(env, s, visited) == Defaults(None, HeldChoices(env, s.choices, visited))
  {
  }

  lemma ContainerShows(env: Env, s: Zod, visited: set<nat>)
    requires Closed(env, s) && (s.ZArray? || s.ZRecord?)
    ensures Agrees(env, s, visited)
    decreases |env.Keys - visited|, s, 0
  {
    DefaultsAreShown(env, if s.ZArray? then s.element else s.valueSchema, visited);
  }

  lemma WrapperShows(env: Env, s: Zod, visited: set<nat>)
    requires Closed(env, s) && (s.ZOptional? || s.ZNullable? || s.ZDefault?)
    ensures Agrees(env, s, visited)
    decreases |env.Keys - visited|, s, 0
  {
    DefaultIsShown(env, s, visited);
    DefaultsAreShown(env, s.inner, visited);
    BelowWrapper(env, s, visited);
  }

  lemma BelowWrapper(env: Env, s: Zod, visited: set<nat>)
    requires Closed(env, s) && (s.ZOptional? || s.ZNullable? || s.ZDefault?)
    ensures Closed(env, s.inner)
    ensures Shown(Conversion(env, s, visited).json).below == Shown(Conversion(env, s.inner, visited).json).below
  {
    if s.ZDefault? {
      OnlyTheDefault(Conversion(env, s.inner, visited).json, s.defaultValue);
    }
  }

  lemma OnlyTheDefault(js: JsonSchema, d: Json)
    ensures Shown(js.(default := Some(d))).below == Shown(js).below
  {
  }

  lemma {:induction false} FieldsAreShown(env: Env, shape: seq<Field>, visited: set<nat>)
    requires forall i :: 0 <= i < |shape| ==> Closed(env, shape[i].schema)
    ensures var jsons := FieldsConversion(env, shape, visited).jsons;
            ShownFields(ObjectSchema(shape, jsons).properties.list) == HeldFields(env, shape, visited)
    decreases |env.Keys - visited|, shape, 0
  {
    if shape != [] {
      var first := Conversion(env, shape[0].schema, visited);
      SubsetSize(env.Keys - first.visited, env.Keys - visited);
      DefaultsAreShown(env, shape[0].schema, visited);
      FieldsAreShown(env, shape[1..], first.visited);
      FirstProperty(shape, first.json, FieldsConversion(env, shape[1..], first.visited).jsons);
    }
  }

  lemma FirstProperty(shape: seq<Field>, first: JsonSchema, rest: seq<JsonSchema>)
    requires shape != [] && |rest| == |shape| - 1
    ensures ObjectSchema(shape, [first] + rest).properties.list
         == [Property(shape[0].key, first)] + ObjectSchema(shape[1..], rest).properties.list
  {
  }

  lemma {:induction false} ChoicesAreShown(env: Env, ss: seq<Zod>, visited: set<nat>)
    requires forall i :: 0 <= i < |ss| ==> Closed(env, ss[i])
    ensures ShownChoices(ListConversion(env, ss, visited).jsons) == HeldChoices(env, ss, visited)
    decreases |env.Keys - visited|, ss, 0
  {
    if ss != [] {
      var first := Conversion(env, ss[0], visited);
      SubsetSize(env.Keys - first.visited, env.Keys - visited);
      DefaultsAreShown(env, ss[0], visited);
      ChoicesAreShown(env, ss[1..], first.visited);
    }
  }
}
