// What packages/flutter-ultra-gesture/src/json-schema.ts promises: a value the
// Zod validator takes is never ruled out by the advertised JSON Schema. Where
// nothing but a revisited lazy node is dropped, the schema is no looser either.
module SchemaSoundness {
  import opened Collections
  import opened ZodSchema

  function ZodToJsonSchema(env: Env, s: Zod): JsonSchema
    requires Closed(env, s)
  {
    Conversion(env, s, {}).json
  }

  // ---------------------------------------------------------------- fragment

  /** A field of this schema may be left out of an accepted object. */
  ghost predicate MayBeAbsent(env: Env, s: Zod)
  {
    exists fuel: nat :: Accepts(env, s, None, fuel)
  }

  ghost predicate DistinctKeys(shape: seq<Field>)
  {
    forall i, j :: 0 <= i < j < |shape| ==> shape[i].key != shape[j].key
  }

  predicate IsTag(s: Zod)
  {
    s.ZEnum? || (s.ZLiteral? && s.value.JStr?)
  }

  ghost predicate Discriminated(option: Zod, key: string)
  {
    option.ZObject? && exists i :: 0 <= i < |option.shape| && option.shape[i].key == key
                                   && IsTag(option.shape[i].schema)
  }

  predicate CarriesTag(option: Zod, key: string, v: Json)
  {
    && v.JObj? && key in v.fields && v.fields[key].JStr?
    && v.fields[key].s in DiscriminatorValues(option, key)
  }

  ghost predicate DisjointTags(choices: seq<Zod>, key: string)
  {
    forall i, j, x :: 0 <= i < j < |choices| && x in DiscriminatorValues(choices[i], key)
      ==> x !in DiscriminatorValues(choices[j], key)
  }

  /** A discriminated union as Zod builds it, over strings: object options, each
      with its tags under the discriminator, no tag twice. */
  ghost predicate GoodOptions(choices: seq<Zod>, key: string)
  {
    && DisjointTags(choices, key)
    && forall i :: 0 <= i < |choices| ==> Discriminated(choices[i], key) && DistinctKeys(choices[i].shape)
  }

  /** No nullable, only string literals, a field absent only through an
      optional or default wrapper, and discriminated unions as Zod builds them. */
  ghost predicate Fragment(env: Env, s: Zod)
    decreases s
  {
    match s
    case ZObject(shape, _) =>
      && DistinctKeys(shape)
      && forall i :: 0 <= i < |shape| ==>
           && Fragment(env, shape[i].schema)
           && (IsOptional(shape[i].schema) || !MayBeAbsent(env, shape[i].schema))
    case ZArray(e, _) => Fragment(env, e)
    case ZLiteral(x) => x.JStr?
    case ZOptional(inner) => Fragment(env, inner)
    case ZNullable(_) => false
    case ZDefault(inner, _) => Fragment(env, inner)
    case ZUnion(cs) => forall i :: 0 <= i < |cs| ==> Fragment(env, cs[i])
    case ZDiscriminatedUnion(key, cs) =>
      && GoodOptions(cs, key)
      && forall i :: 0 <= i < |cs| ==> Fragment(env, cs[i])
    case ZRecord(vs) => Fragment(env, vs)
    case _ => true
  }

  ghost predicate GraphFragment(env: Env, s: Zod)
  {
    Fragment(env, s) && forall id :: id in env ==> Fragment(env, env[id])
  }

  /** What Zod and JavaScript see to themselves: no key twice in a shape, and
      discriminated unions as Zod builds them. */
  ghost predicate WellMade(s: Zod)
    decreases s
  {
    match s
    case ZObject(shape, _) => DistinctKeys(shape) && forall i :: 0 <= i < |shape| ==> WellMade(shape[i].schema)
    case ZArray(e, _) => WellMade(e)
    case ZOptional(inner) => WellMade(inner)
    case ZNullable(inner) => WellMade(inner)
    case ZDefault(inner, _) => WellMade(inner)
    case ZUnion(cs) => forall i :: 0 <= i < |cs| ==> WellMade(cs[i])
    case ZDiscriminatedUnion(key, cs) => GoodOptions(cs, key) && forall i :: 0 <= i < |cs| ==> WellMade(cs[i])
    case ZRecord(vs) => WellMade(vs)
    case _ => true
  }

  ghost predicate GraphWellMade(env: Env, s: Zod)
  {
    WellMade(s) && forall id :: id in env ==> WellMade(env[id])
  }

  lemma {:induction false} FragmentIsWellMade(env: Env, s: Zod)
    requires Fragment(env, s)
    ensures WellMade(s)
    decreases s
  {
    match s
    case ZObject(shape, _) =>
      forall i | 0 <= i < |shape| ensures WellMade(shape[i].schema) { FragmentIsWellMade(env, shape[i].schema); }
    case ZArray(e, _) => FragmentIsWellMade(env, e);
    case ZOptional(inner) => FragmentIsWellMade(env, inner);
    case ZDefault(inner, _) => FragmentIsWellMade(env, inner);
    case ZUnion(cs) => forall i | 0 <= i < |cs| ensures WellMade(cs[i]) { FragmentIsWellMade(env, cs[i]); }
    case ZDiscriminatedUnion(_, cs) =>
      forall i | 0 <= i < |cs| ensures WellMade(cs[i]) { FragmentIsWellMade(env, cs[i]); }
    case ZRecord(vs) => FragmentIsWellMade(env, vs);
    case _ =>
  }

  lemma GraphFragmentIsWellMade(env: Env, s: Zod)
    requires GraphFragment(env, s)
    ensures GraphWellMade(env, s)
  {
    FragmentIsWellMade(env, s);
    forall id | id in env ensures WellMade(env[id]) { FragmentIsWellMade(env, env[id]); }
  }

  // ---------------------------------------------------------------- unrolling

  /** The schema that compiling s from `visited` describes: a lazy node is
      replaced by its body, and one met again by `unknown`. */
  ghost function Unroll(env: Env, s: Zod, visited: set<nat>): Zod
    requires Closed(env, s)
    decreases |env.Keys - visited|, s
  {
    match s
    case ZObject(shape, strict) => ZObject(UnrollFields(env, shape, visited), strict)
    case ZArray(e, ok) => ZArray(Unroll(env, e, visited), ok)
    case ZOptional(inner) => ZOptional(Unroll(env, inner, visited))
    case ZNullable(inner) => ZNullable(Unroll(env, inner, visited))
    case ZDefault(inner, d) => ZDefault(Unroll(env, inner, visited), d)
    case ZUnion(cs) => ZUnion(UnrollList(env, cs, visited))
    case ZDiscriminatedUnion(key, cs) => ZDiscriminatedUnion(key, UnrollList(env, cs, visited))
    case ZRecord(vs) => ZRecord(Unroll(env, vs, visited))
    case ZLazy(id) =>
      if id in visited then ZUnknown
      else
        FreshLazy(env.Keys, visited, id);
        Unroll(env, env[id], visited + {id})
    case _ => s
  }

  ghost function UnrollList(env: Env, ss: seq<Zod>, visited: set<nat>): (r: seq<Zod>)
    requires forall i :: 0 <= i < |ss| ==> Closed(env, ss[i])
    ensures |r| == |ss|
    decreases |env.Keys - visited|, ss
  {
    if ss == [] then []
    else
      var next := Conversion(env, ss[0], visited).visited;
      SubsetSize(env.Keys - next, env.Keys - visited);
      [Unroll(env, ss[0], visited)] + UnrollList(env, ss[1..], next)
  }

  ghost function UnrollFields(env: Env, shape: seq<Field>, visited: set<nat>): (r: seq<Field>)
    requires forall i :: 0 <= i < |shape| ==> Closed(env, shape[i].schema)
    ensures |r| == |shape|
    decreases |env.Keys - visited|, shape
  {
    if shape == [] then []
    else
      var next := Conversion(env, shape[0].schema, visited).visited;
      SubsetSize(env.Keys - next, env.Keys - visited);
      [Field(shape[0].key, Unroll(env, shape[0].schema, visited))] + UnrollFields(env, shape[1..], next)
  }

  // ---------------------------------------------------------------- siblings

  /** Each sibling is converted from some visited set. */
  lemma {:induction false} ListAt(env: Env, ss: seq<Zod>, visited: set<nat>, i: nat) returns (vi: set<nat>)
    requires forall j :: 0 <= j < |ss| ==> Closed(env, ss[j])
    requires i < |ss|
    ensures visited <= vi
    ensures ListConversion(env, ss, visited).jsons[i] == Conversion(env, ss[i], vi).json
    ensures UnrollList(env, ss, visited)[i] == Unroll(env, ss[i], vi)
    decreases i
  {
    if i == 0 {
      vi := visited;
    } else {
      vi := ListAt(env, ss[1..], Conversion(env, ss[0], visited).visited, i - 1);
    }
  }

  lemma {:induction false} FieldAt(env: Env, shape: seq<Field>, visited: set<nat>, i: nat) returns (vi: set<nat>)
    requires forall j :: 0 <= j < |shape| ==> Closed(env, shape[j].schema)
    requires i < |shape|
    ensures visited <= vi
    ensures FieldsConversion(env, shape, visited).jsons[i] == Conversion(env, shape[i].schema, vi).json
    ensures UnrollFields(env, shape, visited)[i] == Field(shape[i].key, Unroll(env, shape[i].schema, vi))
    decreases i
  {
    if i == 0 {
      vi := visited;
    } else {
      vi := FieldAt(env, shape[1..], Conversion(env, shape[0].schema, visited).visited, i - 1);
    }
  }

  predicate HasWrapper(s: Zod) { s.ZOptional? || s.ZDefault? || s.ZNullable? }

  /** A key is required exactly if a field of that key has none of the wrappers. */
  lemma {:induction false} RequiredIff(shape: seq<Field>, k: string)
    ensures k in RequiredKeys(shape)
       <==> exists i :: 0 <= i < |shape| && shape[i].key == k && !HasWrapper(shape[i].schema)
  {
    if shape != [] {
      RequiredIff(shape[..|shape| - 1], k);
    }
  }

  lemma DefaultAssertsNothing(js: JsonSchema, d: Json, v: Json)
    ensures Valid(js.(default := Some(d)), v) == Valid(js, v)
  {
  }

  /** Optional, nullable and default wrappers leave the advertised values alone. */
  lemma WrapperAssertsNothing(env: Env, s: Zod, visited: set<nat>, v: Json)
    requires Closed(env, s) && IsOptional(s)
    ensures Closed(env, s.inner) && s.inner < s
    ensures Valid(Conversion(env, s, visited).json, v) <==> Valid(Conversion(env, s.inner, visited).json, v)
  {
    if s.ZDefault? {
      DefaultAssertsNothing(Conversion(env, s.inner, visited).json, s.defaultValue, v);
    }
  }

  // ---------------------------------------------------------------- discriminated unions

  lemma {:induction false} TagField(shape: seq<Field>, key: string, i: nat)
    requires DistinctKeys(shape) && i < |shape| && shape[i].key == key && IsTag(shape[i].schema)
    ensures ValuesAt(shape, key)
         == if shape[i].schema.ZEnum? then shape[i].schema.options else [shape[i].schema.value.s]
  {
    if i > 0 {
      TagField(shape[1..], key, i - 1);
    }
  }

  lemma PropertyHolds(js: JsonSchema, v: Json, i: nat)
    requires Valid(js, v) && v.JObj? && js.properties.Properties? && i < |js.properties.list|
    requires js.properties.list[i].key in v.fields
    ensures Valid(js.properties.list[i].schema, v.fields[js.properties.list[i].key])
  {
  }

  /** The compiled form of a tag schema takes exactly its strings. */
  lemma TagValid(env: Env, tag: Zod, visited: set<nat>, v: Json)
    requires Closed(env, tag) && IsTag(tag)
    ensures Valid(Conversion(env, tag, visited).json, v)
       <==> v.JStr? && v.s in if tag.ZEnum? then tag.options else [tag.value.s]
  {
    if tag.ZEnum? {
      forall i | 0 <= i < |tag.options| ensures Strings(tag.options)[i] == JStr(tag.options[i]) {}
      if v.JStr? && v.s in tag.options {
        var i :| 0 <= i < |tag.options| && tag.options[i] == v.s;
        assert Strings(tag.options)[i] == v;
      }
    }
  }

  /** A value the converted option lets through carries one of its tags. */
  lemma OptionFixesTag(env: Env, option: Zod, key: string, visited: set<nat>, v: Json)
    requires Closed(env, option) && Discriminated(option, key) && DistinctKeys(option.shape)
    requires Valid(Conversion(env, option, visited).json, v)
    ensures CarriesTag(option, key, v)
  {
    var shape := option.shape;
    var i :| 0 <= i < |shape| && shape[i].key == key && IsTag(shape[i].schema);
    TagField(shape, key, i);
    RequiredIff(shape, key);
    var vi := FieldAt(env, shape, visited, i);
    var js := Conversion(env, option, visited).json;
    assert key in js.required.value;
    PropertyHolds(js, v, i);
    TagValid(env, shape[i].schema, vi, v.fields[key]);
  }

  // ---------------------------------------------------------------- soundness

  lemma SoundObject(env: Env, s: Zod, visited: set<nat>, v: Json, fuel: nat)
    requires Closed(env, s) && GraphFragment(env, s) && s.ZObject?
    requires Accepts(env, s, Some(v), fuel)
    ensures Valid(Conversion(env, s, visited).json, v)
    decreases fuel, s, 0
  {
    var shape := s.shape;
    var js := Conversion(env, s, visited).json;
    forall i | 0 <= i < |shape| && shape[i].key in v.fields
      ensures Valid(js.properties.list[i].schema, v.fields[js.properties.list[i].key])
    {
      assert Get(v.fields, shape[i].key) == Some(v.fields[shape[i].key]);
      var vi := FieldAt(env, shape, visited, i);
      Sound(env, shape[i].schema, vi, v.fields[shape[i].key], fuel);
    }
    forall k | k in RequiredKeys(shape)
      ensures k in v.fields
    {
      RequiredIff(shape, k);
      var i :| 0 <= i < |shape| && shape[i].key == k && !IsOptional(shape[i].schema);
      assert Accepts(env, shape[i].schema, Get(v.fields, k), fuel);
    }
  }

  lemma SoundDiscriminated(env: Env, s: Zod, visited: set<nat>, v: Json, fuel: nat)
    requires Closed(env, s) && GraphFragment(env, s) && s.ZDiscriminatedUnion?
    requires Accepts(env, s, Some(v), fuel)
    ensures Valid(Conversion(env, s, visited).json, v)
    decreases fuel, s, 0
  {
    var cs, key := s.choices, s.discriminator;
    var jsons := ListConversion(env, cs, visited).jsons;
    var i := ChosenOption(env, s, v, fuel);
    var vi := ListAt(env, cs, visited, i);
    Sound(env, cs[i], vi, v, fuel);
    OnlyOneOption(env, s, visited, v, i);
    OneOfHolds(jsons, v, i);
  }

  /** Two converted options never both accept: their tags differ. */
  lemma OnlyOneOption(env: Env, s: Zod, visited: set<nat>, v: Json, i: nat)
    requires Closed(env, s) && s.ZDiscriminatedUnion? && i < |s.choices|
    requires GoodOptions(s.choices, s.discriminator)
    requires Valid(ListConversion(env, s.choices, visited).jsons[i], v)
    ensures var jsons := ListConversion(env, s.choices, visited).jsons;
            forall j :: 0 <= j < |jsons| && Valid(jsons[j], v) ==> j == i
  {
    var jsons := ListConversion(env, s.choices, visited).jsons;
    ValidOptionTag(env, s, visited, v, i);
    forall j | 0 <= j < |jsons| && Valid(jsons[j], v)
      ensures j == i
    {
      ValidOptionTag(env, s, visited, v, j);
    }
  }

  lemma ValidOptionTag(env: Env, s: Zod, visited: set<nat>, v: Json, i: nat)
    requires Closed(env, s) && s.ZDiscriminatedUnion? && i < |s.choices|
    requires GoodOptions(s.choices, s.discriminator)
    requires Valid(ListConversion(env, s.choices, visited).jsons[i], v)
    ensures CarriesTag(s.choices[i], s.discriminator, v)
  {
    var vi := ListAt(env, s.choices, visited, i);
    OptionFixesTag(env, s.choices[i], s.discriminator, vi, v);
  }

  lemma ChosenOption(env: Env, s: Zod, v: Json, fuel: nat) returns (i: nat)
    requires s.ZDiscriminatedUnion? && Accepts(env, s, Some(v), fuel)
    ensures i < |s.choices| && CarriesTag(s.choices[i], s.discriminator, v)
    ensures Accepts(env, s.choices[i], Some(v), fuel)
  {
    i :| 0 <= i < |s.choices|
         && v.fields[s.discriminator].s in DiscriminatorValues(s.choices[i], s.discriminator)
         && Accepts(env, s.choices[i], Some(v), fuel);
  }

  lemma OneOfHolds(branches: seq<JsonSchema>, v: Json, i: nat)
    requires i < |branches| && Valid(branches[i], v)
    requires forall j :: 0 <= j < |branches| && Valid(branches[j], v) ==> j == i
    ensures Valid(OPEN.(oneOf := Branches(branches)), v)
  {
  }

  lemma SoundUnion(env: Env, s: Zod, visited: set<nat>, v: Json, fuel: nat)
    requires Closed(env, s) && GraphFragment(env, s) && s.ZUnion?
    requires Accepts(env, s, Some(v), fuel)
    ensures Valid(Conversion(env, s, visited).json, v)
    decreases fuel, s, 0
  {
    var i :| 0 <= i < |s.choices| && Accepts(env, s.choices[i], Some(v), fuel);
    var vi := ListAt(env, s.choices, visited, i);
    Sound(env, s.choices[i], vi, v, fuel);
    assert Valid(ListConversion(env, s.choices, visited).jsons[i], v);
  }

  lemma SoundContainer(env: Env, s: Zod, visited: set<nat>, v: Json, fuel: nat)
    requires Closed(env, s) && GraphFragment(env, s) && (s.ZArray? || s.ZRecord?)
    requires Accepts(env, s, Some(v), fuel)
    ensures Valid(Conversion(env, s, visited).json, v)
    decreases fuel, s, 0
  {
    if s.ZArray? {
      forall i | 0 <= i < |v.elems| ensures Valid(Conversion(env, s.element, visited).json, v.elems[i]) {
        Sound(env, s.element, visited, v.elems[i], fuel);
      }
    } else {
      forall k | k in v.fields ensures Valid(Conversion(env, s.valueSchema, visited).json, v.fields[k]) {
        Sound(env, s.valueSchema, visited, v.fields[k], fuel);
      }
    }
  }

  /** Soundness: whatever Zod accepts, the generated schema accepts, over any
      closed graph, cyclic or not, and from any visited set. */
  lemma {:induction false} Sound(env: Env, s: Zod, visited: set<nat>, v: Json, fuel: nat)
    requires Closed(env, s) && GraphFragment(env, s)
    requires Accepts(env, s, Some(v), fuel)
    ensures Valid(Conversion(env, s, visited).json, v)
    decreases fuel, s, 1
  {
    match s
    case ZObject(_, _) => SoundObject(env, s, visited, v, fuel);
    case ZDiscriminatedUnion(_, _) => SoundDiscriminated(env, s, visited, v, fuel);
    case ZArray(_, _) => SoundContainer(env, s, visited, v, fuel);
    case ZRecord(_) => SoundContainer(env, s, visited, v, fuel);
    case ZEnum(_) => TagValid(env, s, visited, v);
    case ZLiteral(_) => TagValid(env, s, visited, v);
    case ZOptional(inner) => Sound(env, inner, visited, v, fuel);
    case ZDefault(inner, d) =>
      Sound(env, inner, visited, v, fuel);
      DefaultAssertsNothing(Conversion(env, inner, visited).json, d, v);
    case ZUnion(_) => SoundUnion(env, s, visited, v, fuel);
    case ZLazy(id) =>
      if id !in visited {
        Sound(env, env[id], visited + {id}, v, fuel - 1);
      }
    case _ =>
  }

  // ---------------------------------------------------------------- tightness

  /** Unrolling only widens: a value Zod takes, the unrolled schema takes, and
      it needs no lazy unfolding to do so. */
  lemma {:induction false} UnrollWidens(env: Env, s: Zod, visited: set<nat>, v: Option<Json>, fuel: nat)
    requires Closed(env, s) && Accepts(env, s, v, fuel)
    ensures Accepts(map[], Unroll(env, s, visited), v, 0)
    decreases fuel, s, 1
  {
    match s
    case ZObject(_, _) => UnrollWidensObject(env, s, visited, v, fuel);
    case ZUnion(_) => UnrollWidensChoice(env, s, visited, v, fuel);
    case ZDiscriminatedUnion(_, _) => UnrollWidensChoice(env, s, visited, v, fuel);
    case ZArray(e, _) =>
      forall i | 0 <= i < |v.value.elems|
        ensures Accepts(map[], Unroll(env, e, visited), Some(v.value.elems[i]), 0)
      {
        UnrollWidens(env, e, visited, Some(v.value.elems[i]), fuel);
      }
    case ZRecord(vs) =>
      forall k | k in v.value.fields
        ensures Accepts(map[], Unroll(env, vs, visited), Some(v.value.fields[k]), 0)
      {
        UnrollWidens(env, vs, visited, Some(v.value.fields[k]), fuel);
      }
    case ZOptional(inner) =>
      if v.Some? { UnrollWidens(env, inner, visited, v, fuel); }
    case ZNullable(inner) =>
      if v != Some(JNull) { UnrollWidens(env, inner, visited, v, fuel); }
    case ZDefault(inner, d) =>
      UnrollWidens(env, inner, visited, if v.None? then Some(d) else v, fuel);
    case ZLazy(id) =>
      if id !in visited { UnrollWidens(env, env[id], visited + {id}, v, fuel - 1); }
    case _ =>
  }

  lemma UnrollWidensObject(env: Env, s: Zod, visited: set<nat>, v: Option<Json>, fuel: nat)
    requires Closed(env, s) && Accepts(env, s, v, fuel) && s.ZObject?
    ensures Accepts(map[], Unroll(env, s, visited), v, 0)
    decreases fuel, s, 0
  {
    var shape := s.shape;
    var u := UnrollFields(env, shape, visited);
    forall i | 0 <= i < |shape|
      ensures Accepts(map[], u[i].schema, Get(v.value.fields, u[i].key), 0)
    {
      var vi := FieldAt(env, shape, visited, i);
      UnrollWidens(env, shape[i].schema, vi, Get(v.value.fields, shape[i].key), fuel);
    }
    forall k | HasField(shape, k) ensures HasField(u, k) {
      var i :| 0 <= i < |shape| && shape[i].key == k;
      var vi := FieldAt(env, shape, visited, i);
      assert u[i].key == k;
    }
  }

  lemma UnrollWidensChoice(env: Env, s: Zod, visited: set<nat>, v: Option<Json>, fuel: nat)
    requires Closed(env, s) && Accepts(env, s, v, fuel) && (s.ZUnion? || s.ZDiscriminatedUnion?)
    ensures Accepts(map[], Unroll(env, s, visited), v, 0)
    decreases fuel, s, 0
  {
    var cs := s.choices;
    if s.ZUnion? {
      var i :| 0 <= i < |cs| && Accepts(env, cs[i], v, fuel);
      var vi := ListAt(env, cs, visited, i);
      UnrollWidens(env, cs[i], vi, v, fuel);
      assert Accepts(map[], UnrollList(env, cs, visited)[i], v, 0);
    } else {
      var key := s.discriminator;
      var x := v.value.fields[key].s;
      var i := ChosenOption(env, s, v.value, fuel);
      var vi := ListAt(env, cs, visited, i);
      UnrollWidens(env, cs[i], vi, v, fuel);
      UnrollKeepsTags(env, cs[i].shape, key, vi, x);
      var u := UnrollList(env, cs, visited);
      assert x in DiscriminatorValues(u[i], key) && Accepts(map[], u[i], v, 0);
    }
  }

  lemma {:induction false} UnrollKeepsTags(env: Env, shape: seq<Field>, key: string, visited: set<nat>, x: string)
    requires forall i :: 0 <= i < |shape| ==> Closed(env, shape[i].schema)
    requires x in ValuesAt(shape, key)
    ensures x in ValuesAt(UnrollFields(env, shape, visited), key)
    decreases shape
  {
    if shape[0].key != key {
      UnrollKeepsTags(env, shape[1..], key, Conversion(env, shape[0].schema, visited).visited, x);
    }
  }

  /** The part of Zod from which the compiler drops nothing: strings, numbers and
      arrays whose checks refuse nothing, objects that ignore unknown keys, no
      unrecognised node, defaults that are themselves accepted, and no nullable
      directly under an object key. */
  ghost predicate Tight(env: Env, s: Zod)
    decreases s
  {
    match s
    case ZObject(shape, strict) =>
      && !strict
      && DistinctKeys(shape)
      && forall i :: 0 <= i < |shape| ==> Tight(env, shape[i].schema) && !shape[i].schema.ZNullable?
    case ZString(ok) => forall x :: ok(x)
    case ZNumber(ok) => forall x :: ok(x)
    case ZArray(e, ok) => Tight(env, e) && forall xs :: ok(xs)
    case ZOptional(inner) => Tight(env, inner)
    case ZNullable(inner) => Tight(env, inner)
    case ZDefault(inner, d) => Tight(env, inner) && exists fuel: nat :: Accepts(env, inner, Some(d), fuel)
    case ZUnion(cs) => forall i :: 0 <= i < |cs| ==> Tight(env, cs[i])
    case ZDiscriminatedUnion(key, cs) =>
      forall i :: 0 <= i < |cs| ==> Tight(env, cs[i]) && Discriminated(cs[i], key)
    case ZRecord(vs) => Tight(env, vs)
    case ZOther(_) => false
    case _ => true
  }

  ghost predicate TightGraph(env: Env, s: Zod)
  {
    Tight(env, s) && forall id :: id in env ==> Tight(env, env[id])
  }

  lemma NoMoreObject(env: Env, s: Zod, visited: set<nat>, v: Json)
    requires Closed(env, s) && TightGraph(env, s)
    requires s.ZObject? && Valid(Conversion(env, s, visited).json, v)
    ensures Accepts(map[], Unroll(env, s, visited), Some(v), 0)
    decreases |env.Keys - visited|, s, 0
  {
    var shape := s.shape;
    var js := Conversion(env, s, visited).json;
    var u := UnrollFields(env, shape, visited);
    forall i | 0 <= i < |shape|
      ensures Accepts(map[], u[i].schema, Get(v.fields, u[i].key), 0)
    {
      var vi := FieldAt(env, shape, visited, i);
      if shape[i].key in v.fields {
        SubsetSize(env.Keys - vi, env.Keys - visited);
        PropertyHolds(js, v, i);
        NoMore(env, shape[i].schema, vi, v.fields[shape[i].key]);
      } else {
        RequiredIff(shape, shape[i].key);
        OmissibleField(env, shape[i].schema, vi);
      }
    }
  }

  lemma OmissibleField(env: Env, f: Zod, visited: set<nat>)
    requires Closed(env, f) && Tight(env, f) && (f.ZOptional? || f.ZDefault?)
    ensures Accepts(map[], Unroll(env, f, visited), None, 0)
  {
    if f.ZDefault? {
      var fuel: nat :| Accepts(env, f.inner, Some(f.defaultValue), fuel);
      UnrollWidens(env, f.inner, visited, Some(f.defaultValue), fuel);
    }
  }

  /** On that part, whatever the generated schema accepts, the unrolled schema
      accepts: only revisited lazy nodes are advertised too loosely. */
  lemma {:induction false} NoMore(env: Env, s: Zod, visited: set<nat>, v: Json)
    requires Closed(env, s) && TightGraph(env, s)
    requires Valid(Conversion(env, s, visited).json, v)
    ensures Accepts(map[], Unroll(env, s, visited), Some(v), 0)
    decreases |env.Keys - visited|, s, 2
  {
    if s.ZObject? {
      NoMoreObject(env, s, visited, v);
    } else if s.ZArray? || s.ZRecord? {
      NoMoreContainer(env, s, visited, v);
    } else if IsOptional(s) {
      NoMoreWrapped(env, s, visited, v);
    } else if s.ZUnion? || s.ZDiscriminatedUnion? {
      NoMoreChoice(env, s, visited, v);
    } else if s.ZLazy? && s.id !in visited {
      FreshLazy(env.Keys, visited, s.id);
      NoMore(env, env[s.id], visited + {s.id}, v);
    } else {
      NoMorePlain(env, s, visited, v);
    }
  }

  lemma NoMorePlain(env: Env, s: Zod, visited: set<nat>, v: Json)
    requires Closed(env, s) && Tight(env, s) && Valid(Conversion(env, s, visited).json, v)
    requires s.ZString? || s.ZNumber? || s.ZBoolean? || s.ZEnum? || s.ZLiteral?
          || s.ZUnknown? || s.ZAny? || s.ZOther? || (s.ZLazy? && s.id in visited)
    ensures Accepts(map[], Unroll(env, s, visited), Some(v), 0)
  {
    if s.ZEnum? {
      TagValid(env, s, visited, v);
    }
  }

  lemma NoMoreWrapped(env: Env, s: Zod, visited: set<nat>, v: Json)
    requires Closed(env, s) && TightGraph(env, s) && IsOptional(s)
    requires Valid(Conversion(env, s, visited).json, v)
    ensures Accepts(map[], Unroll(env, s, visited), Some(v), 0)
    decreases |env.Keys - visited|, s, 0
  {
    WrapperAssertsNothing(env, s, visited, v);
    NoMore(env, s.inner, visited, v);
  }

  lemma NoMoreContainer(env: Env, s: Zod, visited: set<nat>, v: Json)
    requires Closed(env, s) && TightGraph(env, s) && (s.ZArray? || s.ZRecord?)
    requires Valid(Conversion(env, s, visited).json, v)
    ensures Accepts(map[], Unroll(env, s, visited), Some(v), 0)
    decreases |env.Keys - visited|, s, 0
  {
    if s.ZArray? {
      forall i | 0 <= i < |v.elems|
        ensures Accepts(map[], Unroll(env, s.element, visited), Some(v.elems[i]), 0)
      {
        NoMore(env, s.element, visited, v.elems[i]);
      }
    } else {
      forall k | k in v.fields
        ensures Accepts(map[], Unroll(env, s.valueSchema, visited), Some(v.fields[k]), 0)
      {
        NoMore(env, s.valueSchema, visited, v.fields[k]);
      }
    }
  }

  lemma NoMoreChoice(env: Env, s: Zod, visited: set<nat>, v: Json)
    requires Closed(env, s) && TightGraph(env, s) && (s.ZUnion? || s.ZDiscriminatedUnion?)
    requires Valid(Conversion(env, s, visited).json, v)
    ensures Accepts(map[], Unroll(env, s, visited), Some(v), 0)
    decreases |env.Keys - visited|, s, 1
  {
    var key := if s.ZUnion? then None else Some(s.discriminator);
    var i := SomeBranch(ListConversion(env, s.choices, visited).jsons, s.ZUnion?, v);
    NoMoreBranch(env, s.choices, key, visited, v, i);
    ChoiceAccepts(s, UnrollList(env, s.choices, visited), v, i);
  }

  lemma NoMoreBranch(env: Env, cs: seq<Zod>, key: Option<string>, visited: set<nat>, v: Json, i: nat)
    requires forall j :: 0 <= j < |cs| ==> Closed(env, cs[j])
    requires i < |cs| && TightGraph(env, cs[i]) && (key.Some? ==> Discriminated(cs[i], key.value))
    requires Valid(ListConversion(env, cs, visited).jsons[i], v)
    ensures Accepts(map[], UnrollList(env, cs, visited)[i], Some(v), 0)
    ensures key.Some? ==> CarriesTag(UnrollList(env, cs, visited)[i], key.value, v)
    decreases |env.Keys - visited|, cs, 0
  {
    var vi := ListAt(env, cs, visited, i);
    SubsetSize(env.Keys - vi, env.Keys - visited);
    NoMore(env, cs[i], vi, v);
    if key.Some? {
      UnrolledOptionTag(env, cs[i], key.value, vi, v);
    }
  }

  lemma ChoiceAccepts(s: Zod, us: seq<Zod>, v: Json, i: nat)
    requires s.ZUnion? || s.ZDiscriminatedUnion?
    requires i < |us| && Accepts(map[], us[i], Some(v), 0)
    requires s.ZDiscriminatedUnion? ==> CarriesTag(us[i], s.discriminator, v)
    ensures Accepts(map[], s.(choices := us), Some(v), 0)
  {
  }

  lemma UnrolledOptionTag(env: Env, option: Zod, key: string, visited: set<nat>, v: Json)
    requires Closed(env, option) && Discriminated(option, key) && DistinctKeys(option.shape)
    requires Valid(Conversion(env, option, visited).json, v)
    ensures CarriesTag(Unroll(env, option, visited), key, v)
  {
    OptionFixesTag(env, option, key, visited, v);
    UnrollKeepsTags(env, option.shape, key, visited, v.fields[key].s);
  }

  lemma SomeBranch(branches: seq<JsonSchema>, any: bool, v: Json) returns (i: nat)
    requires Valid(if any then OPEN.(anyOf := Branches(branches)) else OPEN.(oneOf := Branches(branches)), v)
    ensures i < |branches| && Valid(branches[i], v)
  {
    i :| 0 <= i < |branches| && Valid(branches[i], v);
  }

  lemma {:induction false} NothingToUnroll(env: Env, s: Zod, visited: set<nat>)
    requires Closed(env, s) && RefsIn(s, {})
    ensures Unroll(env, s, visited) == s
    decreases s
  {
    match s
    case ZObject(shape, _) =>
      forall i | 0 <= i < |shape| ensures UnrollFields(env, shape, visited)[i] == shape[i] {
        var vi := FieldAt(env, shape, visited, i);
        NothingToUnroll(env, shape[i].schema, vi);
      }
      assert UnrollFields(env, shape, visited) == shape;
    case ZUnion(cs) => NothingToUnrollList(env, s, visited);
    case ZDiscriminatedUnion(_, cs) => NothingToUnrollList(env, s, visited);
    case ZArray(inner, _) => NothingToUnroll(env, inner, visited);
    case ZOptional(inner) => NothingToUnroll(env, inner, visited);
    case ZNullable(inner) => NothingToUnroll(env, inner, visited);
    case ZDefault(inner, _) => NothingToUnroll(env, inner, visited);
    case ZRecord(inner) => NothingToUnroll(env, inner, visited);
    case _ =>
  }

  lemma NothingToUnrollList(env: Env, s: Zod, visited: set<nat>)
    requires Closed(env, s) && RefsIn(s, {}) && (s.ZUnion? || s.ZDiscriminatedUnion?)
    ensures UnrollList(env, s.choices, visited) == s.choices
    decreases s, 0
  {
    forall i | 0 <= i < |s.choices|
      ensures UnrollList(env, s.choices, visited)[i] == s.choices[i]
    {
      var vi := ListAt(env, s.choices, visited, i);
      NothingToUnroll(env, s.choices[i], vi);
    }
  }

  /** Where nothing is dropped, nor restricted, nor lazy, the two languages agree
      exactly. */
  lemma ExactWithoutLazies(s: Zod, v: Json)
    requires Closed(map[], s) && Fragment(map[], s) && Tight(map[], s)
    ensures Valid(ZodToJsonSchema(map[], s), v) <==> Accepts(map[], s, Some(v), 0)
  {
    var env: Env := map[];
    assert env.Keys == {};
    NothingToUnroll(env, s, {});
    if Valid(ZodToJsonSchema(map[], s), v) {
      NoMore(map[], s, {}, v);
    }
    if Accepts(map[], s, Some(v), 0) {
      Sound(map[], s, {}, v, 0);
    }
  }

  // ---------------------------------------------------------------- where soundness stops

  /** No value Zod takes is ruled out. */
  ghost predicate SoundFor(env: Env, s: Zod)
    requires Closed(env, s)
  {
    forall v, fuel: nat :: Accepts(env, s, Some(v), fuel) ==> Valid(ZodToJsonSchema(env, s), v)
  }

  /** A literal is advertised as a string, so only string literals survive. */
  lemma LiteralSoundIff(x: Json)
    ensures SoundFor(map[], ZLiteral(x)) <==> x.JStr?
  {
    assert Accepts(map[], ZLiteral(x), Some(x), 0);
    assert x in [x];
  }

  /** The advertised schema takes null: read off the Zod schema, looking through
      wrappers and lazy nodes not met before, into the options of a union. */
  predicate TakesNull(env: Env, s: Zod, visited: set<nat>)
    requires Closed(env, s)
    decreases |env.Keys - visited|, s
  {
    match s
    case ZOptional(inner) => TakesNull(env, inner, visited)
    case ZNullable(inner) => TakesNull(env, inner, visited)
    case ZDefault(inner, _) => TakesNull(env, inner, visited)
    case ZUnion(cs) => AnyTakesNull(env, cs, visited)
    case ZLazy(id) =>
      if id in visited then true
      else
        FreshLazy(env.Keys, visited, id);
        TakesNull(env, env[id], visited + {id})
    case _ => s.ZUnknown? || s.ZAny? || s.ZOther?
  }

  predicate AnyTakesNull(env: Env, ss: seq<Zod>, visited: set<nat>)
    requires forall i :: 0 <= i < |ss| ==> Closed(env, ss[i])
    decreases |env.Keys - visited|, ss
  {
    if ss == [] then false
    else
      var next := Conversion(env, ss[0], visited).visited;
      SubsetSize(env.Keys - next, env.Keys - visited);
      TakesNull(env, ss[0], visited) || AnyTakesNull(env, ss[1..], next)
  }

  ghost predicate NullAgrees(env: Env, s: Zod, visited: set<nat>)
    requires Closed(env, s)
  {
    Valid(Conversion(env, s, visited).json, JNull) <==> TakesNull(env, s, visited)
  }

  lemma {:induction false} TakesNullIff(env: Env, s: Zod, visited: set<nat>)
    requires Closed(env, s) && GraphWellMade(env, s)
    ensures NullAgrees(env, s, visited)
    decreases |env.Keys - visited|, s, 1
  {
    if IsOptional(s) {
      WrapperTakesNull(env, s, visited);
    } else if s.ZUnion? {
      UnionTakesNull(env, s, visited);
    } else if s.ZDiscriminatedUnion? {
      OptionsRefuseNull(env, s, visited);
    } else if s.ZLazy? && s.id !in visited {
      LazyTakesNull(env, s, visited);
    } else {
      PlainTakesNull(env, s, visited);
    }
  }

  lemma LazyTakesNull(env: Env, s: Zod, visited: set<nat>)
    requires Closed(env, s) && GraphWellMade(env, s) && s.ZLazy? && s.id !in visited
    ensures NullAgrees(env, s, visited)
    decreases |env.Keys - visited|, s, 0
  {
    FreshLazy(env.Keys, visited, s.id);
    TakesNullIff(env, env[s.id], visited + {s.id});
  }

  lemma WrapperTakesNull(env: Env, s: Zod, visited: set<nat>)
    requires Closed(env, s) && GraphWellMade(env, s) && IsOptional(s)
    ensures NullAgrees(env, s, visited)
    decreases |env.Keys - visited|, s, 0
  {
    WrapperAssertsNothing(env, s, visited, JNull);
    TakesNullIff(env, s.inner, visited);
  }

  lemma UnionTakesNull(env: Env, s: Zod, visited: set<nat>)
    requires Closed(env, s) && GraphWellMade(env, s) && s.ZUnion?
    ensures NullAgrees(env, s, visited)
    decreases |env.Keys - visited|, s, 0
  {
    AnyTakesNullIff(env, s.choices, visited);
    AnyOfAlone(ListConversion(env, s.choices, visited).jsons, JNull);
  }

  lemma PlainTakesNull(env: Env, s: Zod, visited: set<nat>)
    requires Closed(env, s) && !IsOptional(s) && !s.ZUnion? && !s.ZDiscriminatedUnion?
    requires s.ZLazy? ==> s.id in visited
    ensures NullAgrees(env, s, visited)
  {
  }

  lemma {:induction false} AnyTakesNullIff(env: Env, ss: seq<Zod>, visited: set<nat>)
    requires forall i :: 0 <= i < |ss| ==> Closed(env, ss[i]) && GraphWellMade(env, ss[i])
    ensures AnyTakesNull(env, ss, visited) <==> AnyValid(ListConversion(env, ss, visited).jsons, JNull)
    decreases |env.Keys - visited|, ss, 0
  {
    if ss != [] {
      var next := Conversion(env, ss[0], visited).visited;
      SubsetSize(env.Keys - next, env.Keys - visited);
      TakesNullIff(env, ss[0], visited);
      AnyTakesNullIff(env, ss[1..], next);
      AnyValidCons(Conversion(env, ss[0], visited).json, ListConversion(env, ss[1..], next).jsons, JNull);
    }
  }

  ghost predicate AnyValid(branches: seq<JsonSchema>, v: Json)
  {
    exists i :: 0 <= i < |branches| && Valid(branches[i], v)
  }

  lemma AnyValidCons(first: JsonSchema, rest: seq<JsonSchema>, v: Json)
    ensures AnyValid([first] + rest, v) <==> Valid(first, v) || AnyValid(rest, v)
  {
    var all := [first] + rest;
    assert all[0] == first;
    forall i | 0 <= i < |rest| ensures all[i + 1] == rest[i] {}
  }

  lemma AnyOfAlone(branches: seq<JsonSchema>, v: Json)
    ensures Valid(OPEN.(anyOf := Branches(branches)), v) <==> AnyValid(branches, v)
  {
  }

  lemma OptionsRefuseNull(env: Env, s: Zod, visited: set<nat>)
    requires Closed(env, s) && s.ZDiscriminatedUnion? && GoodOptions(s.choices, s.discriminator)
    ensures !Valid(Conversion(env, s, visited).json, JNull) && NullAgrees(env, s, visited)
  {
    var jsons := ListConversion(env, s.choices, visited).jsons;
    forall i | 0 <= i < |jsons| ensures !Valid(jsons[i], JNull) {
      var vi := ListAt(env, s.choices, visited, i);
      assert Discriminated(s.choices[i], s.discriminator);
    }
  }

  /** `nullable` is dropped, so it is sound only when the rest takes null. */
  lemma NullableSoundIff(env: Env, inner: Zod)
    requires Closed(env, inner) && GraphFragment(env, inner)
    ensures SoundFor(env, ZNullable(inner)) <==> TakesNull(env, inner, {})
  {
    GraphFragmentIsWellMade(env, inner);
    TakesNullIff(env, inner, {});
    assert Accepts(env, ZNullable(inner), Some(JNull), 0);
    forall v, fuel: nat | Accepts(env, ZNullable(inner), Some(v), fuel) && v != JNull
      ensures Valid(ZodToJsonSchema(env, inner), v)
    {
      Sound(env, inner, {}, v, fuel);
    }
  }

  /** A field without a wrapper is required, so it must not be omissible. */
  lemma FieldSoundIff(env: Env, key: string, f: Zod)
    requires Closed(env, f) && GraphFragment(env, f)
    ensures SoundFor(env, ZObject([Field(key, f)], false)) <==> IsOptional(f) || !MayBeAbsent(env, f)
  {
    var s := ZObject([Field(key, f)], false);
    RequiredIff(s.shape, key);
    assert s.shape[0] == Field(key, f);
    if IsOptional(f) || !MayBeAbsent(env, f) {
      forall v, fuel: nat | Accepts(env, s, Some(v), fuel)
        ensures Valid(ZodToJsonSchema(env, s), v)
      {
        Sound(env, s, {}, v, fuel);
      }
    } else {
      var fuel: nat :| Accepts(env, f, None, fuel);
      assert Accepts(env, s, Some(JObj(map[])), fuel);
      assert !Valid(ZodToJsonSchema(env, s), JObj(map[]));
    }
  }
}
