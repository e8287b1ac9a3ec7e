// packages/flutter-ultra-gesture/src/json-schema.ts:54-151
//
// The description of a schema is exact: a generated schema accepts just what
// the described Zod schema does.
module DescriptionExactness {
  import opened Collections
  import opened ZodSchema
  import opened SchemaSoundness
  import opened SchemaDescription

  lemma {:induction false} DescribedAt(env: Env, ss: seq<Zod>, visited: set<nat>, i: nat) returns (vi: set<nat>)
    requires forall j :: 0 <= j < |ss| ==> Closed(env, ss[j])
    requires i < |ss|
    ensures visited <= vi
    ensures ListConversion(env, ss, visited).jsons[i] == Conversion(env, ss[i], vi).json
    ensures DescribeList(env, ss, visited)[i] == Describe(env, ss[i], vi)
    decreases i
  {
    if i == 0 {
      vi := visited;
    } else {
      vi := DescribedAt(env, ss[1..], Conversion(env, ss[0], visited).visited, i - 1);
    }
  }

  lemma {:induction false} DescribedFieldAt(env: Env, shape: seq<Field>, visited: set<nat>, i: nat)
    returns (vi: set<nat>)
    requires forall j :: 0 <= j < |shape| ==> Closed(env, shape[j].schema)
    requires i < |shape|
    ensures visited <= vi
    ensures FieldsConversion(env, shape, visited).jsons[i] == Conversion(env, shape[i].schema, vi).json
    ensures DescribeFields(env, shape, visited)[i].key == shape[i].key
    ensures DescribeFields(env, shape, visited)[i].schema
         == WrapIf(IsOptional(shape[i].schema), Describe(env, shape[i].schema, vi))
    decreases i
  {
    if i == 0 {
      vi := visited;
    } else {
      vi := DescribedFieldAt(env, shape[1..], Conversion(env, shape[0].schema, visited).visited, i - 1);
    }
  }

  lemma {:induction false} DescribeWrapper(env: Env, s: Zod, visited: set<nat>)
    requires Closed(env, s) && IsOptional(s)
    ensures Closed(env, s.inner) && s.inner < s
    ensures Describe(env, s, visited) == Describe(env, s.inner, visited)
  {
  }

  /** A description is of values that are there. */
  lemma {:induction false} NeverAbsent(env: Env, s: Zod, visited: set<nat>)
    requires Closed(env, s)
    ensures !Accepts(map[], Describe(env, s, visited), None, 0)
    decreases |env.Keys - visited|, s
  {
    if IsOptional(s) {
      DescribeWrapper(env, s, visited);
      NeverAbsent(env, s.inner, visited);
    } else if s.ZUnion? {
      forall i | 0 <= i < |s.choices|
        ensures !Accepts(map[], DescribeList(env, s.choices, visited)[i], None, 0)
      {
        ChoiceNeverAbsent(env, s.choices, visited, i);
      }
      assert Describe(env, s, visited) == ZUnion(DescribeList(env, s.choices, visited));
    } else if s.ZLazy? && s.id !in visited {
      FreshLazy(env.Keys, visited, s.id);
      NeverAbsent(env, env[s.id], visited + {s.id});
    } else {
      PlainNeverAbsent(env, s, visited);
    }
  }

  lemma ChoiceNeverAbsent(env: Env, cs: seq<Zod>, visited: set<nat>, i: nat)
    requires forall j :: 0 <= j < |cs| ==> Closed(env, cs[j])
    requires i < |cs|
    ensures !Accepts(map[], DescribeList(env, cs, visited)[i], None, 0)
    decreases |env.Keys - visited|, cs
  {
    var vi := DescribedAt(env, cs, visited, i);
    SubsetSize(env.Keys - vi, env.Keys - visited);
    NeverAbsent(env, cs[i], vi);
  }

  lemma PlainNeverAbsent(env: Env, s: Zod, visited: set<nat>)
    requires Closed(env, s) && !IsOptional(s) && !s.ZUnion? && (s.ZLazy? ==> s.id in visited)
    ensures !Accepts(map[], Describe(env, s, visited), None, 0)
  {
  }

  lemma {:induction false} DescriptionKeepsTags(env: Env, shape: seq<Field>, key: string, visited: set<nat>, x: string)
    requires forall i :: 0 <= i < |shape| ==> Closed(env, shape[i].schema)
    requires x in ValuesAt(shape, key)
    ensures x in ValuesAt(DescribeFields(env, shape, visited), key)
    decreases shape
  {
    if shape[0].key != key {
      DescriptionKeepsTags(env, shape[1..], key, Conversion(env, shape[0].schema, visited).visited, x);
    }
  }

  // ---------------------------------------------------------------- the description is exact

  ghost predicate Agree(env: Env, s: Zod, visited: set<nat>, v: Json)
    requires Closed(env, s)
  {
    Valid(Conversion(env, s, visited).json, v) <==> Accepts(map[], Describe(env, s, visited), Some(v), 0)
  }

  /** The generated schema accepts exactly what its description accepts, for every
      closed graph, with whatever checks, strictness, nulls and cycles. */
  lemma {:induction false} DescribedExactly(env: Env, s: Zod, visited: set<nat>, v: Json)
    requires Closed(env, s) && GraphWellMade(env, s)
    ensures Agree(env, s, visited, v)
    decreases |env.Keys - visited|, s, 2
  {
    if IsOptional(s) {
      WrapperAssertsNothing(env, s, visited, v);
      DescribeWrapper(env, s, visited);
      DescribedExactly(env, s.inner, visited, v);
    } else if s.ZObject? {
      DescribedObject(env, s, visited, v);
    } else if s.ZArray? {
      DescribedArray(env, s, visited, v);
    } else if s.ZRecord? {
      DescribedRecord(env, s, visited, v);
    } else if s.ZUnion? {
      DescribedUnion(env, s, visited, v);
    } else if s.ZDiscriminatedUnion? {
      DescribedDiscriminated(env, s, visited, v);
    } else if s.ZLazy? && s.id !in visited {
      FreshLazy(env.Keys, visited, s.id);
      DescribedExactly(env, env[s.id], visited + {s.id}, v);
    } else {
      DescribedPlain(env, s, visited, v);
    }
  }

  lemma DescribedPlain(env: Env, s: Zod, visited: set<nat>, v: Json)
    requires Closed(env, s)
    requires s.ZString? || s.ZNumber? || s.ZBoolean? || s.ZEnum? || s.ZLiteral?
          || s.ZUnknown? || s.ZAny? || s.ZOther? || (s.ZLazy? && s.id in visited)
    ensures Agree(env, s, visited, v)
  {
    if IsTag(s) {
      TagValid(env, s, visited, v);
    }
  }

  lemma DescribedArray(env: Env, s: Zod, visited: set<nat>, v: Json)
    requires Closed(env, s) && GraphWellMade(env, s) && s.ZArray?
    ensures Agree(env, s, visited, v)
    decreases |env.Keys - visited|, s, 0
  {
    if v.JArr? {
      forall i | 0 <= i < |v.elems| ensures Agree(env, s.element, visited, v.elems[i]) {
        DescribedExactly(env, s.element, visited, v.elems[i]);
      }
    }
  }

  lemma DescribedRecord(env: Env, s: Zod, visited: set<nat>, v: Json)
    requires Closed(env, s) && GraphWellMade(env, s) && s.ZRecord?
    ensures Agree(env, s, visited, v)
    decreases |env.Keys - visited|, s, 0
  {
    if v.JObj? {
      forall k | k in v.fields ensures Agree(env, s.valueSchema, visited, v.fields[k]) {
        DescribedExactly(env, s.valueSchema, visited, v.fields[k]);
      }
    }
  }

  /** What the generated schema asks of one field. */
  ghost predicate FieldHolds(env: Env, s: Zod, visited: set<nat>, fields: map<string, Json>, i: nat)
    requires Closed(env, s) && s.ZObject? && i < |s.shape|
  {
    var f := s.shape[i];
    if f.key in fields then Valid(FieldsConversion(env, s.shape, visited).jsons[i], fields[f.key])
    else IsOptional(f.schema)
  }

  lemma ObjectByFields(env: Env, s: Zod, visited: set<nat>, v: Json)
    requires Closed(env, s) && s.ZObject? && DistinctKeys(s.shape)
    ensures Valid(Conversion(env, s, visited).json, v)
       <==> v.JObj? && forall i :: 0 <= i < |s.shape| ==> FieldHolds(env, s, visited, v.fields, i)
  {
    if v.JObj? {
      var jsons := FieldsConversion(env, s.shape, visited).jsons;
      RequiredByFields(s.shape, v.fields);
      ObjectKeywords(s.shape, jsons, v);
      if forall i :: 0 <= i < |s.shape| ==> FieldHolds(env, s, visited, v.fields, i) {
        forall i | 0 <= i < |s.shape| && s.shape[i].key in v.fields ensures Valid(jsons[i], v.fields[s.shape[i].key]) {
          assert FieldHolds(env, s, visited, v.fields, i);
        }
        forall i | 0 <= i < |s.shape| && s.shape[i].key !in v.fields ensures IsOptional(s.shape[i].schema) {
          assert FieldHolds(env, s, visited, v.fields, i);
        }
      }
    }
  }

  /** An object schema asks for the required keys and for each property that is
      there. */
  lemma ObjectKeywords(shape: seq<Field>, jsons: seq<JsonSchema>, v: Json)
    requires |shape| == |jsons| && v.JObj?
    ensures Valid(ObjectSchema(shape, jsons), v)
       <==> && (forall k :: k in RequiredKeys(shape) ==> k in v.fields)
            && forall i :: 0 <= i < |shape| && shape[i].key in v.fields ==> Valid(jsons[i], v.fields[shape[i].key])
  {
    var js := ObjectSchema(shape, jsons);
    forall i | 0 <= i < |shape| ensures js.properties.list[i] == Property(shape[i].key, jsons[i]) {}
  }

  lemma RequiredByFields(shape: seq<Field>, fields: map<string, Json>)
    ensures (forall k :: k in RequiredKeys(shape) ==> k in fields)
       <==> forall i :: 0 <= i < |shape| && shape[i].key !in fields ==> IsOptional(shape[i].schema)
  {
    forall k ensures k in RequiredKeys(shape)
                <==> exists i :: 0 <= i < |shape| && shape[i].key == k && !IsOptional(shape[i].schema)
    {
      RequiredIff(shape, k);
    }
  }

  lemma DescribedObject(env: Env, s: Zod, visited: set<nat>, v: Json)
    requires Closed(env, s) && GraphWellMade(env, s) && s.ZObject?
    ensures Agree(env, s, visited, v)
    decreases |env.Keys - visited|, s, 1
  {
    ObjectByFields(env, s, visited, v);
    if v.JObj? {
      var d := DescribeFields(env, s.shape, visited);
      forall i | 0 <= i < |s.shape|
        ensures FieldHolds(env, s, visited, v.fields, i)
           <==> Accepts(map[], d[i].schema, Get(v.fields, d[i].key), 0)
      {
        DescribedField(env, s, visited, v.fields, i);
      }
    }
  }

  lemma WrappedAccepts(wrap: bool, s: Zod, v: Option<Json>)
    ensures Accepts(map[], WrapIf(wrap, s), v, 0) <==> Accepts(map[], s, v, 0) || (wrap && v.None?)
  {
  }

  lemma DescribedField(env: Env, s: Zod, visited: set<nat>, fields: map<string, Json>, i: nat)
    requires Closed(env, s) && GraphWellMade(env, s) && s.ZObject? && i < |s.shape|
    ensures var d := DescribeFields(env, s.shape, visited)[i];
            FieldHolds(env, s, visited, fields, i) <==> Accepts(map[], d.schema, Get(fields, d.key), 0)
    decreases |env.Keys - visited|, s, 0
  {
    var f := s.shape[i];
    var vi := DescribedFieldAt(env, s.shape, visited, i);
    SubsetSize(env.Keys - vi, env.Keys - visited);
    WrappedAccepts(IsOptional(f.schema), Describe(env, f.schema, vi), Get(fields, f.key));
    if f.key in fields {
      DescribedExactly(env, f.schema, vi, fields[f.key]);
      assert Agree(env, f.schema, vi, fields[f.key]);
    } else {
      NeverAbsent(env, f.schema, vi);
    }
  }

  lemma DescribedUnion(env: Env, s: Zod, visited: set<nat>, v: Json)
    requires Closed(env, s) && GraphWellMade(env, s) && s.ZUnion?
    ensures Agree(env, s, visited, v)
    decreases |env.Keys - visited|, s, 1
  {
    var jsons, ds := ListConversion(env, s.choices, visited).jsons, DescribeList(env, s.choices, visited);
    AnyOfAlone(jsons, v);
    forall i | 0 <= i < |ds| ensures Valid(jsons[i], v) <==> Accepts(map[], ds[i], Some(v), 0) {
      DescribedChoice(env, s, visited, v, i);
    }
  }

  lemma DescribedChoice(env: Env, s: Zod, visited: set<nat>, v: Json, i: nat)
    requires Closed(env, s) && GraphWellMade(env, s) && (s.ZUnion? || s.ZDiscriminatedUnion?) && i < |s.choices|
    ensures Valid(ListConversion(env, s.choices, visited).jsons[i], v)
       <==> Accepts(map[], DescribeList(env, s.choices, visited)[i], Some(v), 0)
    decreases |env.Keys - visited|, s, 0
  {
    var vi := DescribedAt(env, s.choices, visited, i);
    SubsetSize(env.Keys - vi, env.Keys - visited);
    DescribedExactly(env, s.choices[i], vi, v);
  }

  lemma DescribedDiscriminated(env: Env, s: Zod, visited: set<nat>, v: Json)
    requires Closed(env, s) && GraphWellMade(env, s) && s.ZDiscriminatedUnion?
    ensures Agree(env, s, visited, v)
    decreases |env.Keys - visited|, s, 1
  {
    var jsons, ds := ListConversion(env, s.choices, visited).jsons, DescribeList(env, s.choices, visited);
    if Valid(Conversion(env, s, visited).json, v) {
      var i := SomeBranch(jsons, false, v);
      DescribedChoice(env, s, visited, v, i);
      ValidOptionTag(env, s, visited, v, i);
      DescribedTag(env, s, visited, v, i);
      ChoiceAccepts(s, ds, v, i);
    }
    if Accepts(map[], Describe(env, s, visited), Some(v), 0) {
      var i := ChosenOption(map[], ZDiscriminatedUnion(s.discriminator, ds), v, 0);
      DescribedChoice(env, s, visited, v, i);
      OnlyOneOption(env, s, visited, v, i);
      OneOfHolds(jsons, v, i);
    }
  }

  lemma DescribedTag(env: Env, s: Zod, visited: set<nat>, v: Json, i: nat)
    requires Closed(env, s) && s.ZDiscriminatedUnion? && i < |s.choices|
    requires CarriesTag(s.choices[i], s.discriminator, v)
    ensures CarriesTag(DescribeList(env, s.choices, visited)[i], s.discriminator, v)
  {
    var vi := DescribedAt(env, s.choices, visited, i);
    DescriptionKeepsTags(env, s.choices[i].shape, s.discriminator, vi, v.fields[s.discriminator].s);
  }
}
