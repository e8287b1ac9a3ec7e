// packages/flutter-ultra-gesture/src/json-schema.ts
//
// What a generated schema says, put back into Zod: every check, strictness,
// default and null that the compiler drops, and every place where it demands
// more, can be read off the description.
module SchemaDescription {
  import opened Collections
  import opened ZodSchema
  import opened SchemaSoundness

  const ANY_STRING: string -> bool := (x: string) => true
  const ANY_NUMBER: real -> bool := (x: real) => true
  const ANY_ARRAY: seq<Json> -> bool := (xs: seq<Json>) => true

  /** Anything, as long as it is there. */
  const PRESENT := ZOther((v: Option<Json>) => v.Some?)

  const NOTHING := ZEnum([])

  /** The schema that the compiler in effect advertises: no checks, no strictness,
      no null of its own, only string literals, nothing but presence for the nodes
      it does not know or has met before, and a field may be absent just where it
      is wrapped. */
  ghost function Describe(env: Env, s: Zod, visited: set<nat>): Zod
    requires Closed(env, s)
    decreases |env.Keys - visited|, s
  {
    match s
    case ZObject(shape, _) => ZObject(DescribeFields(env, shape, visited), false)
    case ZString(_) => ZString(ANY_STRING)
    case ZNumber(_) => ZNumber(ANY_NUMBER)
    case ZArray(e, _) => ZArray(Describe(env, e, visited), ANY_ARRAY)
    case ZLiteral(x) => if x.JStr? then s else NOTHING
    case ZOptional(inner) => Describe(env, inner, visited)
    case ZNullable(inner) => Describe(env, inner, visited)
    case ZDefault(inner, _) => Describe(env, inner, visited)
    case ZUnion(cs) => ZUnion(DescribeList(env, cs, visited))
    case ZDiscriminatedUnion(key, cs) => ZDiscriminatedUnion(key, DescribeList(env, cs, visited))
    case ZRecord(vs) => ZRecord(Describe(env, vs, visited))
    case ZLazy(id) =>
      if id in visited then PRESENT
      else
        FreshLazy(env.Keys, visited, id);
        Describe(env, env[id], visited + {id})
    case ZUnknown => PRESENT
    case ZAny => PRESENT
    case ZOther(_) => PRESENT
    case _ => s
  }

  ghost function DescribeList(env: Env, ss: seq<Zod>, visited: set<nat>): (r: seq<Zod>)
    requires forall i :: 0 <= i < |ss| ==> Closed(env, ss[i])
    ensures |r| == |ss|
    decreases |env.Keys - visited|, ss
  {
    if ss == [] then []
    else
      var next := Conversion(env, ss[0], visited).visited;
      SubsetSize(env.Keys - next, env.Keys - visited);
      [Describe(env, ss[0], visited)] + DescribeList(env, ss[1..], next)
  }

  ghost function DescribeFields(env: Env, shape: seq<Field>, visited: set<nat>): (r: seq<Field>)
    requires forall i :: 0 <= i < |shape| ==> Closed(env, shape[i].schema)
    ensures |r| == |shape|
    decreases |env.Keys - visited|, shape
  {
    if shape == [] then []
    else
      var next := Conversion(env, shape[0].schema, visited).visited;
      SubsetSize(env.Keys - next, env.Keys - visited);
      var d := Describe(env, shape[0].schema, visited);
      [Field(shape[0].key, WrapIf(IsOptional(shape[0].schema), d))] + DescribeFields(env, shape[1..], next)
  }

  function WrapIf(wrap: bool, s: Zod): Zod { if wrap then ZOptional(s) else s }
}
