// packages/flutter-ultra-gesture/src/json-schema.ts:59-69,135-151
//
// Where a generated schema stops being exact: the checks and the strictness
// that the compiler drops.
module SchemaExactness {
  import opened Collections
  import opened ZodSchema
  import opened SchemaSoundness

  /** The generated schema accepts just what Zod does; for schemas without lazy
      nodes, which need no unfolding. */
  ghost predicate ExactFor(s: Zod)
    requires Closed(map[], s)
  {
    forall v :: Valid(ZodToJsonSchema(map[], s), v) <==> Accepts(map[], s, Some(v), 0)
  }

  /** The checks of a string are dropped. */
  lemma StringExactIff(ok: string -> bool)
    ensures ExactFor(ZString(ok)) <==> forall x :: ok(x)
  {
    forall x | ExactFor(ZString(ok)) ensures ok(x) {
      assert Valid(ZodToJsonSchema(map[], ZString(ok)), JStr(x));
    }
  }

  /** So are those of a number: int, positive, min and so on. */
  lemma NumberExactIff(ok: real -> bool)
    ensures ExactFor(ZNumber(ok)) <==> forall x :: ok(x)
  {
    forall x | ExactFor(ZNumber(ok)) ensures ok(x) {
      assert Valid(ZodToJsonSchema(map[], ZNumber(ok)), JNum(x));
    }
  }

  ghost predicate AllAccepted(e: Zod, xs: seq<Json>)
  {
    forall i :: 0 <= i < |xs| ==> Accepts(map[], e, Some(xs[i]), 0)
  }

  /** An array over an exact element is exact when its checks refuse no list of
      accepted elements. */
  lemma ArrayExactIff(e: Zod, ok: seq<Json> -> bool)
    requires Closed(map[], e) && ExactFor(e)
    ensures ExactFor(ZArray(e, ok)) <==> forall xs :: AllAccepted(e, xs) ==> ok(xs)
  {
    var s := ZArray(e, ok);
    forall v ensures Valid(ZodToJsonSchema(map[], s), v) <==> v.JArr? && AllAccepted(e, v.elems) {
      if v.JArr? {
        forall i | 0 <= i < |v.elems|
          ensures Valid(ZodToJsonSchema(map[], e), v.elems[i]) <==> Accepts(map[], e, Some(v.elems[i]), 0)
        {
        }
      }
    }
    forall v ensures Accepts(map[], s, Some(v), 0) <==> v.JArr? && ok(v.elems) && AllAccepted(e, v.elems) {}
    if ExactFor(s) {
      forall xs | AllAccepted(e, xs) ensures ok(xs) {
        assert Valid(ZodToJsonSchema(map[], s), JArr(xs));
      }
    }
  }

  /** A key no field has. */
  lemma FreshKey(shape: seq<Field>) returns (k: string)
    ensures !HasField(shape, k) && forall i :: 0 <= i < |shape| ==> |shape[i].key| < |k|
  {
    if shape == [] {
      k := "x";
    } else {
      k := FreshKey(shape[1..]);
      if |shape[0].key| >= |k| {
        k := shape[0].key + "x";
      }
      forall i | 0 <= i < |shape| ensures |shape[i].key| < |k| {
        if i > 0 { assert shape[1..][i - 1] == shape[i]; }
      }
    }
  }

  /** Strictness is dropped: over an exact shape, a strict object is advertised
      exactly only if there is no object to accept at all. */
  lemma StrictExactIff(shape: seq<Field>)
    requires Closed(map[], ZObject(shape, false)) && ExactFor(ZObject(shape, false))
    ensures ExactFor(ZObject(shape, true)) <==> forall v :: !Accepts(map[], ZObject(shape, false), Some(v), 0)
  {
    var loose, strict := ZObject(shape, false), ZObject(shape, true);
    if v :| Accepts(map[], loose, Some(v), 0) {
      var more := StrictRefuses(shape, v);
      assert Valid(ZodToJsonSchema(map[], loose), more);
      assert !ExactFor(strict);
    } else {
      forall v ensures !Accepts(map[], strict, Some(v), 0) {
        assert !Accepts(map[], loose, Some(v), 0);
      }
    }
  }

  /** One more key, and the strict object refuses. */
  lemma StrictRefuses(shape: seq<Field>, v: Json) returns (more: Json)
    requires Accepts(map[], ZObject(shape, false), Some(v), 0)
    ensures Accepts(map[], ZObject(shape, false), Some(more), 0)
    ensures !Accepts(map[], ZObject(shape, true), Some(more), 0)
  {
    var k := FreshKey(shape);
    more := JObj(v.fields[k := JNull]);
    forall i | 0 <= i < |shape| ensures Get(more.fields, shape[i].key) == Get(v.fields, shape[i].key) {}
    assert k in more.fields;
  }
}
