// Small vocabulary shared by the models: optional values and a few sequence
// operations that JavaScript's Array and Python's list provide.
module Collections {

  datatype Option<+T> = None | Some(value: T) {
    function GetOr(default: T): T {
      match this
      case Some(v) => v
      case None => default
    }
  }

  datatype Result<+T, +E> = Ok(value: T) | Err(error: E)

  newtype Byte = b: int | 0 <= b < 256

  function Get<K, V>(m: map<K, V>, k: K): (r: Option<V>)
  {
    if k in m then Some(m[k]) else None
  }

  /** The pieces laid end to end. */
  function Flatten<T>(pieces: seq<seq<T>>): seq<T>
  {
    if pieces == [] then [] else pieces[0] + Flatten(pieces[1..])
  }

  lemma FlattenSnoc<T>(pieces: seq<seq<T>>, last: seq<T>)
    ensures Flatten(pieces + [last]) == Flatten(pieces) + last
  {
    if pieces == [] {
      assert pieces + [last] == [last];
    } else {
      assert (pieces + [last])[1..] == pieces[1..] + [last];
      FlattenSnoc(pieces[1..], last);
    }
  }

  /** `s.slice(-n)`: the last n elements, or all of them when there are fewer. */
  function LastN<T>(s: seq<T>, n: nat): seq<T>
  {
    if |s| <= n then s else s[|s| - n..]
  }

  /** The first n elements, or all of them when there are fewer. */
  function FirstN<T>(s: seq<T>, n: nat): seq<T>
  {
    if |s| <= n then s else s[..n]
  }

  predicate IsSuffix<T(==)>(a: seq<T>, s: seq<T>)
  {
    |a| <= |s| && a == s[|s| - |a|..]
  }

  ghost predicate Distinct<T>(s: seq<T>)
  {
    forall i, j :: 0 <= i < j < |s| ==> s[i] != s[j]
  }

  lemma PrefixSnoc<T>(s: seq<T>, i: nat)
    requires i < |s|
    ensures s[..i + 1] == s[..i] + [s[i]]
  {
  }

  lemma PrefixAll<T>(s: seq<T>)
    ensures s[..|s|] == s
  {
  }

  lemma SplitAt<T>(s: seq<T>, k: nat)
    requires k <= |s|
    ensures s == s[..k] + s[k..]
  {
  }

  lemma AppendParts<T>(a: seq<T>, b: seq<T>)
    ensures (a + b)[..|a|] == a && (a + b)[|a|..] == b
  {
  }

  lemma AppendAssoc<T>(a: seq<T>, b: seq<T>, c: seq<T>)
    ensures (a + b) + c == a + (b + c)
  {
  }

  lemma DropOfSnoc<T>(s: seq<T>, x: T, k: nat)
    requires k <= |s|
    ensures (s + [x])[k..] == s[k..] + [x]
  {
  }

  lemma TakeOfDrop<T>(s: seq<T>, i: nat, j: nat)
    requires i + j <= |s|
    ensures s[..i + j] == s[..i] + s[i..][..j]
    ensures s[i + j..] == s[i..][j..]
  {
  }

  /** A subset of a finite set is no larger. */
  lemma SubsetSize<T>(a: set<T>, b: set<T>)
    requires a <= b
    ensures |a| <= |b|
  {
    assert b == a + (b - a);
  }

  function Below(at: set<nat>, i: nat): set<nat>
  {
    set j | j in at && j < i
  }

  /** r is what s has at these indices, in order. */
  ghost predicate Selects<T>(r: seq<T>, s: seq<T>, at: set<nat>)
  {
    && |r| == |at|
    && forall i :: i in at ==> i < |s| && |Below(at, i)| < |r| && r[|Below(at, i)|] == s[i]
  }

  lemma SelectsSnoc<T>(r: seq<T>, s: seq<T>, at: set<nat>, x: T, wanted: bool)
    requires Selects(r, s, at)
    ensures Selects(if wanted then r + [x] else r, s + [x], if wanted then at + {|s|} else at)
  {
    var more := if wanted then at + {|s|} else at;
    forall i | i in at ensures Below(more, i) == Below(at, i) {}
    assert Below(more, |s|) == at;
  }
}
