// packages/flutter-ultra-runtime/src/processTree.ts
//
// The leaf-first kill of a collected tree, with the array it shrinks while it
// may be iterating over it, and the verified teardown built on both.
module KillTree {
  import opened Collections
  import opened ProcessTree

  /** A JavaScript array: two variables may name the same one. */
  class JsArray<T> {
    var items: seq<T>

    constructor (items: seq<T>)
      ensures this.items == items
    {
      this.items := items;
    }
  }

  // ---------------------------------------------------------------- specification

  predicate IsLeaf(rem: seq<Proc>, p: Proc)
  {
    forall k :: 0 <= k < |rem| ==> rem[k].ppid != p.pid
  }

  function Leaves(rem: seq<Proc>): seq<Proc>
  {
    LeavesAmong(rem, rem)
  }

  function LeavesAmong(rem: seq<Proc>, ps: seq<Proc>): seq<Proc>
  {
    if ps == [] then []
    else
      var before := LeavesAmong(rem, ps[..|ps| - 1]);
      if IsLeaf(rem, ps[|ps| - 1]) then before + [ps[|ps| - 1]] else before
  }

  /** `findIndex((x) => x.pid === pid)` */
  function IndexOfPid(rem: seq<Proc>, pid: int): (r: Option<nat>)
    ensures r.Some? ==> r.value < |rem| && rem[r.value].pid == pid
    ensures r.None? ==> pid !in PidSet(rem)
  {
    if rem == [] then None
    else if rem[0].pid == pid then Some(0)
    else
      assert forall p :: p in rem <==> p == rem[0] || p in rem[1..];
      match IndexOfPid(rem[1..], pid)
      case None => None
      case Some(i) => Some(i + 1)
  }

  function RemoveAt<T>(s: seq<T>, i: nat): seq<T>
    requires i < |s|
  {
    s[..i] + s[i + 1..]
  }

  function RemovePid(rem: seq<Proc>, pid: int): (r: seq<Proc>)
    ensures |r| == |rem| - if pid in PidSet(rem) then 1 else 0
  {
    match IndexOfPid(rem, pid)
    case None => rem
    case Some(i) => RemoveAt(rem, i)
  }

  function RemoveEach(rem: seq<Proc>, ps: seq<Proc>): (r: seq<Proc>)
    ensures |r| <= |rem|
    ensures ps != [] && ps[0] in rem ==> |r| < |rem|
  {
    if ps == [] then rem else RemoveEach(RemovePid(rem, ps[0].pid), ps[1..])
  }

  /** The fallback round, where the array iterated over is the one spliced: the
      index moves on while the elements behind it move up. */
  function AliasedPass(rem: seq<Proc>, i: nat): (r: (seq<int>, seq<Proc>))
    ensures |r.1| <= |rem|
    ensures i < |rem| ==> |r.1| < |rem|
    decreases |rem|
  {
    if i >= |rem| then ([], rem)
    else
      var rest := AliasedPass(RemovePid(rem, rem[i].pid), i + 1);
      ([rem[i].pid] + rest.0, rest.1)
  }

  /** One turn of the outer loop: the pids attempted, and what remains. */
  function Round(rem: seq<Proc>): (r: (seq<int>, seq<Proc>))
    ensures rem != [] ==> |r.1| < |rem|
  {
    var leaves := Leaves(rem);
    if leaves != [] then
      LeavesAreMembers(rem, rem);
      (Pids(leaves), RemoveEach(rem, leaves))
    else AliasedPass(rem, 0)
  }

  /** Every kill attempt, in order. */
  function KillOrder(rem: seq<Proc>): seq<int>
    decreases |rem|
  {
    if rem == [] then [] else Round(rem).0 + KillOrder(Round(rem).1)
  }

  predicate FallbackTaken(rem: seq<Proc>)
    decreases |rem|
  {
    rem != [] && (Leaves(rem) == [] || FallbackTaken(Round(rem).1))
  }

  /** The attempts that succeed; `dies(n)` is whether the n-th one (from 0) does. */
  function Successes(attempts: seq<int>, dies: nat -> bool): seq<int>
  {
    if attempts == [] then []
    else
      var n := |attempts| - 1;
      Successes(attempts[..n], dies) + if dies(n) then [attempts[n]] else []
  }

  /** What an inner loop at index i still does: to a batch of its own, or to the
      array it iterates over. */
  function Turn(aliased: bool, rem: seq<Proc>, batch: seq<Proc>, i: nat): (seq<int>, seq<Proc>)
    requires i <= |batch| || aliased
  {
    if aliased then AliasedPass(rem, i) else (Pids(batch[i..]), RemoveEach(rem, batch[i..]))
  }

  lemma TurnStep(aliased: bool, rem: seq<Proc>, batch: seq<Proc>, i: nat)
    requires i < |batch| && (aliased ==> batch == rem)
    ensures var pid := batch[i].pid;
            var rest := Turn(aliased, RemovePid(rem, pid), batch, i + 1);
            Turn(aliased, rem, batch, i) == ([pid] + rest.0, rest.1)
  {
    if !aliased {
      assert batch[i..][0] == batch[i] && batch[i..][1..] == batch[i + 1..];
      assert Pids(batch[i..]) == [batch[i].pid] + Pids(batch[i + 1..]);
    }
  }

  lemma RoundIsTurn(rem: seq<Proc>)
    ensures Round(rem) == Turn(Leaves(rem) == [], rem, Leaves(rem), 0)
  {
    assert Leaves(rem)[0..] == Leaves(rem);
  }

  lemma {:induction false} LeavesAreMembers(rem: seq<Proc>, ps: seq<Proc>)
    ensures forall p :: p in LeavesAmong(rem, ps) <==> p in ps && IsLeaf(rem, p)
  {
    if ps != [] {
      LeavesAreMembers(rem, ps[..|ps| - 1]);
      assert forall p :: p in ps <==> p in ps[..|ps| - 1] || p == ps[|ps| - 1];
    }
  }

  // ---------------------------------------------------------------- code

  method FindLeaves(remaining: JsArray<Proc>) returns (leaves: JsArray<Proc>)
    ensures fresh(leaves) && leaves.items == Leaves(remaining.items)
  {
    var rem := remaining.items;
    leaves := new JsArray([]);
    for i := 0 to |rem|
      invariant fresh(leaves) && leaves.items == LeavesAmong(rem, rem[..i]) && remaining.items == rem
    {
      assert rem[..i + 1][..i] == rem[..i];
      if IsLeaf(rem, rem[i]) {
        leaves.items := leaves.items + [rem[i]];
      }
    }
    assert rem[..|rem|] == rem;
  }

  /** One attempt, and the process taken out of the remaining ones. */
  method KillOne(remaining: JsArray<Proc>, p: Proc, before: seq<int>, killedBefore: seq<int>, dies: nat -> bool)
    returns (killed: seq<int>, attempts: seq<int>)
    requires killedBefore == Successes(before, dies)
    modifies remaining
    ensures remaining.items == RemovePid(old(remaining.items), p.pid)
    ensures attempts == before + [p.pid] && killed == Successes(attempts, dies)
  {
    SuccessesSnoc(before, p.pid, dies);
    killed := if dies(|before|) then killedBefore + [p.pid] else killedBefore;
    attempts := before + [p.pid];
    var idx := IndexOfPid(remaining.items, p.pid);
    if idx.Some? {
      remaining.items := RemoveAt(remaining.items, idx.value);
    }
  }

  /** The batch from index i on: the attempts still to come, and what will remain. */
  ghost predicate Ahead(aliased: bool, rem: seq<Proc>, leaves: seq<Proc>, i: nat, todo: seq<int>, end: seq<Proc>)
  {
    (aliased || i <= |leaves|) && Turn(aliased, rem, leaves, i) == (todo, end)
  }

  lemma AheadAtFirst(rem: seq<Proc>)
    ensures Ahead(Leaves(rem) == [], rem, Leaves(rem), 0, Round(rem).0, Round(rem).1)
  {
    RoundIsTurn(rem);
  }

  lemma AheadMoves(aliased: bool, rem: seq<Proc>, batch: seq<Proc>, leaves: seq<Proc>, i: nat,
                   todo: seq<int>, end: seq<Proc>)
    requires Ahead(aliased, rem, leaves, i, todo, end)
    requires i < |batch| && batch == if aliased then rem else leaves
    ensures todo != [] && todo[0] == batch[i].pid
    ensures Ahead(aliased, RemovePid(rem, batch[i].pid), leaves, i + 1, todo[1..], end)
  {
    TurnStep(aliased, rem, batch, i);
    assert ([batch[i].pid] + todo[1..])[1..] == todo[1..];
  }

  lemma AheadEnds(aliased: bool, rem: seq<Proc>, leaves: seq<Proc>, i: nat, todo: seq<int>, end: seq<Proc>)
    requires Ahead(aliased, rem, leaves, i, todo, end) && i >= |if aliased then rem else leaves|
    ensures todo == [] && end == rem
  {
  }

  lemma MoveFirst(attempts: seq<int>, todo: seq<int>)
    requires todo != []
    ensures (attempts + [todo[0]]) + todo[1..] == attempts + todo
  {
    AppendAssoc(attempts, [todo[0]], todo[1..]);
    assert [todo[0]] + todo[1..] == todo;
  }

  lemma SuccessesSnoc(attempts: seq<int>, pid: int, dies: nat -> bool)
    ensures Successes(attempts + [pid], dies)
         == Successes(attempts, dies) + if dies(|attempts|) then [pid] else []
  {
    var more := attempts + [pid];
    assert more[..|more| - 1] == attempts && more[|more| - 1] == pid;
  }

  /** One turn of the outer loop. */
  method KillRound(remaining: JsArray<Proc>, before: seq<int>, killedBefore: seq<int>, dies: nat -> bool)
    returns (killed: seq<int>, attempts: seq<int>)
    requires killedBefore == Successes(before, dies)
    modifies remaining
    ensures attempts == before + Round(old(remaining.items)).0
    ensures remaining.items == Round(old(remaining.items)).1
    ensures killed == Successes(attempts, dies)
  {
    killed, attempts := killedBefore, before;
    var leaves := FindLeaves(remaining);
    // in the fallback the batch is the very array that is spliced below
    var batch: JsArray<Proc> := if |leaves.items| > 0 then leaves else remaining;
    ghost var aliased, todo, end := batch == remaining, Round(remaining.items).0, Round(remaining.items).1;
    AheadAtFirst(remaining.items);
    var i := 0;
    while i < |batch.items|
      invariant batch == if aliased then remaining else leaves
      invariant Ahead(aliased, remaining.items, leaves.items, i, todo, end)
      invariant attempts + todo == before + Round(old(remaining.items)).0
      invariant killed == Successes(attempts, dies)
      decreases |batch.items| - i
    {
      var p := batch.items[i];
      AheadMoves(aliased, remaining.items, batch.items, leaves.items, i, todo, end);
      MoveFirst(attempts, todo);
      todo := todo[1..];
      killed, attempts := KillOne(remaining, p, attempts, killed, dies);
      i := i + 1;
    }
    AheadEnds(aliased, remaining.items, leaves.items, i, todo, end);
  }

  method KillBottomUp(tree: seq<Proc>, dies: nat -> bool) returns (killed: seq<int>, attempts: seq<int>)
    ensures attempts == KillOrder(tree)
    ensures killed == Successes(attempts, dies)
  {
    var remaining := new JsArray(tree);
    killed, attempts := [], [];
    while |remaining.items| > 0
      invariant fresh(remaining)
      invariant attempts + KillOrder(remaining.items) == KillOrder(tree)
      invariant killed == Successes(attempts, dies)
      decreases |remaining.items|
    {
      AppendAssoc(attempts, Round(remaining.items).0, KillOrder(Round(remaining.items).1));
      killed, attempts := KillRound(remaining, attempts, killed, dies);
    }
  }
}
