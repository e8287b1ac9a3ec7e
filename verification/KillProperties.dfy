// packages/flutter-ultra-runtime/src/processTree.ts
//
// What the leaf-first kill guarantees: each process once, children before
// parents, and exactly when its defensive fallback is needed.
module KillProperties {
  import opened Collections
  import opened ProcessTree
  import opened KillTree

  // ---------------------------------------------------------------- each process once

  lemma RemoveAtMultiset<T>(s: seq<T>, i: nat)
    requires i < |s|
    ensures multiset(s) == multiset(RemoveAt(s, i)) + multiset{s[i]}
  {
    assert s == s[..i] + [s[i]] + s[i + 1..];
  }

  lemma RemovePidMultiset(rem: seq<Proc>, pid: int)
    requires pid in PidSet(rem)
    ensures multiset(Pids(rem)) == multiset(Pids(RemovePid(rem, pid))) + multiset{pid}
  {
    var i := IndexOfPid(rem, pid).value;
    RemoveAtMultiset(Pids(rem), i);
    assert Pids(RemoveAt(rem, i)) == RemoveAt(Pids(rem), i);
  }

  lemma PidInMultiset(rem: seq<Proc>, pid: int)
    ensures pid in PidSet(rem) <==> pid in multiset(Pids(rem))
  {
    if pid in PidSet(rem) {
      var k :| 0 <= k < |rem| && rem[k].pid == pid;
      assert Pids(rem)[k] == pid;
    }
    if pid in multiset(Pids(rem)) {
      var k :| 0 <= k < |rem| && Pids(rem)[k] == pid;
      assert rem[k] in rem;
    }
  }

  lemma CancelOne(a: multiset<int>, b: multiset<int>, x: int)
    requires multiset{x} + a <= b + multiset{x}
    ensures a <= b
  {
    forall y ensures a[y] <= b[y] {
      assert (multiset{x} + a)[y] <= (b + multiset{x})[y];
    }
  }

  lemma {:induction false} RemoveEachMultiset(rem: seq<Proc>, ps: seq<Proc>)
    requires multiset(Pids(ps)) <= multiset(Pids(rem))
    ensures multiset(Pids(rem)) == multiset(Pids(ps)) + multiset(Pids(RemoveEach(rem, ps)))
    decreases |ps|
  {
    if ps == [] {
      assert Pids(ps) == [];
    } else {
      assert Pids(ps) == [ps[0].pid] + Pids(ps[1..]);
      assert multiset(Pids(ps)) == multiset{ps[0].pid} + multiset(Pids(ps[1..]));
      assert ps[0].pid in multiset(Pids(rem));
      PidInMultiset(rem, ps[0].pid);
      RemovePidMultiset(rem, ps[0].pid);
      CancelOne(multiset(Pids(ps[1..])), multiset(Pids(RemovePid(rem, ps[0].pid))), ps[0].pid);
      RemoveEachMultiset(RemovePid(rem, ps[0].pid), ps[1..]);
    }
  }

  lemma {:induction false} LeavesMultiset(rem: seq<Proc>, ps: seq<Proc>)
    ensures multiset(Pids(LeavesAmong(rem, ps))) <= multiset(Pids(ps))
  {
    if ps != [] {
      var before, last := ps[..|ps| - 1], ps[|ps| - 1];
      LeavesMultiset(rem, before);
      assert Pids(ps) == Pids(before) + [last.pid];
      assert Pids(LeavesAmong(rem, before) + [last]) == Pids(LeavesAmong(rem, before)) + [last.pid];
    }
  }

  lemma {:induction false} AliasedMultiset(rem: seq<Proc>, i: nat)
    ensures multiset(Pids(rem)) == multiset(AliasedPass(rem, i).0) + multiset(Pids(AliasedPass(rem, i).1))
    decreases |rem|
  {
    if i < |rem| {
      RemovePidMultiset(rem, rem[i].pid);
      AliasedMultiset(RemovePid(rem, rem[i].pid), i + 1);
      var rest := AliasedPass(RemovePid(rem, rem[i].pid), i + 1);
      assert multiset([rem[i].pid] + rest.0) == multiset{rem[i].pid} + multiset(rest.0);
    }
  }

  /** Each process of the tree is attempted exactly as often as it is listed,
      whatever the links, fallback included. */
  lemma {:induction false} AttemptsEach(rem: seq<Proc>)
    ensures multiset(KillOrder(rem)) == multiset(Pids(rem))
    decreases |rem|
  {
    if rem != [] {
      if Leaves(rem) != [] {
        LeavesMultiset(rem, rem);
        RemoveEachMultiset(rem, Leaves(rem));
      } else {
        AliasedMultiset(rem, 0);
      }
      AttemptsEach(Round(rem).1);
    }
  }

  lemma {:induction false} DistinctByMultiset(s: seq<int>)
    requires forall x :: multiset(s)[x] <= 1
    ensures Distinct(s)
  {
    if s != [] {
      var rest := s[..|s| - 1];
      assert s == rest + [s[|s| - 1]];
      forall x ensures multiset(rest)[x] <= 1 {
        assert multiset(s)[x] >= multiset(rest)[x];
      }
      DistinctByMultiset(rest);
      assert multiset(s)[s[|s| - 1]] == multiset(rest)[s[|s| - 1]] + 1;
      assert s[|s| - 1] !in rest;
    }
  }

  lemma {:induction false} DistinctPidsMultiset(ps: seq<Proc>, x: int)
    requires DistinctPids(ps)
    ensures multiset(Pids(ps))[x] <= 1
  {
    if ps != [] {
      var rest := ps[..|ps| - 1];
      var last := ps[|ps| - 1];
      assert Pids(ps) == Pids(rest) + [last.pid];
      DistinctPidsMultiset(rest, x);
      PidInMultiset(rest, last.pid);
    }
  }

  lemma EachExactlyOnce(tree: seq<Proc>)
    requires DistinctPids(tree)
    ensures Distinct(KillOrder(tree))
    ensures forall pid :: pid in KillOrder(tree) <==> pid in PidSet(tree)
  {
    AttemptsEach(tree);
    forall x ensures multiset(KillOrder(tree))[x] <= 1 { DistinctPidsMultiset(tree, x); }
    DistinctByMultiset(KillOrder(tree));
    forall pid ensures pid in KillOrder(tree) <==> pid in PidSet(tree) {
      PidInMultiset(tree, pid);
      assert pid in KillOrder(tree) <==> pid in multiset(KillOrder(tree));
    }
  }

  // ---------------------------------------------------------------- what a round leaves

  lemma RemovePidMembers(rem: seq<Proc>, pid: int, p: Proc)
    requires DistinctPids(rem)
    ensures DistinctPids(RemovePid(rem, pid))
    ensures p in RemovePid(rem, pid) <==> p in rem && p.pid != pid
  {
    var found := IndexOfPid(rem, pid);
    if found.None? {
      assert p in rem ==> p.pid in PidSet(rem);
    } else {
      var i := found.value;
      var r := RemoveAt(rem, i);
      assert forall k :: 0 <= k < |r| ==> r[k] == if k < i then rem[k] else rem[k + 1];
      if p in rem && p.pid != pid {
        var k :| 0 <= k < |rem| && rem[k] == p;
        assert r[if k < i then k else k - 1] == p;
      }
    }
  }

  lemma {:induction false} RemoveEachMembers(rem: seq<Proc>, ps: seq<Proc>, p: Proc)
    requires DistinctPids(rem)
    ensures DistinctPids(RemoveEach(rem, ps))
    ensures p in RemoveEach(rem, ps) <==> p in rem && p.pid !in PidSet(ps)
    decreases |ps|
  {
    if ps != [] {
      RemovePidMembers(rem, ps[0].pid, p);
      RemoveEachMembers(RemovePid(rem, ps[0].pid), ps[1..], p);
      assert PidSet(ps) == {ps[0].pid} + PidSet(ps[1..]) by {
        assert forall q :: q in ps <==> q == ps[0] || q in ps[1..];
      }
    }
  }

  /** With leaves, a round drops the leaves and nothing else. */
  lemma RoundKeepsOthers(rem: seq<Proc>, p: Proc)
    requires DistinctPids(rem) && Leaves(rem) != []
    ensures DistinctPids(Round(rem).1)
    ensures p in Round(rem).1 <==> p in rem && !IsLeaf(rem, p)
  {
    LeavesAreMembers(rem, rem);
    RemoveEachMembers(rem, Leaves(rem), p);
    if p in rem && p.pid in PidSet(Leaves(rem)) {
      var q :| q in Leaves(rem) && q.pid == p.pid;
      SameRow(rem, p, q);
    }
  }

  // ---------------------------------------------------------------- order

  /** Whoever has its parent in the list has it in front. */
  ghost predicate ParentsInFront(rem: seq<Proc>)
  {
    forall j, k :: 0 <= j < |rem| && 0 <= k < |rem| && rem[k].ppid == rem[j].pid ==> j < k
  }

  lemma RemovePidKeepsOrder(rem: seq<Proc>, pid: int)
    requires ParentsInFront(rem)
    ensures ParentsInFront(RemovePid(rem, pid))
  {
    var found := IndexOfPid(rem, pid);
    if found.Some? {
      var i := found.value;
      var r := RemoveAt(rem, i);
      assert forall k :: 0 <= k < |r| ==> r[k] == rem[if k < i then k else k + 1];
    }
  }

  lemma {:induction false} RemoveEachKeepsOrder(rem: seq<Proc>, ps: seq<Proc>)
    requires ParentsInFront(rem)
    ensures ParentsInFront(RemoveEach(rem, ps))
    decreases |ps|
  {
    if ps != [] {
      RemovePidKeepsOrder(rem, ps[0].pid);
      RemoveEachKeepsOrder(RemovePid(rem, ps[0].pid), ps[1..]);
    }
  }

  /** The last one in the list is a leaf. */
  lemma LastIsLeaf(rem: seq<Proc>)
    requires rem != [] && ParentsInFront(rem)
    ensures Leaves(rem) != []
  {
    var last := rem[|rem| - 1];
    assert IsLeaf(rem, last);
    LeavesAreMembers(rem, rem);
    assert last in Leaves(rem);
  }

  lemma {:induction false} NoFallback(rem: seq<Proc>)
    requires ParentsInFront(rem)
    ensures !FallbackTaken(rem)
    decreases |rem|
  {
    if rem != [] {
      LastIsLeaf(rem);
      RemoveEachKeepsOrder(rem, Leaves(rem));
      NoFallback(Round(rem).1);
    }
  }

  ghost predicate Before(order: seq<int>, x: int, y: int)
  {
    exists i, j :: 0 <= i < j < |order| && order[i] == x && order[j] == y
  }

  lemma BeforeInRest(first: seq<int>, later: seq<int>, x: int, y: int)
    requires Before(later, x, y)
    ensures Before(first + later, x, y)
  {
    var i, j :| 0 <= i < j < |later| && later[i] == x && later[j] == y;
    assert (first + later)[|first| + i] == x && (first + later)[|first| + j] == y;
  }

  lemma BeforeAcross(first: seq<int>, later: seq<int>, x: int, y: int)
    requires x in first && y in later
    ensures Before(first + later, x, y)
  {
    var i :| 0 <= i < |first| && first[i] == x;
    var j :| 0 <= j < |later| && later[j] == y;
    assert (first + later)[i] == x && (first + later)[|first| + j] == y;
  }

  /** A round attempts exactly its leaves, so a parent of somebody is left. */
  lemma RoundSplits(rem: seq<Proc>, p: Proc)
    requires DistinctPids(rem) && Leaves(rem) != [] && p in rem
    ensures IsLeaf(rem, p) ==> p.pid in Round(rem).0
    ensures !IsLeaf(rem, p) ==> p in Round(rem).1 && p.pid in KillOrder(Round(rem).1)
  {
    RoundKeepsOthers(rem, p);
    if IsLeaf(rem, p) {
      LeavesAreMembers(rem, rem);
      var i :| 0 <= i < |Leaves(rem)| && Leaves(rem)[i] == p;
      assert Pids(Leaves(rem))[i] == p.pid;
    } else {
      EachExactlyOnce(Round(rem).1);
    }
  }

  lemma {:induction false} ChildBeforeParent(rem: seq<Proc>, child: Proc, parent: Proc)
    requires DistinctPids(rem) && ParentsInFront(rem)
    requires child in rem && parent in rem && child.ppid == parent.pid
    ensures Before(KillOrder(rem), child.pid, parent.pid)
    decreases |rem|
  {
    LastIsLeaf(rem);
    RoundSplits(rem, child);
    RoundSplits(rem, parent);
    assert !IsLeaf(rem, parent);
    if IsLeaf(rem, child) {
      BeforeAcross(Round(rem).0, KillOrder(Round(rem).1), child.pid, parent.pid);
    } else {
      RoundKeepsOthers(rem, child);
      RemoveEachKeepsOrder(rem, Leaves(rem));
      ChildBeforeParent(Round(rem).1, child, parent);
      BeforeInRest(Round(rem).0, KillOrder(Round(rem).1), child.pid, parent.pid);
    }
  }

  lemma BeforeTransitive(order: seq<int>, x: int, y: int, z: int)
    requires Distinct(order) && Before(order, x, y) && Before(order, y, z)
    ensures Before(order, x, z)
  {
    var i, j :| 0 <= i < j < |order| && order[i] == x && order[j] == y;
    var k, l :| 0 <= k < l < |order| && order[k] == y && order[l] == z;
    assert j == k;
  }

  /** Along any chain of the tree, the last process is attempted before the first. */
  lemma {:induction false} ChainKilledBottomUp(tree: seq<Proc>, path: seq<Proc>)
    requires DistinctPids(tree) && ParentsInFront(tree)
    requires IsChain(tree, path) && |path| > 1
    ensures Before(KillOrder(tree), path[|path| - 1].pid, path[0].pid)
    decreases |path|
  {
    var shorter := path[..|path| - 1];
    assert Link(path[|path| - 2], path[|path| - 1]);
    ChildBeforeParent(tree, path[|path| - 1], path[|path| - 2]);
    if |path| > 2 {
      ChainKilledBottomUp(tree, shorter);
      EachExactlyOnce(tree);
      BeforeTransitive(KillOrder(tree), path[|path| - 1].pid, path[|path| - 2].pid, path[0].pid);
    }
  }

  // ---------------------------------------------------------------- collected trees

  lemma CollectedInFront(all: seq<Proc>, root: Proc, tree: seq<Proc>)
    requires Collected(all, root, tree, PidSet(tree)) && root.ppid !in PidSet(tree)
    ensures ParentsInFront(tree)
  {
    forall j, k | 0 <= j < |tree| && 0 <= k < |tree| && tree[k].ppid == tree[j].pid
      ensures j < k
    {
      assert tree[j] in tree;
      assert k != 0;
      assert HasParentBefore(tree, k);
      var i :| 0 <= i < k && Link(tree[i], tree[k]);
      SameRow(tree, tree[i], tree[j]);
      assert i == j;
    }
  }

  predicate HasChildIn(ps: seq<Proc>, p: Proc)
  {
    exists i :: 0 <= i < |ps| && ps[i].ppid == p.pid
  }

  lemma RoundKeepsParent(rem: seq<Proc>, ps: seq<Proc>, p: Proc)
    requires DistinctPids(rem) && Leaves(rem) != [] && p in rem
    requires (forall i :: 0 <= i < |ps| ==> ps[i] in rem) && HasChildIn(ps, p)
    ensures DistinctPids(Round(rem).1) && p in Round(rem).1
  {
    var i :| 0 <= i < |ps| && ps[i].ppid == p.pid;
    var k :| 0 <= k < |rem| && rem[k] == ps[i];
    assert !IsLeaf(rem, p);
    RoundKeepsOthers(rem, p);
  }

  /** Processes each of which has a child among them never become leaves, so the
      fallback is reached. */
  lemma {:induction false} CycleForcesFallback(rem: seq<Proc>, cycle: seq<Proc>)
    requires DistinctPids(rem) && cycle != []
    requires forall i :: 0 <= i < |cycle| ==> cycle[i] in rem && HasChildIn(cycle, cycle[i])
    ensures FallbackTaken(rem)
    decreases |rem|
  {
    assert cycle[0] in rem;
    if Leaves(rem) != [] {
      RoundKeepsParent(rem, cycle, cycle[0]);
      forall i | 0 <= i < |cycle| ensures cycle[i] in Round(rem).1 {
        RoundKeepsParent(rem, cycle, cycle[i]);
      }
      CycleForcesFallback(Round(rem).1, cycle);
    }
  }

  lemma {:induction false} ParentPath(all: seq<Proc>, root: Proc, tree: seq<Proc>, k: nat) returns (path: seq<Proc>)
    requires Collected(all, root, tree, PidSet(tree)) && k < |tree|
    ensures IsChain(tree, path) && path[0] == root && path[|path| - 1] == tree[k]
    decreases k
  {
    if k == 0 {
      path := [root];
    } else {
      assert HasParentBefore(tree, k);
      var j :| 0 <= j < k && Link(tree[j], tree[k]);
      path := ParentPath(all, root, tree, j);
      path := path + [tree[k]];
    }
  }

  /** On a collected tree the fallback is taken exactly when the root's own
      parent pid belongs to the tree, that is, when the links form a cycle. */
  lemma FallbackIff(all: seq<Proc>, root: Proc, tree: seq<Proc>)
    requires Collected(all, root, tree, PidSet(tree))
    ensures FallbackTaken(tree) <==> root.ppid in PidSet(tree)
  {
    if root.ppid !in PidSet(tree) {
      CollectedInFront(all, root, tree);
      NoFallback(tree);
    } else {
      var k :| 0 <= k < |tree| && tree[k].pid == root.ppid;
      var path := ParentPath(all, root, tree, k);
      PathIsCycle(tree, path);
      CycleForcesFallback(tree, path);
    }
  }

  lemma PathIsCycle(tree: seq<Proc>, path: seq<Proc>)
    requires IsChain(tree, path) && path[0].ppid == path[|path| - 1].pid
    ensures forall i :: 0 <= i < |path| ==> HasChildIn(path, path[i])
  {
    forall i | 0 <= i < |path| ensures HasChildIn(path, path[i]) {
      if i + 1 < |path| {
        assert Link(path[i + 1 - 1], path[i + 1]);
      } else {
        assert path[0].ppid == path[i].pid;
      }
    }
  }

  /** On such a tree every process is attempted strictly after each of its
      descendants. */
  lemma DescendantsFirst(all: seq<Proc>, root: Proc, tree: seq<Proc>, path: seq<Proc>)
    requires Collected(all, root, tree, PidSet(tree)) && root.ppid !in PidSet(tree)
    requires IsChain(tree, path) && |path| > 1
    ensures Before(KillOrder(tree), path[|path| - 1].pid, path[0].pid)
    ensures !Before(KillOrder(tree), path[0].pid, path[|path| - 1].pid)
  {
    CollectedInFront(all, root, tree);
    ChainKilledBottomUp(tree, path);
    EachExactlyOnce(tree);
  }

  // ---------------------------------------------------------------- verified teardown

  // What process.kill has done, and whether nothing can have been missed.
  datatype Teardown = Teardown(attempts: seq<int>, killed: seq<int>, confident: bool)

  /** The attempts that succeed, by number. */
  function DyingBefore(n: nat, dies: nat -> bool): set<nat>
  {
    set i | 0 <= i < n && dies(i)
  }

  /** What counts as killed is exactly the attempts that succeed, in order. */
  lemma {:induction false} KilledAreSuccesses(attempts: seq<int>, dies: nat -> bool)
    ensures Selects(Successes(attempts, dies), attempts, DyingBefore(|attempts|, dies))
  {
    if attempts == [] {
      assert DyingBefore(0, dies) == {};
    } else {
      var n := |attempts| - 1;
      var at := DyingBefore(n, dies);
      KilledAreSuccesses(attempts[..n], dies);
      SelectsSnoc(Successes(attempts[..n], dies), attempts[..n], at, attempts[n], dies(n));
      assert attempts == attempts[..n] + [attempts[n]];
      DyingNext(n, dies);
    }
  }

  lemma DyingNext(n: nat, dies: nat -> bool)
    ensures var at := DyingBefore(n, dies); DyingBefore(n + 1, dies) == if dies(n) then at + {n} else at
  {
  }

  /** The root is listed, and is still the process recorded at launch. */
  predicate StillOurs(all: seq<Proc>, rootPid: int, expectedStartKey: Option<string>)
  {
    && rootPid in PidSet(all)
    && (expectedStartKey.Some? ==> Find(all, rootPid).value.startKey == expectedStartKey.value)
  }

  ghost predicate ChildrenFirst(all: seq<Proc>, order: seq<int>)
  {
    forall p: Proc, q: Proc :: p in all && q in all && p.pid in order && q.pid in order ==>
      (q.ppid == p.pid ==> Before(order, q.pid, p.pid))
  }

  /** Exactly the root and its descendants are attempted, each once, children
      before parents unless the links form a cycle through the root. */
  ghost predicate TearsDown(all: seq<Proc>, root: Proc, attempts: seq<int>)
  {
    && Distinct(attempts)
    && (forall pid :: pid in attempts ==> pid in PidSet(all))
    && (forall p :: p in all ==> (p.pid in attempts <==> Descends(all, root, p)))
    && (root.ppid !in attempts ==> ChildrenFirst(all, attempts))
  }

  /** The listing is None when it failed; `expectedStartKey` is what was recorded
      at launch, if anything. Without a row for the root there is one blind
      attempt; when the pid belongs to somebody else now, there is none. */
  method KillProcessTreeVerified(listing: Option<seq<Proc>>, rootPid: int, expectedStartKey: Option<string>,
                                 dies: nat -> bool) returns (t: Teardown)
    ensures t.killed == Successes(t.attempts, dies)
    ensures t.confident <==> listing.Some?
    ensures listing.None? || rootPid !in PidSet(listing.value) ==> t.attempts == [rootPid]
    ensures listing.Some? && rootPid in PidSet(listing.value) ==>
              if !StillOurs(listing.value, rootPid, expectedStartKey) then t.attempts == []
              else DistinctPids(listing.value) ==>
                TearsDown(listing.value, Find(listing.value, rootPid).value, t.attempts)
  {
    if listing.None? {
      return Teardown([rootPid], Successes([rootPid], dies), false);
    }
    var all := listing.value;
    var root := Find(all, rootPid);
    if root.None? {
      return Teardown([rootPid], Successes([rootPid], dies), true);
    }
    if expectedStartKey.Some? && root.value.startKey != expectedStartKey.value {
      return Teardown([], [], true);
    }
    var tree := CollectDescendants(all, rootPid);
    var killed, attempts := KillBottomUp(tree, dies);
    t := Teardown(attempts, killed, true);
    if DistinctPids(all) {
      TreeAttempted(all, root.value, tree);
    }
  }

  lemma TreeAttempted(all: seq<Proc>, root: Proc, tree: seq<Proc>)
    requires DistinctPids(all) && Collected(all, root, tree, PidSet(tree))
    requires forall p :: p in tree <==> Descends(all, root, p)
    ensures TearsDown(all, root, KillOrder(tree))
  {
    var order := KillOrder(tree);
    EachExactlyOnce(tree);
    forall p | p in all ensures p.pid in PidSet(tree) <==> p in tree {
      if p.pid in PidSet(tree) {
        var q :| q in tree && q.pid == p.pid;
        SameRow(all, p, q);
      }
    }
    if root.ppid !in order {
      CollectedInFront(all, root, tree);
      forall p: Proc, q: Proc | p in all && q in all && p.pid in order && q.pid in order && q.ppid == p.pid
        ensures Before(order, q.pid, p.pid)
      {
        ChildBeforeParent(tree, q, p);
      }
    }
  }
}
