// packages/flutter-ultra-runtime/src/processTree.ts
//
// Which processes a tree walk collects from one process table, however stale
// or cyclic its parent links are.
module ProcessTree {
  import opened Collections

  // One row of the process table; `start` is None where the source has NaN.
  datatype Proc = Proc(pid: int, ppid: int, startKey: string, start: Option<int>)

  predicate DistinctPids(ps: seq<Proc>)
  {
    forall i, j :: 0 <= i < j < |ps| ==> ps[i].pid != ps[j].pid
  }

  function Pids(ps: seq<Proc>): (r: seq<int>)
    ensures |r| == |ps|
  {
    seq(|ps|, i requires 0 <= i < |ps| => ps[i].pid)
  }

  function PidSet(ps: seq<Proc>): set<int>
  {
    set p | p in ps :: p.pid
  }

  /** `all.find((p) => p.pid === pid)` */
  function Find(ps: seq<Proc>, pid: int): (r: Option<Proc>)
    ensures r.None? <==> pid !in PidSet(ps)
    ensures r.Some? ==> r.value in ps && r.value.pid == pid
  {
    if ps == [] then None
    else if ps[0].pid == pid then Some(ps[0])
    else
      assert forall p :: p in ps <==> p == ps[0] || p in ps[1..];
      Find(ps[1..], pid)
  }

  /** Where a table lists a pid more than once, the first row counts. */
  lemma {:induction false} FindIsFirst(ps: seq<Proc>, i: nat)
    requires i < |ps| && forall j :: 0 <= j < i ==> ps[j].pid != ps[i].pid
    ensures Find(ps, ps[i].pid) == Some(ps[i])
  {
    if i > 0 {
      assert ps[0].pid != ps[i].pid;
      FindIsFirst(ps[1..], i - 1);
    }
  }

  /** A parent link that can be trusted: the child did not start earlier. */
  predicate Link(parent: Proc, child: Proc)
  {
    && child.ppid == parent.pid
    && child.start.Some? && parent.start.Some?
    && child.start.value >= parent.start.value
  }

  ghost predicate IsChain(all: seq<Proc>, path: seq<Proc>)
  {
    && path != []
    && (forall i :: 0 <= i < |path| ==> path[i] in all)
    && forall i :: 0 < i < |path| ==> Link(path[i - 1], path[i])
  }

  /** p's parent chain reaches root through trusted links of the table. */
  ghost predicate Descends(all: seq<Proc>, root: Proc, p: Proc)
  {
    exists path :: IsChain(all, path) && path[0] == root && path[|path| - 1] == p
  }

  /** Every collected process but the first has its parent in front of it. */
  ghost predicate ParentFirst(result: seq<Proc>)
  {
    forall k :: 0 < k < |result| ==> HasParentBefore(result, k)
  }

  ghost predicate HasParentBefore(result: seq<Proc>, k: nat)
    requires k < |result|
  {
    exists j :: 0 <= j < k && Link(result[j], result[k])
  }

  /** Every trusted child of the processes handled so far has been visited. */
  ghost predicate ClosedUpTo(all: seq<Proc>, result: seq<Proc>, handled: nat, visited: set<int>)
    requires handled <= |result|
  {
    forall j, c :: 0 <= j < handled && c in all && Link(result[j], c) ==> c.pid in visited
  }

  function ChildrenOf(ps: seq<Proc>, pid: int): seq<Proc>
  {
    if ps == [] then []
    else
      var before := ChildrenOf(ps[..|ps| - 1], pid);
      if ps[|ps| - 1].ppid == pid then before + [ps[|ps| - 1]] else before
  }

  lemma {:induction false} ChildrenOfIff(ps: seq<Proc>, pid: int, p: Proc)
    ensures p in ChildrenOf(ps, pid) <==> p in ps && p.ppid == pid
  {
    if ps != [] {
      ChildrenOfIff(ps[..|ps| - 1], pid, p);
      assert p in ps <==> p in ps[..|ps| - 1] || p == ps[|ps| - 1];
    }
  }

  method GroupByParent(all: seq<Proc>) returns (byPpid: map<int, seq<Proc>>)
    ensures forall pid :: Get(byPpid, pid).GetOr([]) == ChildrenOf(all, pid)
  {
    byPpid := map[];
    for i := 0 to |all|
      invariant forall pid :: Get(byPpid, pid).GetOr([]) == ChildrenOf(all[..i], pid)
    {
      var p := all[i];
      assert all[..i + 1][..i] == all[..i];
      if p.ppid in byPpid {
        byPpid := byPpid[p.ppid := byPpid[p.ppid] + [p]];
      } else {
        byPpid := byPpid[p.ppid := [p]];
      }
    }
    assert all[..|all|] == all;
  }

  /** Distinct pids, all from the table: no more rows than the table has pids. */
  lemma {:induction false} CountPids(ps: seq<Proc>)
    requires DistinctPids(ps)
    ensures |PidSet(ps)| == |ps|
  {
    if ps == [] {
      assert PidSet(ps) == {};
    } else {
      var rest := ps[..|ps| - 1];
      CountPids(rest);
      assert PidSet(ps) == PidSet(rest) + {ps[|ps| - 1].pid};
      assert ps[|ps| - 1].pid !in PidSet(rest);
    }
  }

  /** What the walk has found: rows of the table with distinct pids, the root
      first and every parent before its children. */
  ghost predicate Collected(all: seq<Proc>, root: Proc, result: seq<Proc>, visited: set<int>)
  {
    && result != [] && result[0] == root
    && (forall k :: 0 <= k < |result| ==> result[k] in all)
    && DistinctPids(result)
    && visited == PidSet(result)
    && ParentFirst(result)
  }

  lemma CollectOne(all: seq<Proc>, root: Proc, result: seq<Proc>, visited: set<int>, j: nat, child: Proc)
    requires Collected(all, root, result, visited) && child in all && child.pid !in visited
    requires j < |result| && Link(result[j], child)
    ensures Collected(all, root, result + [child], visited + {child.pid})
  {
    assert PidSet(result + [child]) == PidSet(result) + {child.pid};
    forall k | 0 <= k < |result| ensures result[k].pid in visited {}
    ParentFirstSnoc(result, j, child);
  }

  lemma ParentFirstSnoc(result: seq<Proc>, j: nat, child: Proc)
    requires ParentFirst(result) && j < |result| && Link(result[j], child)
    ensures ParentFirst(result + [child])
  {
    var more := result + [child];
    forall k | 0 < k < |more| ensures HasParentBefore(more, k) {
      if k < |result| {
        assert HasParentBefore(result, k);
        var i :| 0 <= i < k && Link(result[i], result[k]);
        assert Link(more[i], more[k]);
      } else {
        assert Link(more[j], more[k]);
      }
    }
  }

  ghost predicate ChildrenSeen(parent: Proc, children: seq<Proc>, visited: set<int>)
  {
    forall c :: c in children && Link(parent, c) ==> c.pid in visited
  }

  lemma OneMoreSeen(parent: Proc, children: seq<Proc>, i: nat, visited: set<int>)
    requires i < |children| && ChildrenSeen(parent, children[..i], visited)
    ensures ChildrenSeen(parent, children[..i + 1], visited + {children[i].pid})
    ensures children[i].pid in visited || !Link(parent, children[i]) ==>
              ChildrenSeen(parent, children[..i + 1], visited)
  {
    PrefixSnoc(children, i);
  }

  method CollectDescendants(all: seq<Proc>, rootPid: int) returns (result: seq<Proc>)
    ensures result == [] <==> rootPid !in PidSet(all)
    ensures result != [] ==> Collected(all, Find(all, rootPid).value, result, PidSet(result))
    ensures result != [] ==> forall p :: p in result ==> Descends(all, result[0], p)
    ensures result != [] && DistinctPids(all) ==> forall p :: p in result <==> Descends(all, result[0], p)
  {
    var byPpid := GroupByParent(all);
    var found := Find(all, rootPid);
    if found.None? {
      return [];
    }
    var root := found.value;
    result := [root];
    var visited := {rootPid};
    var queue := [root];
    ghost var handled := 0;
    while |queue| > 0
      invariant handled <= |result| && queue == result[handled..]
      invariant Collected(all, root, result, visited)
      invariant ClosedUpTo(all, result, handled, visited)
      decreases |PidSet(all)| - handled
    {
      AtMostAll(all, result);
      var parent := queue[0];
      queue := queue[1..];
      var children := Get(byPpid, parent.pid).GetOr([]);
      ghost var before := result;
      for i := 0 to |children|
        invariant handled < |before| && before <= result && queue == result[handled + 1..]
        invariant Collected(all, root, result, visited)
        invariant ClosedUpTo(all, result, handled, visited)
        invariant ChildrenSeen(parent, children[..i], visited)
      {
        var child := children[i];
        ChildrenOfIff(all, parent.pid, child);
        OneMoreSeen(parent, children, i, visited);
        if child.pid in visited {
          continue;
        }
        if child.start.None? || parent.start.None? || child.start.value < parent.start.value {
          continue;
        }
        CollectOne(all, root, result, visited, handled, child);
        ClosedGrows(all, result, handled, visited, child);
        DropOfSnoc(result, child, handled + 1);
        visited := visited + {child.pid};
        result := result + [child];
        queue := queue + [child];
      }
      PrefixAll(children);
      HandledOne(all, before, result, handled, visited, children);
      handled := handled + 1;
    }
    WalkComplete(all, root, result, visited);
  }

  lemma ClosedGrows(all: seq<Proc>, result: seq<Proc>, handled: nat, visited: set<int>, child: Proc)
    requires handled <= |result| && ClosedUpTo(all, result, handled, visited)
    ensures ClosedUpTo(all, result + [child], handled, visited + {child.pid})
  {
    assert forall j :: 0 <= j < handled ==> (result + [child])[j] == result[j];
  }

  lemma HandledOne(all: seq<Proc>, before: seq<Proc>, result: seq<Proc>, handled: nat, visited: set<int>,
                   children: seq<Proc>)
    requires handled < |before| && before <= result && ClosedUpTo(all, result, handled, visited)
    requires children == ChildrenOf(all, before[handled].pid)
    requires ChildrenSeen(before[handled], children, visited)
    ensures ClosedUpTo(all, result, handled + 1, visited)
  {
    forall j, c | 0 <= j < handled + 1 && c in all && Link(result[j], c)
      ensures c.pid in visited
    {
      if j == handled {
        ChildrenOfIff(all, before[handled].pid, c);
      }
    }
  }

  lemma WalkComplete(all: seq<Proc>, root: Proc, result: seq<Proc>, visited: set<int>)
    requires Collected(all, root, result, visited) && ClosedUpTo(all, result, |result|, visited)
    ensures forall p :: p in result ==> Descends(all, root, p)
    ensures DistinctPids(all) ==> forall p :: p in result <==> Descends(all, root, p)
  {
    forall p | p in result ensures Descends(all, root, p) {
      var k :| 0 <= k < |result| && result[k] == p;
      CollectedDescends(all, result, k);
    }
    if DistinctPids(all) {
      forall p | Descends(all, root, p) ensures p in result {
        var path :| IsChain(all, path) && path[0] == root && path[|path| - 1] == p;
        ChainStaysInside(all, result, visited, path);
      }
    }
  }

  lemma AtMostAll(all: seq<Proc>, result: seq<Proc>)
    requires DistinctPids(result) && forall k :: 0 <= k < |result| ==> result[k] in all
    ensures |result| <= |PidSet(all)|
  {
    CountPids(result);
    SubsetSize(PidSet(result), PidSet(all));
  }

  lemma LongerChain(all: seq<Proc>, path: seq<Proc>, p: Proc)
    requires IsChain(all, path) && p in all && Link(path[|path| - 1], p)
    ensures Descends(all, path[0], p)
  {
    var longer := path + [p];
    forall i | 0 < i < |longer| ensures Link(longer[i - 1], longer[i]) {
      if i < |path| { assert longer[i - 1] == path[i - 1] && longer[i] == path[i]; }
    }
    assert IsChain(all, longer) && longer[0] == path[0] && longer[|longer| - 1] == p;
  }

  lemma {:induction false} CollectedDescends(all: seq<Proc>, result: seq<Proc>, k: nat)
    requires k < |result| && ParentFirst(result)
    requires forall i :: 0 <= i < |result| ==> result[i] in all
    ensures Descends(all, result[0], result[k])
  {
    if k == 0 {
      assert IsChain(all, [result[0]]);
    } else {
      assert HasParentBefore(result, k);
      var j :| 0 <= j < k && Link(result[j], result[k]);
      CollectedDescends(all, result, j);
      var path :| IsChain(all, path) && path[0] == result[0] && path[|path| - 1] == result[j];
      LongerChain(all, path, result[k]);
    }
  }

  lemma {:induction false} ChainStaysInside(all: seq<Proc>, result: seq<Proc>, visited: set<int>, path: seq<Proc>)
    requires DistinctPids(all) && IsChain(all, path) && result != []
    requires Collected(all, path[0], result, visited) && ClosedUpTo(all, result, |result|, visited)
    ensures path[|path| - 1] in result
    decreases |path|
  {
    if |path| > 1 {
      var shorter := path[..|path| - 1];
      assert IsChain(all, shorter) && shorter[0] == path[0];
      ChainStaysInside(all, result, visited, shorter);
      var last := path[|path| - 1];
      assert Link(shorter[|shorter| - 1], last);
      assert last.pid in visited;
      var r :| r in result && r.pid == last.pid;
      SameRow(all, r, last);
    }
  }

  lemma SameRow(all: seq<Proc>, a: Proc, b: Proc)
    requires DistinctPids(all) && a in all && b in all && a.pid == b.pid
    ensures a == b
  {
    var i :| 0 <= i < |all| && all[i] == a;
    var j :| 0 <= j < |all| && all[j] == b;
    assert !(i < j) && !(j < i);
  }
}
