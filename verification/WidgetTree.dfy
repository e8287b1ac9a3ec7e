// packages/flutter-ultra-runtime/src/widgetTree.ts
//
// A depth-first walk of the widget tree with an explicit stack, a depth limit,
// an early stop and a bounded chain of ancestor labels.
module WidgetTree {
  import opened Collections

  const MAX_DEPTH := 256
  const MAX_CHAIN := 24

  // Children come from the inspector's JSON; a hole is a null entry.
  datatype Child = Hole | Child(node: InspectorNode)

  datatype InspectorNode = InspectorNode(
    shownName: Option<string>,
    widgetRuntimeType: Option<string>,
    runtimeType: Option<string>,
    typeName: Option<string>,
    description: Option<string>,
    extra: map<string, string>,
    children: seq<Child>)

  function DescribeNode(node: InspectorNode): string
  {
    if node.shownName.Some? then node.shownName.value
    else if node.widgetRuntimeType.Some? then node.widgetRuntimeType.value
    else if node.runtimeType.Some? then node.runtimeType.value
    else if node.typeName.Some? then node.typeName.value
    else if node.description.Some? then node.description.value
    else "<unknown>"
  }

  function FirstPresent(texts: seq<Option<string>>): Option<string>
  {
    if texts == [] then None else if texts[0].Some? then texts[0] else FirstPresent(texts[1..])
  }

  /** The label is the first of its names that a node has. */
  lemma LabelIsFirstName(node: InspectorNode)
    ensures var names := [node.shownName, node.widgetRuntimeType, node.runtimeType, node.typeName, node.description];
            DescribeNode(node) == FirstPresent(names).GetOr("<unknown>")
  {
    var last := [node.typeName, node.description];
    FirstOf(node.description, []);
    FirstOf(node.typeName, [node.description]);
    FirstOf(node.runtimeType, last);
    FirstOf(node.widgetRuntimeType, [node.runtimeType] + last);
    FirstOf(node.shownName, [node.widgetRuntimeType] + ([node.runtimeType] + last));
    assert [node.description] + [] == [node.description] && [node.typeName] + [node.description] == last;
    assert [node.shownName] + ([node.widgetRuntimeType] + ([node.runtimeType] + last))
        == [node.shownName, node.widgetRuntimeType, node.runtimeType, node.typeName, node.description];
  }

  lemma FirstOf(text: Option<string>, rest: seq<Option<string>>)
    ensures FirstPresent([text] + rest) == if text.Some? then text else FirstPresent(rest)
  {
    assert ([text] + rest)[1..] == rest;
  }

  // One call of the visitor.
  datatype Visit = Visit(node: InspectorNode, depth: nat, parentChain: seq<string>)

  // ---------------------------------------------------------------- the order

  // A node with the labels of all its ancestors, outermost first.
  datatype Place = Place(node: InspectorNode, ancestors: seq<string>)

  /** The whole tree in preorder, uncut. */
  function Preorder(node: InspectorNode, ancestors: seq<string>): seq<Place>
    decreases node
  {
    [Place(node, ancestors)] + PreorderAll(node.children, ancestors + [DescribeNode(node)])
  }

  function PreorderAll(children: seq<Child>, ancestors: seq<string>): seq<Place>
    decreases children
  {
    if children == [] then []
    else PreorderChild(children[0], ancestors) + PreorderAll(children[1..], ancestors)
  }

  function PreorderChild(child: Child, ancestors: seq<string>): seq<Place>
    decreases child
  {
    match child
    case Hole => []
    case Child(node) => Preorder(node, ancestors)
  }

  /** The visits a list of places amounts to: those not too deep, each with the
      first labels of its ancestors. */
  function Visits(places: seq<Place>): seq<Visit>
  {
    if places == [] then []
    else VisitOf(places[0]) + Visits(places[1..])
  }

  function VisitOf(p: Place): seq<Visit>
  {
    if |p.ancestors| > MAX_DEPTH then []
    else [Visit(p.node, |p.ancestors|, FirstN(p.ancestors, MAX_CHAIN))]
  }

  function VisitOrder(root: InspectorNode): seq<Visit> { Visits(Preorder(root, [])) }

  lemma VisitsCons(p: Place, rest: seq<Place>)
    ensures Visits([p] + rest) == VisitOf(p) + Visits(rest)
  {
    assert ([p] + rest)[1..] == rest;
  }

  lemma {:induction false} VisitsAppend(a: seq<Place>, b: seq<Place>)
    ensures Visits(a + b) == Visits(a) + Visits(b)
  {
    if a == [] {
      assert a + b == b;
    } else {
      VisitsCons(a[0], a[1..] + b);
      assert [a[0]] + (a[1..] + b) == a + b;
      VisitsAppend(a[1..], b);
      AppendAssoc(VisitOf(a[0]), Visits(a[1..]), Visits(b));
    }
  }

  /** Below the depth limit there is nothing left to visit. */
  lemma {:induction false} TooDeep(node: InspectorNode, ancestors: seq<string>)
    requires |ancestors| > MAX_DEPTH
    ensures Visits(Preorder(node, ancestors)) == []
    decreases node
  {
    var below := ancestors + [DescribeNode(node)];
    TooDeepAll(node.children, below);
    VisitsAppend([Place(node, ancestors)], PreorderAll(node.children, below));
    assert [Place(node, ancestors)][1..] == [];
  }

  lemma {:induction false} TooDeepAll(children: seq<Child>, ancestors: seq<string>)
    requires |ancestors| > MAX_DEPTH
    ensures Visits(PreorderAll(children, ancestors)) == []
    decreases children
  {
    if children != [] {
      TooDeepAll(children[1..], ancestors);
      TooDeepChild(children[0], ancestors);
      VisitsAppend(PreorderChild(children[0], ancestors), PreorderAll(children[1..], ancestors));
    }
  }

  lemma {:induction false} TooDeepChild(child: Child, ancestors: seq<string>)
    requires |ancestors| > MAX_DEPTH
    ensures Visits(PreorderChild(child, ancestors)) == []
    decreases child
  {
    match child
    case Hole =>
    case Child(node) => TooDeep(node, ancestors);
  }

  // ---------------------------------------------------------------- the walk

  // An entry of the walk's stack.
  datatype Frame = Frame(node: InspectorNode, depth: nat, parent: seq<string>)

  /** Each frame's depth and chain are those of its node's full ancestry. */
  ghost predicate Knows(stack: seq<Frame>, paths: seq<seq<string>>)
  {
    && |stack| == |paths|
    && forall i :: 0 <= i < |stack| ==>
         stack[i].depth == |paths[i]| && stack[i].parent == FirstN(paths[i], MAX_CHAIN)
  }

  /** What is still to be walked, from the top of the stack down. */
  ghost function Pending(stack: seq<Frame>, paths: seq<seq<string>>): seq<Place>
    requires |stack| == |paths|
  {
    if stack == [] then []
    else
      var top := |stack| - 1;
      Preorder(stack[top].node, paths[top]) + Pending(stack[..top], paths[..top])
  }

  /** The stack knows its ancestries, and has exactly these places ahead. */
  ghost predicate Holds(stack: seq<Frame>, paths: seq<seq<string>>, places: seq<Place>)
  {
    Knows(stack, paths) && Pending(stack, paths) == places
  }

  /** The visitor's answer may depend on all it has been shown so far. */
  type Visitor = seq<Visit> -> bool

  /** The visitor went on after each of these visits. */
  ghost predicate Welcome(visited: seq<Visit>, visitor: Visitor)
  {
    forall n :: 0 < n <= |visited| ==> visitor(visited[..n])
  }

  /** `visited` is `all` up to and including the first visit the visitor refuses. */
  ghost predicate StoppedBy(visited: seq<Visit>, all: seq<Visit>, visitor: Visitor)
  {
    && visited <= all
    && (visited != [] ==> Welcome(visited[..|visited| - 1], visitor))
    && (visited != all ==> visited != [] && !visitor(visited))
  }

  lemma PushFrame(stack: seq<Frame>, paths: seq<seq<string>>, f: Frame, path: seq<string>)
    requires Knows(stack, paths)
    requires f.depth == |path| && f.parent == FirstN(path, MAX_CHAIN)
    ensures Knows(stack + [f], paths + [path])
    ensures Pending(stack + [f], paths + [path]) == Preorder(f.node, path) + Pending(stack, paths)
  {
    assert (stack + [f])[..|stack|] == stack && (paths + [path])[..|paths|] == paths;
  }

  lemma PushChild(stack: seq<Frame>, paths: seq<seq<string>>, children: seq<Child>, i: nat,
                  f: Frame, path: seq<string>, base: seq<Place>)
    requires Knows(stack, paths) && i < |children| && children[i] == Child(f.node)
    requires f.depth == |path| && f.parent == FirstN(path, MAX_CHAIN)
    requires Pending(stack, paths) == PreorderAll(children[i + 1..], path) + base
    ensures Knows(stack + [f], paths + [path])
    ensures Pending(stack + [f], paths + [path]) == PreorderAll(children[i..], path) + base
  {
    PushFrame(stack, paths, f, path);
    assert children[i..][1..] == children[i + 1..];
    AppendAssoc(Preorder(f.node, path), PreorderAll(children[i + 1..], path), base);
  }

  lemma SkipHole(children: seq<Child>, i: nat, path: seq<string>)
    requires i < |children| && children[i].Hole?
    ensures PreorderAll(children[i..], path) == PreorderAll(children[i + 1..], path)
  {
    assert children[i..][1..] == children[i + 1..];
  }

  /** Pushes the children, last one first. */
  method PushChildren(below: seq<Frame>, ghost paths: seq<seq<string>>, node: InspectorNode,
                      depth: nat, parent: seq<string>, ghost path: seq<string>) returns (stack: seq<Frame>)
    requires Knows(below, paths)
    requires depth == |path| && parent == FirstN(path, MAX_CHAIN)
    ensures exists all :: Holds(stack, all,
              PreorderAll(node.children, path + [DescribeNode(node)]) + Pending(below, paths))
  {
    var myLabel := DescribeNode(node);
    var nextParent := if |parent| < MAX_CHAIN then parent + [myLabel] else parent;
    ghost var childPath, base := path + [myLabel], Pending(below, paths);
    var children := node.children;
    stack := below;
    ghost var all := paths;
    var i := |children|;
    assert PreorderAll(children[i..], childPath) == [];
    while i > 0
      invariant 0 <= i <= |children|
      invariant Holds(stack, all, PreorderAll(children[i..], childPath) + base)
    {
      i := i - 1;
      match children[i]
      case Hole =>
        SkipHole(children, i, childPath);
      case Child(child) =>
        var f := Frame(child, depth + 1, nextParent);
        PushChild(stack, all, children, i, f, childPath, base);
        stack := stack + [f];
        all := all + [childPath];
    }
    assert children[0..] == children;
  }

  lemma InitialStack(root: InspectorNode)
    ensures Knows([Frame(root, 0, [])], [[]])
    ensures Pending([Frame(root, 0, [])], [[]]) == Preorder(root, [])
  {
    var stack, paths: seq<seq<string>> := [Frame(root, 0, [])], [[]];
    assert stack[..0] == [] && paths[..0] == [];
  }

  lemma PopFrame(stack: seq<Frame>, paths: seq<seq<string>>)
    requires Knows(stack, paths) && stack != []
    ensures var top := |stack| - 1;
            var node, path, rest := stack[top].node, paths[top], Pending(stack[..top], paths[..top]);
            && Knows(stack[..top], paths[..top])
            && Pending(stack, paths) == Preorder(node, path) + rest
            && |rest| < |Pending(stack, paths)|
            && Visits(Pending(stack, paths)) == Visits(Preorder(node, path)) + Visits(rest)
  {
    var top := |stack| - 1;
    VisitsAppend(Preorder(stack[top].node, paths[top]), Pending(stack[..top], paths[..top]));
  }

  lemma FirstOfPreorder(node: InspectorNode, path: seq<string>, rest: seq<Place>)
    requires |path| <= MAX_DEPTH
    ensures var below := PreorderAll(node.children, path + [DescribeNode(node)]) + rest;
            && Preorder(node, path) + rest == [Place(node, path)] + below
            && Visits([Place(node, path)] + below)
               == [Visit(node, |path|, FirstN(path, MAX_CHAIN))] + Visits(below)
  {
    var below := PreorderAll(node.children, path + [DescribeNode(node)]) + rest;
    assert ([Place(node, path)] + below)[1..] == below;
  }

  lemma Childless(node: InspectorNode, path: seq<string>, rest: seq<Place>)
    requires node.children == []
    ensures PreorderAll(node.children, path) + rest == rest
  {
  }

  /** Popping the top frame: its visit comes next, then those of its children and
      of the rest of the stack; below the depth limit only the rest. */
  lemma NextVisit(all: seq<Visit>, visited: seq<Visit>, stack: seq<Frame>, paths: seq<seq<string>>)
    requires Knows(stack, paths) && stack != []
    requires all == visited + Visits(Pending(stack, paths))
    ensures var top := |stack| - 1;
            var f, path, rest := stack[top], paths[top], Pending(stack[..top], paths[..top]);
            var below := PreorderAll(f.node.children, path + [DescribeNode(f.node)]) + rest;
            && |below| < |Pending(stack, paths)|
            && (f.depth > MAX_DEPTH ==> all == visited + Visits(rest))
            && (f.depth <= MAX_DEPTH ==>
                  all == visited + [Visit(f.node, f.depth, f.parent)] + Visits(below))
  {
    PopFrame(stack, paths);
    var top := |stack| - 1;
    var f, path, rest := stack[top], paths[top], Pending(stack[..top], paths[..top]);
    VisitNext(all, visited, f, path, rest);
    assert |Pending(stack, paths)| == |Preorder(f.node, path)| + |rest|;
  }

  lemma VisitNext(all: seq<Visit>, visited: seq<Visit>, f: Frame, path: seq<string>, rest: seq<Place>)
    requires f.depth == |path| && f.parent == FirstN(path, MAX_CHAIN)
    requires all == visited + (Visits(Preorder(f.node, path)) + Visits(rest))
    ensures var below := PreorderAll(f.node.children, path + [DescribeNode(f.node)]) + rest;
            && |below| < |Preorder(f.node, path)| + |rest|
            && (f.depth > MAX_DEPTH ==> all == visited + Visits(rest))
            && (f.depth <= MAX_DEPTH ==>
                  all == visited + [Visit(f.node, f.depth, f.parent)] + Visits(below))
  {
    if f.depth > MAX_DEPTH {
      TooDeep(f.node, path);
    } else {
      FirstOfPreorder(f.node, path, rest);
      VisitsAppend(Preorder(f.node, path), rest);
      var below := PreorderAll(f.node.children, path + [DescribeNode(f.node)]) + rest;
      AppendAssoc(visited, [Visit(f.node, f.depth, f.parent)], Visits(below));
    }
  }

  /** The explicit stack visits the recursive preorder, cut at the depth limit,
      and stops where the visitor says so. */
  method WalkTree(root: InspectorNode, visitor: Visitor) returns (visited: seq<Visit>)
    ensures StoppedBy(visited, VisitOrder(root), visitor)
  {
    var stack := [Frame(root, 0, [])];
    ghost var paths: seq<seq<string>> := [[]];
    visited := [];
    InitialStack(root);
    while |stack| > 0
      invariant Knows(stack, paths)
      invariant VisitOrder(root) == visited + Visits(Pending(stack, paths))
      invariant Welcome(visited, visitor)
      decreases |Pending(stack, paths)|
    {
      PopFrame(stack, paths);
      NextVisit(VisitOrder(root), visited, stack, paths);
      var top := |stack| - 1;
      var frame := stack[top];
      ghost var path := paths[top];
      stack, paths := stack[..top], paths[..top];
      if frame.depth > MAX_DEPTH { continue; }
      var visit := Visit(frame.node, frame.depth, frame.parent);
      OneMoreVisit(visited, visit, visitor);
      visited := visited + [visit];
      if !visitor(visited) { return; }
      if |frame.node.children| > 0 {
        ghost var ahead := PreorderAll(frame.node.children, path + [DescribeNode(frame.node)])
          + Pending(stack, paths);
        stack := PushChildren(stack, paths, frame.node, frame.depth, frame.parent, path);
        paths :| Holds(stack, paths, ahead);
      } else {
        Childless(frame.node, path + [DescribeNode(frame.node)], Pending(stack, paths));
      }
    }
    if visited != [] { WelcomePrefix(visited, visitor); }
  }

  lemma OneMoreVisit(visited: seq<Visit>, visit: Visit, visitor: Visitor)
    requires Welcome(visited, visitor)
    ensures (visited + [visit])[..|visited|] == visited
    ensures visitor(visited + [visit]) ==> Welcome(visited + [visit], visitor)
  {
    var more := visited + [visit];
    if visitor(more) {
      forall n | 0 < n <= |more| ensures visitor(more[..n]) {
        if n <= |visited| { assert more[..n] == visited[..n]; } else { assert more[..n] == more; }
      }
    }
  }

  lemma WelcomePrefix(visited: seq<Visit>, visitor: Visitor)
    requires Welcome(visited, visitor) && visited != []
    ensures Welcome(visited[..|visited| - 1], visitor) && visitor(visited)
  {
    var k := |visited| - 1;
    forall n | 0 < n <= k ensures visitor(visited[..k][..n]) {
      assert visited[..k][..n] == visited[..n];
    }
    assert visited[..|visited|] == visited;
  }

  // ---------------------------------------------------------------- finding

  type Finder = InspectorNode -> bool

  function Matching(visits: seq<Visit>, matches: Finder): seq<Visit>
  {
    if visits == [] then []
    else
      var n := |visits| - 1;
      Matching(visits[..n], matches) + if matches(visits[n].node) then [visits[n]] else []
  }

  function MatchesAt(visits: seq<Visit>, matches: Finder): set<nat>
  {
    set i | 0 <= i < |visits| && matches(visits[i].node)
  }

  /** Exactly the visits of matching nodes, each once and in order. */
  lemma {:induction false} MatchingSelects(visits: seq<Visit>, matches: Finder)
    ensures Selects(Matching(visits, matches), visits, MatchesAt(visits, matches))
  {
    if visits == [] {
      assert MatchesAt(visits, matches) == {};
    } else {
      var n := |visits| - 1;
      var before, last := visits[..n], visits[n];
      MatchingSelects(before, matches);
      SelectsSnoc(Matching(before, matches), before, MatchesAt(before, matches), last, matches(last.node));
      assert visits == before + [last];
      MatchesAtSnoc(visits, matches);
    }
  }

  lemma MatchesAtSnoc(visits: seq<Visit>, matches: Finder)
    requires visits != []
    ensures var n := |visits| - 1; var at := MatchesAt(visits[..n], matches);
            MatchesAt(visits, matches) == if matches(visits[n].node) then at + {n} else at
  {
  }

  /** findInTree's visitor: it refuses at the match that fills the quota. */
  function Quota(matches: Finder, limit: int): Visitor
  {
    (visits: seq<Visit>) =>
      visits == []
      || !(matches(visits[|visits| - 1].node) && |Matching(visits, matches)| >= limit)
  }

  /** The result is the first `limit` matches of the preorder; a limit below one
      counts as one. */
  method FindInTree(root: InspectorNode, matches: Finder, limit: int) returns (found: seq<Visit>)
    ensures found == FirstN(Matching(VisitOrder(root), matches), AtLeastOne(limit))
  {
    var visited := WalkTree(root, Quota(matches, limit));
    found := Matching(visited, matches);
    MatchesOfStopped(visited, VisitOrder(root), matches, limit);
  }

  lemma {:induction false} MatchingAppend(a: seq<Visit>, b: seq<Visit>, matches: Finder)
    ensures Matching(a + b, matches) == Matching(a, matches) + Matching(b, matches)
  {
    if b == [] {
      assert a + b == a;
    } else {
      var n := |b| - 1;
      assert (a + b)[..|a| + n] == a + b[..n] && (a + b)[|a| + n] == b[n];
      MatchingAppend(a, b[..n], matches);
    }
  }

  function AtLeastOne(limit: int): nat { if limit < 1 then 1 else limit }

  lemma {:induction false} FewMatchesBefore(visits: seq<Visit>, matches: Finder, limit: int)
    requires Welcome(visits, Quota(matches, limit))
    ensures |Matching(visits, matches)| < AtLeastOne(limit)
  {
    if visits != [] {
      WelcomePrefix(visits, Quota(matches, limit));
      FewMatchesBefore(visits[..|visits| - 1], matches, limit);
    }
  }

  lemma MatchesOfStopped(visited: seq<Visit>, all: seq<Visit>, matches: Finder, limit: int)
    requires StoppedBy(visited, all, Quota(matches, limit))
    ensures Matching(visited, matches)
         == FirstN(Matching(all, matches), AtLeastOne(limit))
  {
    if visited != [] {
      FewMatchesBefore(visited[..|visited| - 1], matches, limit);
    }
    if visited != all {
      assert all == visited + all[|visited|..];
      MatchingAppend(visited, all[|visited|..], matches);
      assert |Matching(visited, matches)| == AtLeastOne(limit);
    }
  }
}
