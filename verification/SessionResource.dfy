// shared/mcp-runtime/src/session.ts
//
// A reference-counted resource that is made and unmade asynchronously. Code
// between two awaits is one step; the microtask queue is first in, first out.
module SessionResource {
  import opened Collections

  // A continuation waiting in the microtask queue: the factory's `then`, or the
  // code behind an `await this.disposing` in release or in acquire.
  datatype Job =
    | FactoryThen(instance: nat)
    | ReleaseCont(disposal: nat)
    | AcquireCont(disposal: nat, ok: bool)

  // Instances are numbered by factory call, disposals by destructor call.
  datatype State = State(
    // the object's fields
    refCount: nat,
    resource: Option<nat>,
    resolvedResource: Option<nat>,
    disposing: Option<nat>,
    // promises and the queue
    pendingFactories: set<nat>,
    running: set<nat>,           // disposals not settled
    outcome: Option<bool>,       // how the latest disposal settled
    acquirersWaiting: nat,       // acquire calls awaiting the running disposal
    queue: seq<Job>,
    // history
    factoryCalls: nat,
    disposals: nat,
    made: set<nat>,
    destroyed: seq<nat>)

  const INITIAL := State(0, None, None, None, {}, {}, None, 0, [], 0, 0, {}, [])

  datatype Event =
    | CallAcquire(factoryThrows: bool)
    | CallRelease(destructorThrows: bool)
    | FactorySettles(instance: nat, ok: bool)
    | DisposalSettles(disposal: nat, ok: bool)
    | RunJob(factoryThrows: bool)

  // ---------------------------------------------------------------- specification

  /** acquire, once no disposal is in the way. */
  function Enter(s: State, factoryThrows: bool): State
  {
    var t := s.(refCount := s.refCount + 1);
    if s.resource.Some? then t
    else if factoryThrows then t.(factoryCalls := s.factoryCalls + 1)
    else t.(resource := Some(s.factoryCalls),
            pendingFactories := s.pendingFactories + {s.factoryCalls},
            factoryCalls := s.factoryCalls + 1)
  }

  function Acquire(s: State, factoryThrows: bool): State
  {
    match s.disposing
    case None => Enter(s, factoryThrows)
    case Some(d) =>
      // an await on a settled promise queues its continuation at once
      if d in s.running then s.(acquirersWaiting := s.acquirersWaiting + 1)
      else s.(queue := s.queue + [AcquireCont(d, s.outcome.GetOr(true))])
  }

  function Release(s: State, destructorThrows: bool): State
  {
    if s.refCount == 0 then s
    else
      var t := s.(refCount := s.refCount - 1);
      if t.refCount > 0 || s.resolvedResource.None? then t
      else
        var u := t.(resource := None, resolvedResource := None,
                    destroyed := s.destroyed + [s.resolvedResource.value],
                    disposals := s.disposals + 1);
        if destructorThrows then u
        else u.(disposing := Some(s.disposals), running := s.running + {s.disposals})
  }

  function Replicate(n: nat, job: Job): (r: seq<Job>)
    ensures |r| == n && forall i :: 0 <= i < n ==> r[i] == job
  {
    seq(n, _ => job)
  }

  function RunFirst(s: State, factoryThrows: bool): State
    requires s.queue != []
  {
    var t := s.(queue := s.queue[1..]);
    match s.queue[0]
    case FactoryThen(i) => t.(resolvedResource := Some(i))
    case ReleaseCont(_) => t.(disposing := None)
    case AcquireCont(_, ok) => if ok then Enter(t.(disposing := None), factoryThrows) else t
  }

  function Step(s: State, e: Event): Option<State>
  {
    match e
    case CallAcquire(throws) => Some(Acquire(s, throws))
    case CallRelease(throws) => Some(Release(s, throws))
    case FactorySettles(i, ok) =>
      if i !in s.pendingFactories then None
      else
        var t := s.(pendingFactories := s.pendingFactories - {i});
        Some(if ok then t.(made := s.made + {i}, queue := s.queue + [FactoryThen(i)]) else t)
    case DisposalSettles(d, ok) =>
      if d !in s.running then None
      else
        // release awaited first, the acquirers after it
        Some(s.(running := s.running - {d}, outcome := Some(ok), acquirersWaiting := 0,
                queue := s.queue + [ReleaseCont(d)] + Replicate(s.acquirersWaiting, AcquireCont(d, ok))))
    case RunJob(throws) => if s.queue == [] then None else Some(RunFirst(s, throws))
  }

  function Run(s: State, es: seq<Event>): Option<State>
  {
    if es == [] then Some(s)
    else
      match Run(s, es[..|es| - 1])
      case None => None
      case Some(t) => Step(t, es[|es| - 1])
  }

  // ---------------------------------------------------------------- code

  class Resource {
    var refCount: nat
    var resource: Option<nat>
    var resolvedResource: Option<nat>
    var disposing: Option<nat>
    var loop: State  // the event loop's part of the state, and the history; its
                     // copies of the four fields above are not used

    function View(): State
      reads this
    {
      loop.(refCount := refCount, resource := resource, resolvedResource := resolvedResource, disposing := disposing)
    }

    constructor ()
      ensures View() == INITIAL
    {
      refCount, resource, resolvedResource, disposing, loop := 0, None, None, None, INITIAL;
    }

    // The code of acquire behind its optional await.
    method EnterNow(factoryThrows: bool)
      modifies this
      ensures View() == Enter(old(View()), factoryThrows)
    {
      refCount := refCount + 1;
      if resource.None? {
        var instance := loop.factoryCalls;
        loop := loop.(factoryCalls := instance + 1);
        if !factoryThrows {
          loop := loop.(pendingFactories := loop.pendingFactories + {instance});
          resource := Some(instance);
        }
      }
    }

    method CallAcquire(factoryThrows: bool)
      modifies this
      ensures View() == Acquire(old(View()), factoryThrows)
    {
      if disposing.Some? {
        if disposing.value in loop.running {
          loop := loop.(acquirersWaiting := loop.acquirersWaiting + 1);
        } else {
          loop := loop.(queue := loop.queue + [AcquireCont(disposing.value, loop.outcome.GetOr(true))]);
        }
        return;
      }
      EnterNow(factoryThrows);
    }

    method CallRelease(destructorThrows: bool)
      modifies this
      ensures View() == Release(old(View()), destructorThrows)
    {
      if refCount == 0 {
        return;
      }
      refCount := refCount - 1;
      if refCount == 0 && resolvedResource.Some? {
        var r := resolvedResource.value;
        resource := None;
        resolvedResource := None;
        var d := loop.disposals;
        loop := loop.(destroyed := loop.destroyed + [r], disposals := d + 1);
        if destructorThrows {
          return;
        }
        loop := loop.(running := loop.running + {d});
        disposing := Some(d);
      }
    }

    method RunJob(factoryThrows: bool)
      requires View().queue != []
      modifies this
      ensures View() == RunFirst(old(View()), factoryThrows)
    {
      var job := loop.queue[0];
      loop := loop.(queue := loop.queue[1..]);
      match job {
        case FactoryThen(i) => resolvedResource := Some(i);
        case ReleaseCont(_) => disposing := None;
        case AcquireCont(_, ok) =>
          if ok {
            disposing := None;
            EnterNow(factoryThrows);
          }
      }
    }
  }

  // ---------------------------------------------------------------- invariant

  predicate IsCont(j: Job) { !j.FactoryThen? }

  /** The queue holds continuations of the latest disposal, then at most the
      `then` of the resource's factory. */
  ghost predicate QueueInv(s: State)
  {
    && (forall i :: 0 <= i < |s.queue| - 1 ==> IsCont(s.queue[i]))
    && (forall i :: 0 <= i < |s.queue| && IsCont(s.queue[i]) ==>
          s.queue[i].disposal + 1 == s.disposals && (i > 0 ==> s.queue[i].AcquireCont?))
    && (forall i :: 0 <= i < |s.queue| && s.queue[i].FactoryThen? ==>
          && s.resource == Some(s.queue[i].instance) && s.resolvedResource.None?
          && s.queue[i].instance in s.made && s.queue[i].instance !in s.pendingFactories)
    && (s.queue != [] && IsCont(s.queue[0]) ==> s.resolvedResource.None? && s.running == {})
    && (s.queue != [] && s.queue[0].ReleaseCont? ==> s.disposing == Some(s.queue[0].disposal))
  }

  /** While a disposal is on record, nothing is held and nobody is counted in. */
  ghost predicate DisposingInv(s: State)
  {
    && (forall d :: d in s.running ==> s.disposing == Some(d))
    && (s.running == {} ==> s.acquirersWaiting == 0)
    && (s.disposing.Some? ==>
          && s.disposing.value + 1 == s.disposals
          && s.refCount == 0 && s.resource.None? && s.resolvedResource.None?
          && (s.disposing.value in s.running ==> s.queue == [])
          && (s.disposing.value !in s.running ==> s.queue != [] && s.queue[0].ReleaseCont?))
  }

  /** What is alive: resolved, or made and about to be. */
  function Live(s: State): set<nat>
  {
    (if s.resolvedResource.Some? then {s.resolvedResource.value} else {})
    + (if s.queue != [] && s.queue[|s.queue| - 1].FactoryThen? then {s.queue[|s.queue| - 1].instance} else {})
  }

  ghost predicate InstanceInv(s: State)
  {
    && (s.resolvedResource.Some? ==> s.resource == s.resolvedResource && s.resource.value in s.made)
    && (forall i :: i in s.pendingFactories ==> s.resource == Some(i) && i !in s.made)
    && (s.resource.Some? ==> s.resource.value < s.factoryCalls && s.resource.value !in s.destroyed)
    && (forall i :: i in s.made ==> i < s.factoryCalls)
    && Distinct(s.destroyed) && |s.destroyed| == s.disposals
    && (forall i :: i in s.destroyed ==> i in s.made)
    && s.made == (set i | i in s.destroyed) + Live(s)
  }

  ghost predicate Inv(s: State)
  {
    QueueInv(s) && DisposingInv(s) && InstanceInv(s)
  }

  /** Entering with no disposal on record or running. */
  lemma EnterKeepsInv(s: State, factoryThrows: bool)
    requires Inv(s) && s.disposing.None?
    ensures Inv(Enter(s, factoryThrows))
  {
    var t := Enter(s, factoryThrows);
    assert Live(t) == Live(s);
    assert s.running == {};
  }

  lemma AcquireKeepsInv(s: State, factoryThrows: bool)
    requires Inv(s)
    ensures Inv(Acquire(s, factoryThrows))
  {
    if s.disposing.None? {
      EnterKeepsInv(s, factoryThrows);
    } else {
      assert Live(Acquire(s, factoryThrows)) == Live(s);
    }
  }

  lemma ReleaseKeepsInv(s: State, destructorThrows: bool)
    requires Inv(s)
    ensures Inv(Release(s, destructorThrows))
  {
    var t := Release(s, destructorThrows);
    if s.refCount == 1 && s.resolvedResource.Some? {
      var r := s.resolvedResource.value;
      assert s.queue == [] && s.running == {};
      assert Live(s) == {r} && Live(t) == {};
      assert (set i | i in t.destroyed) == (set i | i in s.destroyed) + {r};
    } else {
      assert Live(t) == Live(s);
    }
  }

  lemma FactorySettlesKeepsInv(s: State, i: nat, ok: bool)
    requires Inv(s) && i in s.pendingFactories
    ensures Inv(Step(s, FactorySettles(i, ok)).value)
  {
    var t := Step(s, FactorySettles(i, ok)).value;
    assert forall k :: 0 <= k < |s.queue| ==> IsCont(s.queue[k]);
    assert s.resolvedResource.None?;
    assert Live(t) == Live(s) + if ok then {i} else {};
  }

  lemma DisposalSettlesKeepsInv(s: State, d: nat, ok: bool)
    requires Inv(s) && d in s.running
    ensures Inv(Step(s, DisposalSettles(d, ok)).value)
  {
    var t := Step(s, DisposalSettles(d, ok)).value;
    assert s.queue == [];
    assert t.queue[0] == ReleaseCont(d);
    assert forall k :: 0 < k < |t.queue| ==> t.queue[k] == AcquireCont(d, ok);
    assert t.running == {};
    assert Live(t) == Live(s) == {};
  }

  /** Taking a continuation off the queue, before it runs. */
  lemma RunKeepsInv(s: State, factoryThrows: bool)
    requires Inv(s) && s.queue != []
    ensures Inv(RunFirst(s, factoryThrows))
  {
    var rest := s.queue[1..];
    var t := s.(queue := rest);
    match s.queue[0]
    case FactoryThen(i) =>
      assert rest == [];
      assert Live(RunFirst(s, factoryThrows)) == Live(s) == {i};
    case ReleaseCont(d) =>
      assert Live(t.(disposing := None)) == Live(s);
    case AcquireCont(d, ok) =>
      assert s.disposing.None?;
      assert Live(t) == Live(s);
      if ok {
        EnterKeepsInv(t, factoryThrows);
      }
  }

  lemma StepKeepsInv(s: State, e: Event)
    requires Inv(s) && Step(s, e).Some?
    ensures Inv(Step(s, e).value)
  {
    match e
    case CallAcquire(throws) => AcquireKeepsInv(s, throws);
    case CallRelease(throws) => ReleaseKeepsInv(s, throws);
    case FactorySettles(i, ok) => FactorySettlesKeepsInv(s, i, ok);
    case DisposalSettles(d, ok) => DisposalSettlesKeepsInv(s, d, ok);
    case RunJob(throws) => RunKeepsInv(s, throws);
  }

  lemma {:induction false} ReachableInv(es: seq<Event>)
    requires Run(INITIAL, es).Some?
    ensures Inv(Run(INITIAL, es).value)
    decreases |es|
  {
    if es != [] {
      ReachableInv(es[..|es| - 1]);
      StepKeepsInv(Run(INITIAL, es[..|es| - 1]).value, es[|es| - 1]);
    }
  }

  // ---------------------------------------------------------------- who is in

  /** A call of acquire comes in: it meets no disposal, or the one it awaited has
      gone well. */
  predicate ComesIn(s: State, e: Event)
  {
    match e
    case CallAcquire(_) => s.disposing.None?
    case RunJob(_) => s.queue != [] && s.queue[0].AcquireCont? && s.queue[0].ok
    case _ => false
  }

  /** It fails with the disposal that it awaited. */
  predicate FailsToComeIn(s: State, e: Event)
  {
    e.RunJob? && s.queue != [] && s.queue[0].AcquireCont? && !s.queue[0].ok
  }

  ghost function Entered(es: seq<Event>): nat
    requires Run(INITIAL, es).Some?
    decreases |es|
  {
    if es == [] then 0
    else
      var before := es[..|es| - 1];
      Entered(before) + if ComesIn(Run(INITIAL, before).value, es[|es| - 1]) then 1 else 0
  }

  /** The releases that found somebody in. */
  ghost function Left(es: seq<Event>): (n: nat)
    requires Run(INITIAL, es).Some?
    ensures n <= Entered(es)
    decreases |es|
  {
    if es == [] then 0
    else
      var before := es[..|es| - 1];
      Left(before) + if es[|es| - 1].CallRelease? && Left(before) < Entered(before) then 1 else 0
  }

  ghost function Holders(es: seq<Event>): nat
    requires Run(INITIAL, es).Some?
  {
    Entered(es) - Left(es)
  }

  /** The instance whose factory has come through, and its `then` run, since the
      last holder of the one before left. */
  ghost function Ready(es: seq<Event>): Option<nat>
    requires Run(INITIAL, es).Some?
    decreases |es|
  {
    if es == [] then None
    else
      var before, e := es[..|es| - 1], es[|es| - 1];
      var queue := Run(INITIAL, before).value.queue;
      if e.RunJob? && queue[0].FactoryThen? then Some(queue[0].instance)
      else if Holders(before) > 0 && Holders(es) == 0 then None
      else Ready(before)
  }

  lemma {:induction false} CountsHolders(es: seq<Event>)
    requires Run(INITIAL, es).Some?
    ensures Run(INITIAL, es).value.refCount == Holders(es)
    decreases |es|
  {
    if es != [] {
      CountsHolders(es[..|es| - 1]);
    }
  }

  lemma ResolvedByStep(s: State, e: Event)
    requires Step(s, e).Some?
    ensures var t := Step(s, e).value;
            t.resolvedResource
            == if e.RunJob? && s.queue[0].FactoryThen? then Some(s.queue[0].instance)
               else if s.refCount > 0 && t.refCount == 0 then None
               else s.resolvedResource
  {
  }

  lemma {:induction false} ResolvedIsReady(es: seq<Event>)
    requires Run(INITIAL, es).Some?
    ensures Run(INITIAL, es).value.resolvedResource == Ready(es)
    decreases |es|
  {
    if es != [] {
      var before := es[..|es| - 1];
      ResolvedIsReady(before);
      CountsHolders(before);
      CountsHolders(es);
      ResolvedByStep(Run(INITIAL, before).value, es[|es| - 1]);
    }
  }

  // ---------------------------------------------------------------- theorems

  /** In every reachable state: no instance is destroyed twice, everything made
      is destroyed or is the one live instance, the count is how many have come in
      and not left, and at most one disposal runs. */
  lemma Conservation(es: seq<Event>)
    requires Run(INITIAL, es).Some?
    ensures var s := Run(INITIAL, es).value;
            && Distinct(s.destroyed)
            && s.made == (set i | i in s.destroyed) + Live(s)
            && (forall i :: i in Live(s) ==> i !in s.destroyed)
            && (forall i, j :: i in Live(s) && j in Live(s) ==> i == j)
            && s.refCount == Holders(es)
            && (forall d, e :: d in s.running && e in s.running ==> d == e)
  {
    ReachableInv(es);
    CountsHolders(es);
  }

  /** The destructor starts only when the last reference goes, on the live
      instance, with no other disposal running and no factory call pending. */
  ghost predicate DestructorStartsWell(s: State, t: State)
  {
    t.destroyed != s.destroyed ==>
      && s.refCount == 1 && t.refCount == 0
      && s.resolvedResource.Some? && t.destroyed == s.destroyed + [s.resolvedResource.value]
      && s.running == {} && s.queue == []
      && s.pendingFactories == {} && t.pendingFactories == {}
  }

  /** A factory call never overlaps a disposal, nor another factory call, nor a
      live instance. */
  ghost predicate FactoryStartsWell(s: State, t: State)
  {
    t.factoryCalls > s.factoryCalls ==>
      s.running == {} && t.running == {} && s.pendingFactories == {} && Live(s) == {}
  }

  lemma EnterStartsWell(s: State, throws: bool)
    requires Inv(s) && s.disposing.None?
    ensures FactoryStartsWell(s, Enter(s, throws)) && Enter(s, throws).destroyed == s.destroyed
  {
    if s.resource.None? {
      assert forall i :: 0 <= i < |s.queue| ==> !s.queue[i].FactoryThen?;
    }
  }

  lemma RunStartsWell(s: State, throws: bool)
    requires Inv(s) && s.queue != []
    ensures FactoryStartsWell(s, RunFirst(s, throws)) && RunFirst(s, throws).destroyed == s.destroyed
  {
    if s.queue[0].AcquireCont? && s.queue[0].ok {
      RunKeepsInv(s, throws);
      assert s.disposing.None?;
      if s.resource.None? {
        assert forall i :: 0 <= i < |s.queue| ==> !s.queue[i].FactoryThen?;
      }
    }
  }

  lemma StepStartsWell(s: State, e: Event)
    requires Inv(s) && Step(s, e).Some?
    ensures DestructorStartsWell(s, Step(s, e).value) && FactoryStartsWell(s, Step(s, e).value)
  {
    match e
    case CallAcquire(throws) => if s.disposing.None? { EnterStartsWell(s, throws); }
    case CallRelease(_) =>
      if s.refCount == 1 && s.resolvedResource.Some? {
        assert s.queue == [];
      }
    case FactorySettles(_, _) =>
    case DisposalSettles(_, _) =>
    case RunJob(throws) => RunStartsWell(s, throws);
  }

  /** In every run, at every step, both start well. */
  lemma NoOverlap(es: seq<Event>, e: Event)
    requires Run(INITIAL, es).Some? && Step(Run(INITIAL, es).value, e).Some?
    ensures var s := Run(INITIAL, es).value; var t := Step(s, e).value;
            DestructorStartsWell(s, t) && FactoryStartsWell(s, t)
  {
    ReachableInv(es);
    StepStartsWell(Run(INITIAL, es).value, e);
  }

  /** The destructor starts if and only if the step takes the last holder out while
      an instance is ready, and it is that instance that goes. */
  lemma DestructorIff(es: seq<Event>, e: Event)
    requires Run(INITIAL, es + [e]).Some? && Run(INITIAL, es).Some?
    ensures var s, t := Run(INITIAL, es).value, Run(INITIAL, es + [e]).value;
            && (t.destroyed != s.destroyed <==> Holders(es) > 0 && Holders(es + [e]) == 0 && Ready(es).Some?)
            && (t.destroyed != s.destroyed ==> t.destroyed == s.destroyed + [Ready(es).value])
  {
    RunSnoc(es, e);
    CountsHolders(es);
    CountsHolders(es + [e]);
    ResolvedIsReady(es);
    DestroyedByStep(Run(INITIAL, es).value, e);
  }

  lemma RunSnoc(es: seq<Event>, e: Event)
    requires Run(INITIAL, es + [e]).Some?
    ensures Run(INITIAL, es).Some? && Run(INITIAL, es + [e]) == Step(Run(INITIAL, es).value, e)
  {
    assert (es + [e])[..|es|] == es;
  }

  lemma DestroyedByStep(s: State, e: Event)
    requires Step(s, e).Some?
    ensures var t := Step(s, e).value;
            t.destroyed == if s.refCount > 0 && t.refCount == 0 && s.resolvedResource.Some?
                           then s.destroyed + [s.resolvedResource.value] else s.destroyed
  {
  }

  /** The factory is called if and only if somebody comes in and there is no resource,
      made or under way. */
  lemma FactoryIff(es: seq<Event>, e: Event)
    requires Run(INITIAL, es + [e]).Some? && Run(INITIAL, es).Some?
    ensures var s, t := Run(INITIAL, es).value, Run(INITIAL, es + [e]).value;
            t.factoryCalls == s.factoryCalls + if ComesIn(s, e) && s.resource.None? then 1 else 0
  {
    RunSnoc(es, e);
  }

  /** Whoever is in has a resource, made or under way, unless a factory call threw. */
  lemma {:induction false} HoldersHaveResource(es: seq<Event>)
    requires Run(INITIAL, es).Some? && Holders(es) > 0
    requires forall e :: e in es ==> !(e.CallAcquire? && e.factoryThrows) && !(e.RunJob? && e.factoryThrows)
    ensures Run(INITIAL, es).value.resource.Some?
    decreases |es|
  {
    var before, e := es[..|es| - 1], es[|es| - 1];
    CountsHolders(before);
    CountsHolders(es);
    var s := Run(INITIAL, before).value;
    if s.refCount > 0 {
      HoldersHaveResource(before);
    }
    ReachableInv(before);
  }

  /** A factory promise that rejected is kept: acquire hands it out for ever and
      the factory is never called again. */
  ghost predicate Stuck(s: State)
  {
    Inv(s) && s.resource.Some? && s.resource.value !in s.pendingFactories && s.resource.value !in s.made
  }

  lemma {:induction false} StuckForEver(s: State, es: seq<Event>)
    requires Stuck(s) && Run(s, es).Some?
    ensures Stuck(Run(s, es).value) && Run(s, es).value.factoryCalls == s.factoryCalls
    ensures Run(s, es).value.destroyed == s.destroyed
    decreases |es|
  {
    if es != [] {
      StuckForEver(s, es[..|es| - 1]);
      var t, e := Run(s, es[..|es| - 1]).value, es[|es| - 1];
      StepKeepsInv(t, e);
      assert t.resolvedResource.None?;
    }
  }

  lemma RejectionSticks(es: seq<Event>, i: nat)
    requires Run(INITIAL, es).Some? && i in Run(INITIAL, es).value.pendingFactories
    ensures Stuck(Step(Run(INITIAL, es).value, FactorySettles(i, false)).value)
  {
    ReachableInv(es);
    StepKeepsInv(Run(INITIAL, es).value, FactorySettles(i, false));
  }

  // ---------------------------------------------------------------- who waits

  function Conts(queue: seq<Job>): nat
  {
    if queue == [] then 0 else Conts(queue[1..]) + if queue[0].AcquireCont? then 1 else 0
  }

  lemma {:induction false} ContsAppend(a: seq<Job>, b: seq<Job>)
    ensures Conts(a + b) == Conts(a) + Conts(b)
  {
    if a == [] {
      assert a + b == b;
    } else {
      assert (a + b)[1..] == a[1..] + b;
      ContsAppend(a[1..], b);
    }
  }

  lemma {:induction false} ContsReplicate(n: nat, job: Job)
    ensures Conts(Replicate(n, job)) == if job.AcquireCont? then n else 0
  {
    if n > 0 {
      assert Replicate(n, job)[1..] == Replicate(n - 1, job);
      ContsReplicate(n - 1, job);
    }
  }

  function Waiting(s: State): nat { s.acquirersWaiting + Conts(s.queue) }

  ghost function Failed(es: seq<Event>): nat
    requires Run(INITIAL, es).Some?
    decreases |es|
  {
    if es == [] then 0
    else
      var before := es[..|es| - 1];
      Failed(before) + if FailsToComeIn(Run(INITIAL, before).value, es[|es| - 1]) then 1 else 0
  }

  function Calls(es: seq<Event>): nat
  {
    if es == [] then 0 else Calls(es[..|es| - 1]) + if es[|es| - 1].CallAcquire? then 1 else 0
  }

  lemma WaitingByStep(s: State, e: Event)
    requires Step(s, e).Some?
    ensures Waiting(Step(s, e).value) + (if ComesIn(s, e) || FailsToComeIn(s, e) then 1 else 0)
         == Waiting(s) + if e.CallAcquire? then 1 else 0
  {
    match e
    case CallAcquire(_) =>
      if s.disposing.Some? { ContsAppend(s.queue, [AcquireCont(s.disposing.value, s.outcome.GetOr(true))]); }
    case CallRelease(_) =>
    case FactorySettles(i, _) => ContsAppend(s.queue, [FactoryThen(i)]);
    case DisposalSettles(d, ok) =>
      var waiters := Replicate(s.acquirersWaiting, AcquireCont(d, ok));
      ContsReplicate(s.acquirersWaiting, AcquireCont(d, ok));
      ContsAppend(s.queue, [ReleaseCont(d)]);
      ContsAppend(s.queue + [ReleaseCont(d)], waiters);
    case RunJob(_) =>
  }

  lemma CountsByStep(es: seq<Event>)
    requires es != [] && Run(INITIAL, es).Some?
    ensures var before := es[..|es| - 1];
            && Calls(es) == Calls(before) + (if es[|es| - 1].CallAcquire? then 1 else 0)
            && Entered(es) + Failed(es) + Waiting(Run(INITIAL, es).value)
               == Entered(before) + Failed(before) + Waiting(Run(INITIAL, before).value)
                  + if es[|es| - 1].CallAcquire? then 1 else 0
  {
    var before, e := es[..|es| - 1], es[|es| - 1];
    WaitingByStep(Run(INITIAL, before).value, e);
  }

  /** No call of acquire is forgotten: each has come in, has failed with a disposal,
      or waits. */
  lemma {:induction false} AcquiresAccounted(es: seq<Event>)
    requires Run(INITIAL, es).Some?
    ensures Calls(es) == Entered(es) + Failed(es) + Waiting(Run(INITIAL, es).value)
    decreases |es|
  {
    if es != [] {
      AcquiresAccounted(es[..|es| - 1]);
      CountsByStep(es);
    }
  }

  /** How the latest disposal went. */
  function LatestOutcome(es: seq<Event>): Option<bool>
  {
    if es == [] then None
    else if es[|es| - 1].DisposalSettles? then Some(es[|es| - 1].ok)
    else LatestOutcome(es[..|es| - 1])
  }

  ghost predicate SharesOutcome(s: State)
  {
    forall i :: 0 <= i < |s.queue| && IsCont(s.queue[i]) ==>
      s.outcome.Some? && (s.queue[i].AcquireCont? ==> s.queue[i].ok == s.outcome.value)
  }

  /** Those who wait in the queue will come in or fail as that disposal went. */
  lemma {:induction false} WaitersShareOutcome(es: seq<Event>)
    requires Run(INITIAL, es).Some?
    ensures var s := Run(INITIAL, es).value;
            SharesOutcome(s) && s.outcome == LatestOutcome(es)
    decreases |es|
  {
    if es != [] {
      var before := es[..|es| - 1];
      WaitersShareOutcome(before);
      ReachableInv(before);
      OutcomeByStep(Run(INITIAL, before).value, es[|es| - 1]);
    }
  }

  lemma OutcomeByStep(s: State, e: Event)
    requires Inv(s) && SharesOutcome(s) && Step(s, e).Some?
    ensures SharesOutcome(Step(s, e).value)
    ensures Step(s, e).value.outcome == if e.DisposalSettles? then Some(e.ok) else s.outcome
  {
  }

  // ---------------------------------------------------------------- why first in, first out

  /** A queue that may run its second job first. */
  function RunSecond(s: State): State
    requires |s.queue| == 2
  {
    RunFirst(s.(queue := [s.queue[1], s.queue[0]]), false)
  }

  ghost predicate Reaches(es: seq<Event>, s: State)
  {
    Run(INITIAL, es) == Some(s)
  }

  /** Equal field by field. */
  predicate Same(a: State, b: State)
  {
    && a.refCount == b.refCount && a.resource == b.resource && a.resolvedResource == b.resolvedResource
    && a.disposing == b.disposing && a.pendingFactories == b.pendingFactories && a.running == b.running
    && a.outcome == b.outcome && a.acquirersWaiting == b.acquirersWaiting && a.queue == b.queue
    && a.factoryCalls == b.factoryCalls && a.disposals == b.disposals && a.made == b.made
    && a.destroyed == b.destroyed
  }

  lemma ReachesNext(es: seq<Event>, s: State, e: Event, t: State)
    requires Reaches(es, s) && Step(s, e).Some? && Same(Step(s, e).value, t)
    ensures Reaches(es + [e], t)
  {
    assert (es + [e])[..|es|] == es;
  }

  // Made, released by its only holder, and two acquirers waiting for the disposal.
  const TWO_WAITING := INITIAL.(
    disposing := Some(0), running := {0}, acquirersWaiting := 2, factoryCalls := 1, disposals := 1,
    made := {0}, destroyed := [0])

  // The disposal is over, the first waiter is in and its factory has settled.
  const ONE_WAITING := INITIAL.(
    refCount := 1, resource := Some(1), outcome := Some(true),
    queue := [AcquireCont(0, true), FactoryThen(1)], factoryCalls := 2, disposals := 1,
    made := {0, 1}, destroyed := [0])

  lemma TwoWaiters() returns (es: seq<Event>)
    ensures Reaches(es, TWO_WAITING)
  {
    var s1 := INITIAL.(refCount := 1, resource := Some(0), pendingFactories := {0}, factoryCalls := 1);
    ReachesNext([], INITIAL, CallAcquire(false), s1);
    var s2 := s1.(pendingFactories := {}, made := {0}, queue := [FactoryThen(0)]);
    ReachesNext([] + [CallAcquire(false)], s1, FactorySettles(0, true), s2);
    es := [] + [CallAcquire(false)] + [FactorySettles(0, true)];
    var s3 := s2.(resolvedResource := Some(0), queue := []);
    ReachesNext(es, s2, RunJob(false), s3);
    es := es + [RunJob(false)];
    var s4 := TWO_WAITING.(acquirersWaiting := 0);
    ReachesNext(es, s3, CallRelease(false), s4);
    es := es + [CallRelease(false)];
    ReachesNext(es, s4, CallAcquire(false), s4.(acquirersWaiting := 1));
    es := es + [CallAcquire(false)];
    ReachesNext(es, s4.(acquirersWaiting := 1), CallAcquire(false), TWO_WAITING);
    es := es + [CallAcquire(false)];
  }

  lemma OneWaiterLeft(before: seq<Event>) returns (es: seq<Event>)
    requires Reaches(before, TWO_WAITING)
    ensures Reaches(es, ONE_WAITING)
  {
    var acq := AcquireCont(0, true);
    var s1 := TWO_WAITING.(running := {}, acquirersWaiting := 0, outcome := Some(true),
                           queue := [ReleaseCont(0), acq, acq]);
    assert [ReleaseCont(0)] + Replicate(2, acq) == [ReleaseCont(0), acq, acq];
    ReachesNext(before, TWO_WAITING, DisposalSettles(0, true), s1);
    es := before + [DisposalSettles(0, true)];
    var s2 := s1.(disposing := None, queue := [acq, acq]);
    ReachesNext(es, s1, RunJob(false), s2);
    es := es + [RunJob(false)];
    var s3 := s2.(refCount := 1, resource := Some(1), pendingFactories := {1},
                  factoryCalls := 2, queue := [acq]);
    ReachesNext(es, s2, RunJob(false), s3);
    es := es + [RunJob(false)];
    ReachesNext(es, s3, FactorySettles(1, true), ONE_WAITING);
    es := es + [FactorySettles(1, true)];
  }

  /** The order of the microtask queue is what keeps them apart: were the
      factory's continuation to overtake a waiting acquire, that acquire would
      wipe out the next disposal and call the factory while it runs. */
  lemma OvertakingOverlaps()
    ensures exists es ::
              && Run(INITIAL, es).Some? && |Run(INITIAL, es).value.queue| == 2
              && var s := Release(RunSecond(Run(INITIAL, es).value), false);
                 && s.queue != [] && s.running != {}
                 && RunFirst(s, false).factoryCalls > s.factoryCalls
                 && RunFirst(s, false).running == s.running
  {
    var es := TwoWaiters();
    es := OneWaiterLeft(es);
    assert Run(INITIAL, es) == Some(ONE_WAITING);
    var s := Release(RunSecond(Run(INITIAL, es).value), false);
    assert 1 in s.running;
  }
}
