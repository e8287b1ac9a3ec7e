// shared/vm-service-client/src/transport.ts
//
// Whole runs of the transport, read off the events alone: which requests get an
// id, which are pending, how each is settled, and when it reconnects.
module VmServiceRuns {
  import opened Collections
  import opened VmServiceTransport

  // ---------------------------------------------------------------- requests

  predicate HasDispose(es: seq<Event>)
  {
    exists i :: 0 <= i < |es| && es[i].Dispose?
  }

  /** The request at j gets an id: the connection is open and nobody has disposed. */
  predicate GetsId(es: seq<Event>, j: nat)
    requires j < |es|
  {
    es[j].Request? && es[j].isOpen && !HasDispose(es[..j])
  }

  function IdsBefore(es: seq<Event>): nat
  {
    if es == [] then 0 else IdsBefore(es[..|es| - 1]) + if GetsId(es, |es| - 1) then 1 else 0
  }

  /** Ids are numbered from 1 in the order of the requests. */
  predicate RequestAt(es: seq<Event>, j: nat, id: nat)
    requires j < |es|
  {
    GetsId(es, j) && id == IdsBefore(es[..j]) + 1
  }

  /** What an event does to a request that is waiting for it. */
  function EndedBy(e: Event, id: nat): Option<Cause>
  {
    match e
    case Response(i, isError) =>
      if i == Some(id as int) then Some(if isError then RpcFailed else Resolved) else None
    case Timeout(i) => if i == id then Some(TimedOut) else None
    case Close => Some(ConnectionClosed)
    case Dispose => Some(TransportDisposed)
    case _ => None
  }

  /** Sent at j, and nothing has ended it before k. */
  ghost predicate WaitsUntil(es: seq<Event>, j: nat, id: nat, k: nat)
    requires j < |es| && k <= |es|
  {
    RequestAt(es, j, id) && es[j].sendOk && forall m :: j < m < k ==> EndedBy(es[m], id).None?
  }

  /** The first event after j that ends it, or the failure of its own send. */
  ghost predicate EndsAt(es: seq<Event>, j: nat, k: nat, x: Settlement)
    requires j < |es| && k < |es|
  {
    if j == k then RequestAt(es, j, x.id) && !es[j].sendOk && x.cause == SendFailed
    else j < k && WaitsUntil(es, j, x.id, k) && EndedBy(es[k], x.id) == Some(x.cause)
  }

  ghost predicate Ends(es: seq<Event>, x: Settlement)
  {
    exists j, k :: 0 <= j < |es| && 0 <= k < |es| && EndsAt(es, j, k, x)
  }

  ghost predicate Waits(es: seq<Event>, id: nat)
  {
    exists j :: 0 <= j < |es| && WaitsUntil(es, j, id, |es|)
  }

  lemma StepPending(opts: Options, s: State, e: Event, id: nat)
    requires Inv(s) && Step(opts, s, e).Some?
    ensures id in Step(opts, s, e).value.pending
       <==> || (id in s.pending && EndedBy(e, id).None?)
            || (e.Request? && e.isOpen && !s.disposed && e.sendOk && id == s.nextRequestId)
  {
  }

  lemma StepSettled(opts: Options, s: State, e: Event, x: Settlement)
    requires Inv(s) && Step(opts, s, e).Some?
    ensures x in Step(opts, s, e).value.settled
       <==> || x in s.settled
            || (x.id in s.pending && EndedBy(e, x.id) == Some(x.cause))
            || (e.Request? && e.isOpen && !s.disposed && !e.sendOk && x == Settlement(s.nextRequestId, SendFailed))
  {
    if e.Close? || e.Dispose? {
      IssueOrderIds(s.pending, s.nextRequestId);
      var ids := InIssueOrder(s.pending, s.nextRequestId);
      SettledEach(ids, if e.Close? then ConnectionClosed else TransportDisposed, x);
    }
  }

  lemma SettledEach(ids: seq<nat>, cause: Cause, x: Settlement)
    ensures x in SettleEach(ids, cause) <==> x.id in ids && x.cause == cause
  {
    if x.id in ids && x.cause == cause {
      var k :| 0 <= k < |ids| && ids[k] == x.id;
      assert SettleEach(ids, cause)[k] == x;
    }
  }

  /** What is said of an event does not depend on those after it. */
  lemma StaysSaid(es: seq<Event>, e: Event, j: nat)
    requires j < |es|
    ensures (es + [e])[j] == es[j] && (es + [e])[..j] == es[..j]
    ensures forall id :: RequestAt(es + [e], j, id) <==> RequestAt(es, j, id)
  {
  }

  lemma {:induction false} IdsFollow(opts: Options, es: seq<Event>)
    requires Run(opts, INITIAL, es).Some?
    ensures var s := Run(opts, INITIAL, es).value;
            && (s.disposed <==> HasDispose(es))
            && s.nextRequestId == IdsBefore(es) + 1
    decreases |es|
  {
    if es != [] {
      var before, e := es[..|es| - 1], es[|es| - 1];
      IdsFollow(opts, before);
      assert es == before + [e];
      assert HasDispose(es) <==> HasDispose(before) || e.Dispose?;
    }
  }

  function Requests(es: seq<Event>): nat
  {
    if es == [] then 0 else Requests(es[..|es| - 1]) + if es[|es| - 1].Request? then 1 else 0
  }

  /** A request that gets no id is refused at once. */
  lemma {:induction false} RefusedRest(opts: Options, es: seq<Event>)
    requires Run(opts, INITIAL, es).Some?
    ensures Run(opts, INITIAL, es).value.refused + IdsBefore(es) == Requests(es)
    decreases |es|
  {
    if es != [] {
      RefusedRest(opts, es[..|es| - 1]);
      IdsFollow(opts, es[..|es| - 1]);
    }
  }

  /** A request is pending exactly if it got an id, was sent, and neither its
      response, nor its timeout, nor a close or a dispose has come since. */
  lemma {:induction false} PendingIff(opts: Options, es: seq<Event>, id: nat)
    requires Run(opts, INITIAL, es).Some?
    ensures id in Run(opts, INITIAL, es).value.pending
       <==> Waits(es, id)
    decreases |es|
  {
    if es != [] {
      var n := |es| - 1;
      var before, e := es[..n], es[n];
      assert es == before + [e];
      PendingIff(opts, before, id);
      IdsFollow(opts, before);
      Conservation(opts, before);
      StepPending(opts, Run(opts, INITIAL, before).value, e, id);
      forall j | 0 <= j < n
        ensures WaitsUntil(es, j, id, |es|) <==> WaitsUntil(before, j, id, n) && EndedBy(e, id).None?
      {
        StaysSaid(before, e, j);
      }
      assert WaitsUntil(es, n, id, |es|) <==> RequestAt(es, n, id) && e.sendOk;
    }
  }

  /** And it is kept with the method it was made for. */
  lemma {:induction false} PendingMethod(opts: Options, es: seq<Event>, id: nat) returns (j: nat)
    requires Run(opts, INITIAL, es).Some? && id in Run(opts, INITIAL, es).value.pending
    ensures j < |es| && RequestAt(es, j, id) && es[j].rpc == Run(opts, INITIAL, es).value.pending[id]
    decreases |es|
  {
    var n := |es| - 1;
    var before, e := es[..n], es[n];
    assert es == before + [e];
    IdsFollow(opts, before);
    Conservation(opts, before);
    StepPending(opts, Run(opts, INITIAL, before).value, e, id);
    if id in Run(opts, INITIAL, before).value.pending {
      j := PendingMethod(opts, before, id);
      StaysSaid(before, e, j);
    } else {
      j := n;
    }
  }

  /** A close or a dispose rejects what is pending in the order of the requests. */
  lemma RejectsInOrder(opts: Options, es: seq<Event>, e: Event)
    requires Run(opts, INITIAL, es).Some? && (e.Close? || e.Dispose?)
    ensures var s, t := Run(opts, INITIAL, es).value, Run(opts, INITIAL, es + [e]).value;
            && s.settled <= t.settled
            && forall i, k :: |s.settled| <= i < k < |t.settled| ==> t.settled[i].id < t.settled[k].id
  {
    assert (es + [e])[..|es|] == es;
    var s := Run(opts, INITIAL, es).value;
    IssueOrderIds(s.pending, s.nextRequestId);
  }

  lemma EndsOnce(es: seq<Event>, e: Event, j: nat, k: nat, x: Settlement)
    requires j < |es| && k < |es|
    ensures EndsAt(es + [e], j, k, x) <==> EndsAt(es, j, k, x)
  {
    StaysSaid(es, e, j);
    assert forall m :: 0 <= m < |es| ==> (es + [e])[m] == es[m];
  }

  lemma EndsNow(es: seq<Event>, e: Event, j: nat, x: Settlement)
    requires j < |es|
    ensures EndsAt(es + [e], j, |es|, x) <==> WaitsUntil(es, j, x.id, |es|) && EndedBy(e, x.id) == Some(x.cause)
  {
    StaysSaid(es, e, j);
    assert forall m :: 0 <= m < |es| ==> (es + [e])[m] == es[m];
  }

  lemma EndsStep(es: seq<Event>, e: Event, x: Settlement)
    ensures Ends(es + [e], x)
       <==> || Ends(es, x)
            || (Waits(es, x.id) && EndedBy(e, x.id) == Some(x.cause))
            || EndsAt(es + [e], |es|, |es|, x)
  {
    var all := es + [e];
    if Ends(all, x) {
      var j, k :| 0 <= j < |all| && 0 <= k < |all| && EndsAt(all, j, k, x);
      if k < |es| {
        EndsOnce(es, e, j, k, x);
      } else if j < |es| {
        EndsNow(es, e, j, x);
      }
    }
    if Ends(es, x) {
      var j, k :| 0 <= j < |es| && 0 <= k < |es| && EndsAt(es, j, k, x);
      EndsOnce(es, e, j, k, x);
    }
    if Waits(es, x.id) && EndedBy(e, x.id) == Some(x.cause) {
      var j :| 0 <= j < |es| && WaitsUntil(es, j, x.id, |es|);
      EndsNow(es, e, j, x);
    }
  }

  /** A request is settled exactly as the first event that ends it says. */
  lemma {:induction false} SettledIff(opts: Options, es: seq<Event>, x: Settlement)
    requires Run(opts, INITIAL, es).Some?
    ensures x in Run(opts, INITIAL, es).value.settled <==> Ends(es, x)
    decreases |es|
  {
    if es != [] {
      var n := |es| - 1;
      var before, e := es[..n], es[n];
      assert es == before + [e];
      SettledIff(opts, before, x);
      PendingIff(opts, before, x.id);
      IdsFollow(opts, before);
      Conservation(opts, before);
      StepSettled(opts, Run(opts, INITIAL, before).value, e, x);
      EndsStep(before, e, x);
    }
  }

  // ---------------------------------------------------------------- reconnects

  /** The event at j sets up a reconnect: a close, unless disposed or switched off,
      or a connection attempt that fails. */
  predicate Schedules(opts: Options, es: seq<Event>, j: nat)
    requires j < |es|
  {
    (es[j].Close? && opts.autoReconnect && !HasDispose(es[..j])) || es[j].ConnectFails?
  }

  /** The attempts since the connection last opened. */
  function Attempts(opts: Options, es: seq<Event>): nat
  {
    if es == [] || es[|es| - 1].ConnectOpens? then 0
    else Attempts(opts, es[..|es| - 1]) + if Schedules(opts, es, |es| - 1) then 1 else 0
  }

  /** The delay listed for the n-th attempt in a row; from the end of the list on the
      last one, 14.5 seconds if none is listed. */
  function DelayOf(opts: Options, n: nat): nat
  {
    var last := |opts.reconnectDelaysMs| - 1;
    if last < 0 then 14500 else opts.reconnectDelaysMs[if n < last then n else last]
  }

  /** The delay of every reconnect that was set up. */
  function DelaysOf(opts: Options, es: seq<Event>): seq<nat>
  {
    if es == [] then []
    else
      var before := es[..|es| - 1];
      DelaysOf(opts, before)
      + if Schedules(opts, es, |es| - 1) then [DelayOf(opts, Attempts(opts, before))] else []
  }

  /** The reconnect timers that fired before anybody disposed. */
  function Reconnects(es: seq<Event>): nat
  {
    if es == [] then 0
    else
      var before := es[..|es| - 1];
      Reconnects(before) + if es[|es| - 1].ReconnectFires? && !HasDispose(before) then 1 else 0
  }

  lemma StepReconnects(opts: Options, s: State, e: Event)
    requires Step(opts, s, e).Some?
    ensures var t := Step(opts, s, e).value;
            var more := (e.Close? && opts.autoReconnect && !s.disposed) || e.ConnectFails?;
            && t.reconnectAttempt == (if e.ConnectOpens? then 0 else s.reconnectAttempt + if more then 1 else 0)
            && t.delays == s.delays + (if more then [DelayOf(opts, s.reconnectAttempt)] else [])
            && t.nextTimer == s.nextTimer + (if more then 1 else 0)
            && t.connects == s.connects + if e.ReconnectFires? && !s.disposed then 1 else 0
  {
  }

  lemma {:induction false} ReconnectsFollow(opts: Options, es: seq<Event>)
    requires Run(opts, INITIAL, es).Some?
    ensures var s := Run(opts, INITIAL, es).value;
            && s.reconnectAttempt == Attempts(opts, es)
            && s.delays == DelaysOf(opts, es) && s.nextTimer == |s.delays|
            && s.connects == Reconnects(es)
    decreases |es|
  {
    if es != [] {
      var before := es[..|es| - 1];
      ReconnectsFollow(opts, before);
      IdsFollow(opts, before);
      StepReconnects(opts, Run(opts, INITIAL, before).value, es[|es| - 1]);
    }
  }

  /** The n-th reconnect was set up at j, and up to k neither has its timer fired nor
      has anybody disposed while it was the latest. */
  ghost predicate TimerRuns(opts: Options, es: seq<Event>, n: nat, j: nat, k: nat)
    requires j < |es| && k <= |es|
  {
    && Schedules(opts, es, j) && |DelaysOf(opts, es[..j])| == n
    && forall m :: j < m < k ==>
         es[m] != ReconnectFires(n) && !(es[m].Dispose? && |DelaysOf(opts, es[..m])| == n + 1)
  }

  ghost predicate TimerIsSet(opts: Options, es: seq<Event>, n: nat)
  {
    exists j :: 0 <= j < |es| && TimerRuns(opts, es, n, j, |es|)
  }

  /** The transport remembers the latest reconnect timer, unless it disposed of it. */
  ghost predicate TimerInv(s: State)
  {
    && (forall n :: n in s.timers ==> n < s.nextTimer)
    && (s.reconnectTimer.Some? ==> s.reconnectTimer.value + 1 == s.nextTimer)
    && (s.reconnectTimer.None? && s.nextTimer > 0 ==> s.nextTimer - 1 !in s.timers)
  }

  lemma StepTimers(opts: Options, s: State, e: Event, n: nat)
    requires TimerInv(s) && Step(opts, s, e).Some?
    ensures TimerInv(Step(opts, s, e).value)
    ensures n in Step(opts, s, e).value.timers
       <==> || (n in s.timers && e != ReconnectFires(n) && !(e.Dispose? && s.nextTimer == n + 1))
            || (n == s.nextTimer && ((e.Close? && opts.autoReconnect && !s.disposed) || e.ConnectFails?))
  {
  }

  lemma TimerStays(opts: Options, es: seq<Event>, e: Event, n: nat, j: nat)
    requires j < |es|
    ensures TimerRuns(opts, es + [e], n, j, |es| + 1)
       <==> && TimerRuns(opts, es, n, j, |es|)
            && e != ReconnectFires(n) && !(e.Dispose? && |DelaysOf(opts, es)| == n + 1)
  {
    var all := es + [e];
    assert all[..|es|] == es;
    assert forall m :: 0 <= m < |es| ==> all[m] == es[m] && all[..m] == es[..m];
  }

  /** A reconnect timer runs exactly if it was set, has not fired, and was not the
      latest when somebody disposed. */
  lemma {:induction false} TimerIff(opts: Options, es: seq<Event>, n: nat)
    requires Run(opts, INITIAL, es).Some?
    ensures TimerInv(Run(opts, INITIAL, es).value)
    ensures n in Run(opts, INITIAL, es).value.timers
       <==> TimerIsSet(opts, es, n)
    decreases |es|
  {
    if es != [] {
      var last := |es| - 1;
      var before, e := es[..last], es[last];
      assert es == before + [e];
      TimerIff(opts, before, n);
      IdsFollow(opts, before);
      ReconnectsFollow(opts, before);
      StepTimers(opts, Run(opts, INITIAL, before).value, e, n);
      forall j | 0 <= j < last
        ensures TimerRuns(opts, es, n, j, |es|)
           <==> TimerRuns(opts, before, n, j, last)
                && e != ReconnectFires(n) && !(e.Dispose? && |DelaysOf(opts, before)| == n + 1)
      {
        TimerStays(opts, before, e, n, j);
      }
      assert TimerRuns(opts, es, n, last, |es|) <==> Schedules(opts, es, last) && |DelaysOf(opts, before)| == n;
    }
  }

  /** Anything may happen next, but a timeout only to a request that waits, and a
      reconnect timer fires only while it is set. */
  lemma PossibleIff(opts: Options, es: seq<Event>, e: Event)
    requires Run(opts, INITIAL, es).Some?
    ensures Run(opts, INITIAL, es + [e]).Some?
       <==> (e.Timeout? ==> Waits(es, e.of)) && (e.ReconnectFires? ==> TimerIsSet(opts, es, e.timer))
  {
    assert (es + [e])[..|es|] == es;
    Conservation(opts, es);
    if e.Timeout? { PendingIff(opts, es, e.of); }
    if e.ReconnectFires? { TimerIff(opts, es, e.timer); }
  }
}
