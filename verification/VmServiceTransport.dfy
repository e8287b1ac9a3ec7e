// shared/vm-service-client/src/transport.ts
//
// JSON-RPC request correlation over a WebSocket: every issued id is pending or
// settled, never both and never twice.
module VmServiceTransport {
  import opened Collections

  datatype Cause =
    | Resolved
    | RpcFailed
    | TimedOut
    | SendFailed
    | ConnectionClosed
    | TransportDisposed

  // The promise of request `id` settled, and why.
  datatype Settlement = Settlement(id: nat, cause: Cause)

  // `pending` maps an id to its method; `armed` holds the ids whose request
  // timer runs. A promise rejected before an id is issued only counts in
  // `refused`. `timers` are the reconnect timers that run, `reconnectTimer` the
  // one the object remembers.
  datatype State = State(
    nextRequestId: nat,
    pending: map<nat, string>,
    armed: set<nat>,
    disposed: bool,
    reconnectAttempt: nat,
    reconnectTimer: Option<nat>,
    timers: set<nat>,
    nextTimer: nat,
    delays: seq<nat>,
    connects: nat,
    settled: seq<Settlement>,
    refused: nat)

  datatype Options = Options(autoReconnect: bool, reconnectDelaysMs: seq<nat>)

  const INITIAL := State(1, map[], {}, false, 0, None, {}, 0, [], 0, [], 0)

  // A response carries a number, or None for an id that is none (NaN).
  datatype Event =
    | Request(rpc: string, isOpen: bool, sendOk: bool)
    | Response(id: Option<int>, isError: bool)
    | OtherFrame
    | Timeout(of: nat)
    | Close
    | Dispose
    | ReconnectFires(timer: nat)
    | ConnectOpens
    | ConnectFails

  // ---------------------------------------------------------------- specification

  /** The pending ids below n, in the order they were issued. */
  function InIssueOrder(pending: map<nat, string>, n: nat): seq<nat>
  {
    if n == 0 then []
    else InIssueOrder(pending, n - 1) + if n - 1 in pending then [n - 1] else []
  }

  function SettleEach(ids: seq<nat>, cause: Cause): (r: seq<Settlement>)
    ensures |r| == |ids| && forall i :: 0 <= i < |ids| ==> r[i] == Settlement(ids[i], cause)
  {
    seq(|ids|, i requires 0 <= i < |ids| => Settlement(ids[i], cause))
  }

  function FailAll(s: State, cause: Cause): State
  {
    s.(pending := map[], armed := s.armed - s.pending.Keys,
       settled := s.settled + SettleEach(InIssueOrder(s.pending, s.nextRequestId), cause))
  }

  function Settle(s: State, id: nat, cause: Cause): State
  {
    s.(pending := s.pending - {id}, armed := s.armed - {id}, settled := s.settled + [Settlement(id, cause)])
  }

  /** `delays[min(attempt, last)] ?? delays[last] ?? 14500` */
  function ReconnectDelay(delays: seq<nat>, attempt: nat): nat
  {
    if delays == [] then 14500
    else if attempt < |delays| then delays[attempt]
    else delays[|delays| - 1]
  }

  function ScheduleReconnect(opts: Options, s: State): State
  {
    s.(reconnectAttempt := s.reconnectAttempt + 1,
       delays := s.delays + [ReconnectDelay(opts.reconnectDelaysMs, s.reconnectAttempt)],
       reconnectTimer := Some(s.nextTimer), timers := s.timers + {s.nextTimer}, nextTimer := s.nextTimer + 1)
  }

  function Issue(s: State, rpc: string, isOpen: bool, sendOk: bool): State
  {
    if s.disposed || !isOpen then s.(refused := s.refused + 1)
    else
      var id := s.nextRequestId;
      var t := s.(nextRequestId := id + 1, pending := s.pending[id := rpc], armed := s.armed + {id});
      if sendOk then t else Settle(t, id, SendFailed)
  }

  function Step(opts: Options, s: State, e: Event): Option<State>
  {
    match e
    case Request(rpc, isOpen, sendOk) => Some(Issue(s, rpc, isOpen, sendOk))
    case Response(id, isError) =>
      if id.Some? && id.value >= 0 && id.value in s.pending then
        Some(Settle(s, id.value, if isError then RpcFailed else Resolved))
      else Some(s)
    case OtherFrame => Some(s)
    case Timeout(id) => if id in s.armed then Some(Settle(s, id, TimedOut)) else None
    case Close =>
      var t := FailAll(s, ConnectionClosed);
      Some(if !t.disposed && opts.autoReconnect then ScheduleReconnect(opts, t) else t)
    case Dispose =>
      var t := s.(disposed := true, reconnectTimer := None,
                  timers := s.timers - if s.reconnectTimer.Some? then {s.reconnectTimer.value} else {});
      Some(FailAll(t, TransportDisposed))
    case ReconnectFires(timer) =>
      if timer !in s.timers then None
      else
        var t := s.(timers := s.timers - {timer});
        Some(if t.disposed then t else t.(connects := t.connects + 1))
    case ConnectOpens => Some(s.(reconnectAttempt := 0))
    case ConnectFails => Some(ScheduleReconnect(opts, s))
  }

  function Run(opts: Options, s: State, es: seq<Event>): Option<State>
  {
    if es == [] then Some(s)
    else
      match Run(opts, s, es[..|es| - 1])
      case None => None
      case Some(t) => Step(opts, t, es[|es| - 1])
  }

  // ---------------------------------------------------------------- code

  class Transport {
    const opts: Options
    var nextRequestId: nat
    var pending: map<nat, string>
    var disposed: bool
    var reconnectAttempt: nat
    var reconnectTimer: Option<nat>
    // the timers that run, and what has happened so far
    var armed: set<nat>
    var timers: set<nat>
    var nextTimer: nat
    var delays: seq<nat>
    var connects: nat
    var settled: seq<Settlement>
    var refused: nat

    function View(): State
      reads this
    {
      State(nextRequestId, pending, armed, disposed, reconnectAttempt, reconnectTimer, timers, nextTimer, delays,
            connects, settled, refused)
    }

    constructor (opts: Options)
      ensures View() == INITIAL && this.opts == opts
    {
      this.opts := opts;
      nextRequestId, pending, armed, disposed := 1, map[], {}, false;
      reconnectAttempt, reconnectTimer, timers, nextTimer, delays, connects := 0, None, {}, 0, [], 0;
      settled, refused := [], 0;
    }

    method Request(rpc: string, isOpen: bool, sendOk: bool)
      modifies this
      ensures View() == Issue(old(View()), rpc, isOpen, sendOk)
    {
      if disposed || !isOpen {
        refused := refused + 1;
        return;
      }
      var id := nextRequestId;
      nextRequestId := nextRequestId + 1;
      armed := armed + {id};
      pending := pending[id := rpc];
      if !sendOk {
        armed := armed - {id};
        pending := pending - {id};
        settled := settled + [Settlement(id, SendFailed)];
      }
    }

    method OnMessage(id: Option<int>, isError: bool)
      modifies this
      ensures Some(View()) == Step(opts, old(View()), Response(id, isError))
    {
      if id.None? || id.value < 0 || id.value !in pending {
        return;
      }
      pending := pending - {id.value};
      armed := armed - {id.value};
      settled := settled + [Settlement(id.value, if isError then RpcFailed else Resolved)];
    }

    method OnTimeout(id: nat)
      requires id in armed
      modifies this
      ensures Some(View()) == Step(opts, old(View()), Timeout(id))
    {
      armed := armed - {id};
      pending := pending - {id};
      settled := settled + [Settlement(id, TimedOut)];
    }

    method FailAllPending(cause: Cause)
      modifies this
      ensures View() == FailAll(old(View()), cause)
    {
      var ids := InIssueOrder(pending, nextRequestId);
      for i := 0 to |ids|
        invariant settled == old(settled) + SettleEach(ids[..i], cause)
        invariant unchanged(this) || View() == old(View()).(settled := settled)
      {
        settled := settled + [Settlement(ids[i], cause)];
        assert SettleEach(ids[..i + 1], cause) == SettleEach(ids[..i], cause) + [Settlement(ids[i], cause)];
      }
      assert ids[..|ids|] == ids;
      armed := armed - pending.Keys;
      pending := map[];
    }

    method OnClose()
      modifies this
      ensures Some(View()) == Step(opts, old(View()), Close)
    {
      FailAllPending(ConnectionClosed);
      if !disposed && opts.autoReconnect {
        Reconnect();
      }
    }

    method Reconnect()
      modifies this
      ensures View() == ScheduleReconnect(opts, old(View()))
    {
      var delay := ReconnectDelay(opts.reconnectDelaysMs, reconnectAttempt);
      reconnectAttempt := reconnectAttempt + 1;
      delays := delays + [delay];
      reconnectTimer := Some(nextTimer);
      timers := timers + {nextTimer};
      nextTimer := nextTimer + 1;
    }

    // The callback of a reconnect timer.
    method OnReconnectTimer(timer: nat)
      requires timer in timers
      modifies this
      ensures Some(View()) == Step(opts, old(View()), ReconnectFires(timer))
    {
      timers := timers - {timer};
      if disposed {
        return;
      }
      connects := connects + 1;
    }

    method Dispose()
      modifies this
      ensures Some(View()) == Step(opts, old(View()), Event.Dispose)
    {
      disposed := true;
      if reconnectTimer.Some? {
        timers := timers - {reconnectTimer.value};
        reconnectTimer := None;
      }
      assert timers == old(timers) - if old(reconnectTimer).Some? then {old(reconnectTimer).value} else {};
      FailAllPending(TransportDisposed);
    }
  }

  // ---------------------------------------------------------------- invariant

  ghost predicate SettledOnce(settled: seq<Settlement>)
  {
    forall i, j :: 0 <= i < j < |settled| ==> settled[i].id != settled[j].id
  }

  function SettledIds(settled: seq<Settlement>): set<nat>
  {
    set x | x in settled :: x.id
  }

  /** The ids issued when the next one is n are split between the two. */
  ghost predicate SplitsIssued(pending: map<nat, string>, settled: seq<Settlement>, n: nat)
  {
    && pending.Keys !! SettledIds(settled)
    && forall id {:trigger id in pending} {:trigger id in SettledIds(settled)} ::
         id in pending || id in SettledIds(settled) <==> 1 <= id < n
  }

  ghost predicate Inv(s: State)
  {
    && s.nextRequestId >= 1
    && s.armed == s.pending.Keys
    && SettledOnce(s.settled)
    && SplitsIssued(s.pending, s.settled, s.nextRequestId)
    && (s.disposed ==> s.pending == map[])
  }

  ghost predicate Ascending(ids: seq<nat>)
  {
    forall i, j :: 0 <= i < j < |ids| ==> ids[i] < ids[j]
  }

  lemma {:induction false} IssueOrderIds(pending: map<nat, string>, n: nat)
    ensures forall id :: id in InIssueOrder(pending, n) <==> id in pending && id < n
    ensures Ascending(InIssueOrder(pending, n))
  {
    if n > 0 {
      IssueOrderIds(pending, n - 1);
      var before := InIssueOrder(pending, n - 1);
      assert forall i :: 0 <= i < |before| ==> before[i] in before;
    }
  }

  lemma SettleKeepsInv(s: State, id: nat, cause: Cause)
    requires Inv(s) && id in s.pending
    ensures Inv(Settle(s, id, cause))
  {
    var t := Settle(s, id, cause);
    SettledIdsAppend(s.settled, [Settlement(id, cause)]);
    assert SettledIds([Settlement(id, cause)]) == {id};
    forall i | 0 <= i < |s.settled| ensures s.settled[i].id != id {
      assert s.settled[i] in s.settled;
    }
    assert t.pending.Keys == s.pending.Keys - {id};
  }

  lemma SettledIdsAppend(a: seq<Settlement>, b: seq<Settlement>)
    ensures SettledIds(a + b) == SettledIds(a) + SettledIds(b)
  {
    assert forall x :: x in a + b <==> x in a || x in b;
  }

  lemma SettledIdsEach(ids: seq<nat>, cause: Cause)
    ensures forall id :: id in SettledIds(SettleEach(ids, cause)) <==> id in ids
  {
    forall id | id in ids ensures id in SettledIds(SettleEach(ids, cause)) {
      var k :| 0 <= k < |ids| && ids[k] == id;
      assert SettleEach(ids, cause)[k] in SettleEach(ids, cause);
    }
  }

  lemma FailAllKeepsInv(s: State, cause: Cause)
    requires Inv(s.(disposed := false))
    ensures Inv(FailAll(s, cause))
  {
    var ids := InIssueOrder(s.pending, s.nextRequestId);
    var more := SettleEach(ids, cause);
    IssueOrderIds(s.pending, s.nextRequestId);
    SettledIdsEach(ids, cause);
    SettledIdsAppend(s.settled, more);
    assert SettledIds(more) == s.pending.Keys;
    var t := FailAll(s, cause);
    forall i, j | 0 <= i < j < |t.settled| ensures t.settled[i].id != t.settled[j].id {
      if i < |s.settled| <= j {
        assert s.settled[i] in s.settled;
        assert more[j - |s.settled|] in more;
        assert s.settled[i].id in SettledIds(s.settled) && more[j - |s.settled|].id in SettledIds(more);
      } else if |s.settled| <= i {
        assert ids[i - |s.settled|] != ids[j - |s.settled|];
      }
    }
  }

  lemma IssueKeepsInv(s: State, rpc: string, isOpen: bool, sendOk: bool)
    requires Inv(s)
    ensures Inv(Issue(s, rpc, isOpen, sendOk))
  {
    if !s.disposed && isOpen {
      var id := s.nextRequestId;
      assert id !in s.pending && id !in SettledIds(s.settled);
      var t := s.(nextRequestId := id + 1, pending := s.pending[id := rpc], armed := s.armed + {id});
      assert Inv(t);
      if !sendOk {
        SettleKeepsInv(t, id, SendFailed);
      }
    }
  }

  lemma StepKeepsInv(opts: Options, s: State, e: Event)
    requires Inv(s) && Step(opts, s, e).Some?
    ensures Inv(Step(opts, s, e).value)
  {
    match e
    case Request(rpc, isOpen, sendOk) => IssueKeepsInv(s, rpc, isOpen, sendOk);
    case Response(id, isError) =>
      if id.Some? && id.value >= 0 && id.value in s.pending {
        SettleKeepsInv(s, id.value, if isError then RpcFailed else Resolved);
      }
    case Timeout(id) => SettleKeepsInv(s, id, TimedOut);
    case Close => FailAllKeepsInv(s, ConnectionClosed);
    case Dispose =>
      var t := s.(disposed := true, reconnectTimer := None,
                  timers := s.timers - if s.reconnectTimer.Some? then {s.reconnectTimer.value} else {});
      assert Inv(t.(disposed := false));
      FailAllKeepsInv(t, TransportDisposed);
    case _ =>
  }

  // ---------------------------------------------------------------- theorems

  /** Conservation: in every reachable state the issued ids are split between
      pending and settled, each settled once; every pending request has its timer
      running, and once disposed nothing is pending. */
  lemma {:induction false} Conservation(opts: Options, es: seq<Event>)
    requires Run(opts, INITIAL, es).Some?
    ensures Inv(Run(opts, INITIAL, es).value)
    decreases |es|
  {
    if es != [] {
      Conservation(opts, es[..|es| - 1]);
      StepKeepsInv(opts, Run(opts, INITIAL, es[..|es| - 1]).value, es[|es| - 1]);
    } else {
      assert SettledIds(INITIAL.settled) == {};
    }
  }

  /** What may settle a promise: its own response, its own timer, its own failed
      send, a close or a dispose. */
  predicate Justifies(s: State, e: Event, x: Settlement)
  {
    match x.cause
    case Resolved => e == Response(Some(x.id), false) && x.id in s.pending
    case RpcFailed => e == Response(Some(x.id), true) && x.id in s.pending
    case TimedOut => e == Timeout(x.id) && x.id in s.pending
    case SendFailed => e.Request? && !e.sendOk && x.id == s.nextRequestId
    case ConnectionClosed => e.Close? && x.id in s.pending
    case TransportDisposed => e.Dispose? && x.id in s.pending
  }

  lemma StepJustified(opts: Options, s: State, e: Event)
    requires Inv(s) && Step(opts, s, e).Some?
    ensures var t := Step(opts, s, e).value;
            && s.settled <= t.settled
            && forall k :: |s.settled| <= k < |t.settled| ==> Justifies(s, e, t.settled[k])
  {
    if e.Close? || e.Dispose? {
      var ids := InIssueOrder(s.pending, s.nextRequestId);
      IssueOrderIds(s.pending, s.nextRequestId);
      assert forall k :: 0 <= k < |ids| ==> ids[k] in ids;
    }
  }

  /** Every settlement in a run was justified by one event of the run, in the
      state that event found. */
  lemma {:induction false} EverySettlementJustified(opts: Options, es: seq<Event>, k: nat) returns (j: nat)
    requires Run(opts, INITIAL, es).Some? && k < |Run(opts, INITIAL, es).value.settled|
    ensures j < |es| && Run(opts, INITIAL, es[..j]).Some?
    ensures Justifies(Run(opts, INITIAL, es[..j]).value, es[j], Run(opts, INITIAL, es).value.settled[k])
    decreases |es|
  {
    var before := es[..|es| - 1];
    var s := Run(opts, INITIAL, before).value;
    Conservation(opts, before);
    StepJustified(opts, s, es[|es| - 1]);
    if k < |s.settled| {
      j := EverySettlementJustified(opts, before, k);
      assert before[..j] == es[..j];
    } else {
      j := |es| - 1;
    }
  }

  /** A close or a dispose leaves nothing pending and no request timer running. */
  lemma NothingPendingAfter(opts: Options, es: seq<Event>)
    requires es != [] && Run(opts, INITIAL, es).Some?
    requires es[|es| - 1].Close? || es[|es| - 1].Dispose?
    ensures var s := Run(opts, INITIAL, es).value;
            s.pending == map[] && s.armed == {} && |s.settled| + 1 == s.nextRequestId
  {
    Conservation(opts, es);
    var s := Run(opts, INITIAL, es).value;
    CountSettled(s.settled);
    assert forall id :: id in SettledIds(s.settled) <==> 1 <= id < s.nextRequestId;
    CountIds(SettledIds(s.settled), s.nextRequestId);
  }

  lemma {:induction false} CountSettled(settled: seq<Settlement>)
    requires SettledOnce(settled)
    ensures |SettledIds(settled)| == |settled|
  {
    if settled == [] {
      assert SettledIds(settled) == {};
    } else {
      var rest, last := settled[..|settled| - 1], settled[|settled| - 1];
      CountSettled(rest);
      assert SettledIds(settled) == SettledIds(rest) + {last.id};
      assert last.id !in SettledIds(rest);
    }
  }

  lemma {:induction false} CountIds(ids: set<nat>, n: nat)
    requires n >= 1 && forall id :: id in ids <==> 1 <= id < n
    ensures |ids| == n - 1
  {
    if n == 1 {
      assert ids == {};
    } else {
      CountIds(ids - {n - 1}, n - 1);
    }
  }

  /** Once disposed, always disposed: no id is issued any more, nothing becomes
      pending, and no reconnect timer, even one armed by a connection attempt
      that fails later, opens a connection. */
  lemma {:induction false} DisposedForEver(opts: Options, s: State, es: seq<Event>)
    requires Inv(s) && s.disposed && Run(opts, s, es).Some?
    ensures var t := Run(opts, s, es).value;
            && Inv(t) && t.disposed && t.pending == map[]
            && t.nextRequestId == s.nextRequestId && t.connects == s.connects && t.settled == s.settled
    decreases |es|
  {
    if es != [] {
      DisposedForEver(opts, s, es[..|es| - 1]);
      var t, e := Run(opts, s, es[..|es| - 1]).value, es[|es| - 1];
      StepKeepsInv(opts, t, e);
      NothingToFail(t.nextRequestId);
    }
  }

  lemma {:induction false} NothingToFail(n: nat)
    ensures InIssueOrder(map[], n) == []
  {
    if n > 0 {
      NothingToFail(n - 1);
    }
  }
}
