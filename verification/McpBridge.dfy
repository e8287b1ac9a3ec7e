// hermes-plugin-src/bridge.py
//
// JSON-RPC over a subprocess's pipes, shared by calling threads, a reader
// thread and any thread that fails everything pending. A step is what one
// thread does under the lock, or one access without it.
module McpBridge {
  import opened Collections

  // What an entry's result can be: a line read from stdout, or the error put
  // there by _fail_all_pending.
  datatype Message = Line(id: nat, hasError: bool) | FailedAll

  // The dictionary a caller registers; its identity is the request id.
  datatype Entry = Entry(result: Option<Message>, eventSet: bool)

  datatype Failure = SendFailed | TimeoutText | RpcError

  // Where a _send_request call stands.
  datatype Caller =
    | Registered(id: nat)
    | Written(id: nat)
    | Awake(id: nat)
    | Popped(id: nat, found: bool)
    | Returned(id: nat, message: Message)
    | Raised(id: nat, failure: Failure)

  // A _fail_all_pending call after it cleared the map: the entries it still has
  // to finish, and whether the first of them has its result already.
  datatype Failer = Failer(rest: seq<nat>, resultSet: bool)

  datatype State = State(
    nextId: nat,
    pending: set<nat>,
    entries: map<nat, Entry>,
    callers: map<nat, Caller>,
    failers: map<nat, Failer>,
    // history
    written: set<nat>,
    popped: set<nat>,
    cleared: set<nat>)

  const INITIAL := State(1, {}, map[], map[], map[], {}, {}, {})

  datatype Event =
    | Register(caller: nat)
    | Write(caller: nat, ok: bool)
    | Wake(caller: nat, timedOut: bool)
    | Pop(caller: nat)
    | Finish(caller: nat)
    | Read(id: nat, hasError: bool)
    | FailStart(failer: nat)
    | FailResult(failer: nat)
    | FailEvent(failer: nat)

  // ---------------------------------------------------------------- specification

  /** The ids below n that are in ids, in the order they were registered. */
  function InOrder(ids: set<nat>, n: nat): seq<nat>
  {
    if n == 0 then [] else InOrder(ids, n - 1) + if n - 1 in ids then [n - 1] else []
  }

  function MoveTo(s: State, caller: nat, c: Caller): State
  {
    s.(callers := s.callers[caller := c])
  }

  /** How a call ends once it has popped its entry. */
  function Outcome(id: nat, found: bool, entry: Entry): Caller
  {
    if !found || entry.result.None? then Raised(id, TimeoutText)
    else
      match entry.result.value
      case FailedAll => Raised(id, RpcError)
      case Line(_, hasError) => if hasError then Raised(id, RpcError) else Returned(id, entry.result.value)
  }

  function Step(s: State, e: Event): Option<State>
  {
    match e
    case Register(c) =>
      // id and entry under one acquisition of the lock
      if c in s.callers then None
      else
        Some(MoveTo(s, c, Registered(s.nextId)).(
               nextId := s.nextId + 1, pending := s.pending + {s.nextId},
               entries := s.entries[s.nextId := Entry(None, false)]))
    case Write(c, ok) =>
      if c !in s.callers || !s.callers[c].Registered? then None
      else
        var id := s.callers[c].id;
        Some(if ok then MoveTo(s, c, Written(id)).(written := s.written + {id})
             else MoveTo(s, c, Raised(id, SendFailed)))
    case Wake(c, timedOut) =>
      if c !in s.callers || !s.callers[c].Written? then None
      else
        var id := s.callers[c].id;
        if timedOut || (id in s.entries && s.entries[id].eventSet) then Some(MoveTo(s, c, Awake(id))) else None
    case Pop(c) =>
      if c !in s.callers || !s.callers[c].Awake? then None
      else
        var id := s.callers[c].id;
        Some(MoveTo(s, c, Popped(id, id in s.pending)).(
               pending := s.pending - {id},
               popped := s.popped + if id in s.pending then {id} else {}))
    case Finish(c) =>
      if c !in s.callers || !s.callers[c].Popped? || s.callers[c].id !in s.entries then None
      else
        var p := s.callers[c];
        Some(MoveTo(s, c, Outcome(p.id, p.found, s.entries[p.id])))
    case Read(id, hasError) =>
      Some(if id in s.pending then s.(entries := s.entries[id := Entry(Some(Line(id, hasError)), true)]) else s)
    case FailStart(f) =>
      if f in s.failers then None
      else
        Some(s.(failers := s.failers[f := Failer(InOrder(s.pending, s.nextId), false)],
                pending := {}, cleared := s.cleared + s.pending))
    case FailResult(f) =>
      if f !in s.failers || s.failers[f].rest == [] || s.failers[f].resultSet
         || s.failers[f].rest[0] !in s.entries then None
      else
        var id := s.failers[f].rest[0];
        Some(s.(entries := s.entries[id := s.entries[id].(result := Some(FailedAll))],
                failers := s.failers[f := s.failers[f].(resultSet := true)]))
    case FailEvent(f) =>
      if f !in s.failers || s.failers[f].rest == [] || !s.failers[f].resultSet
         || s.failers[f].rest[0] !in s.entries then None
      else
        var id := s.failers[f].rest[0];
        Some(s.(entries := s.entries[id := s.entries[id].(eventSet := true)],
                failers := s.failers[f := Failer(s.failers[f].rest[1..], false)]))
  }

  function Run(s: State, es: seq<Event>): Option<State>
  {
    if es == [] then Some(s)
    else
      match Run(s, es[..|es| - 1])
      case None => None
      case Some(t) => Step(t, es[|es| - 1])
  }

  // ---------------------------------------------------------------- code

  class McpSubprocess {
    var nextId: nat
    var pending: map<nat, Entry>

    constructor ()
      ensures nextId == 1 && pending == map[]
    {
      nextId, pending := 1, map[];
    }

    // `with self._pending_cv:` of _send_request, before the wire.
    method RegisterEntry() returns (id: nat)
      modifies this
      ensures id == old(nextId) && nextId == old(nextId) + 1
      ensures pending == old(pending)[id := Entry(None, false)]
    {
      id := nextId;
      nextId := nextId + 1;
      pending := pending[id := Entry(None, false)];
    }

    // `self._pending.pop(req_id, None)`
    method PopEntry(id: nat) returns (entry: Option<Entry>)
      modifies this
      ensures entry == old(Get(pending, id)) && pending == old(pending) - {id} && nextId == old(nextId)
    {
      entry := Get(pending, id);
      pending := pending - {id};
    }

    // The body of _read_loop for one line with an id.
    method Dispatch(id: nat, hasError: bool)
      modifies this
      ensures nextId == old(nextId)
      ensures pending == if id in old(pending) then old(pending)[id := Entry(Some(Line(id, hasError)), true)]
                         else old(pending)
    {
      if id in pending {
        pending := pending[id := Entry(Some(Line(id, hasError)), true)];
      }
    }

    // _fail_all_pending up to the end of its `with`.
    method TakeAll() returns (items: map<nat, Entry>)
      modifies this
      ensures items == old(pending) && pending == map[] && nextId == old(nextId)
    {
      items := pending;
      pending := map[];
    }
  }

  /** What the lock-protected fields of the object hold in a state. */
  function Fields(s: State): (nat, map<nat, Entry>)
  {
    (s.nextId, map id | id in s.pending && id in s.entries :: s.entries[id])
  }

  // ---------------------------------------------------------------- invariant

  /** Every registered id is pending, popped by its caller, or cleared. */
  ghost predicate IdInv(s: State)
  {
    && s.nextId >= 1
    && (forall id {:trigger id in s.entries} :: id in s.entries <==> 1 <= id < s.nextId)
    && s.pending + s.popped + s.cleared == s.entries.Keys
    && s.pending !! s.popped && s.pending !! s.cleared && s.popped !! s.cleared
    && s.written <= s.entries.Keys
  }

  ghost predicate CallerOk(s: State, p: Caller)
  {
    && p.id in s.entries
    && (p.Registered? || p.Written? || p.Awake? ==> p.id !in s.popped)
    && (p.Written? || p.Awake? || p.Popped? || p.Returned? ==> p.id in s.written)
    && (p.Popped? ==> (p.found <==> p.id in s.popped) && p.id !in s.pending)
    && (p.Returned? ==> p.message == Line(p.id, false) && p.id in s.popped)
    && (p.Raised? ==>
          && (p.failure.SendFailed? ==> p.id !in s.popped && p.id !in s.written)
          && (p.failure.RpcError? ==> p.id in s.popped)
          && (p.failure.TimeoutText? ==> p.id !in s.pending))
    && (p.Registered? ==> p.id !in s.written)
  }

  ghost predicate CallersDistinct(s: State)
  {
    forall c, d :: c in s.callers && d in s.callers && c != d ==> s.callers[c].id != s.callers[d].id
  }

  ghost predicate CallerInv(s: State)
  {
    CallersDistinct(s) && forall c :: c in s.callers ==> CallerOk(s, s.callers[c])
  }

  ghost predicate EntryOk(s: State, id: nat, entry: Entry)
  {
    match entry.result
    case None => true
    case Some(Line(i, _)) => i == id && entry.eventSet
    case Some(FailedAll) => id in s.cleared
  }

  ghost predicate EntryInv(s: State)
  {
    forall id :: id in s.entries ==> EntryOk(s, id, s.entries[id])
  }

  /** A fail-all call still has this entry to finish. */
  ghost predicate InHand(s: State, id: nat)
  {
    exists f :: f in s.failers && id in s.failers[f].rest
  }

  /** Whatever fail-all took from the map has its event set, or will have it from
      a call still at work. */
  ghost predicate FailInv(s: State)
  {
    && (forall f, id :: f in s.failers && id in s.failers[f].rest ==> id in s.cleared)
    && forall id :: id in s.cleared && id in s.entries ==> s.entries[id].eventSet || InHand(s, id)
  }

  ghost predicate Inv(s: State)
  {
    IdInv(s) && CallerInv(s) && EntryInv(s) && FailInv(s)
  }

  lemma {:induction false} InOrderIff(ids: set<nat>, n: nat)
    ensures forall id :: id in InOrder(ids, n) <==> id in ids && id < n
  {
    if n > 0 {
      InOrderIff(ids, n - 1);
    }
  }

  lemma RegisterKeepsInv(s: State, c: nat)
    requires Inv(s) && c !in s.callers
    ensures Inv(Step(s, Register(c)).value)
  {
    var t := Step(s, Register(c)).value;
    var n := s.nextId;
    assert n !in s.entries && n !in s.pending + s.popped + s.cleared;
    assert t.entries.Keys == s.entries.Keys + {n};
    assert IdInv(t);
    forall d | d in s.callers ensures CallerOk(t, t.callers[d]) && s.callers[d].id != n {
      assert CallerOk(s, s.callers[d]);
    }
    forall id | id in s.entries ensures EntryOk(t, id, t.entries[id]) {
      assert EntryOk(s, id, s.entries[id]);
    }
    forall id | id in t.cleared && id in t.entries ensures t.entries[id].eventSet || InHand(t, id) {
      assert InHand(s, id) ==> InHand(t, id);
    }
  }

  /** One caller moves on; the entries and the failers stay. */
  lemma CallerKeepsInv(s: State, c: nat, t: State)
    requires Inv(s) && c in s.callers && t.callers.Keys == s.callers.Keys
    requires forall d :: d in s.callers && d != c ==> t.callers[d] == s.callers[d]
    requires t.callers[c].id == s.callers[c].id && CallerOk(t, t.callers[c])
    requires t.nextId == s.nextId && t.entries == s.entries && t.failers == s.failers && t.cleared == s.cleared
    requires IdInv(t) && s.written <= t.written <= s.written + {s.callers[c].id}
    requires s.popped <= t.popped <= s.popped + {s.callers[c].id} && t.pending <= s.pending
    ensures Inv(t)
  {
    forall d | d in t.callers && d != c ensures CallerOk(t, t.callers[d]) {
      assert CallerOk(s, s.callers[d]) && s.callers[d].id != s.callers[c].id;
    }
    forall id | id in s.entries ensures EntryOk(t, id, t.entries[id]) {
      assert EntryOk(s, id, s.entries[id]);
    }
    forall id | id in t.cleared && id in t.entries ensures t.entries[id].eventSet || InHand(t, id) {
      assert InHand(s, id) ==> InHand(t, id);
    }
  }

  lemma CallerStepKeepsInv(s: State, e: Event)
    requires Inv(s) && Step(s, e).Some? && (e.Write? || e.Wake? || e.Pop? || e.Finish?)
    ensures Inv(Step(s, e).value)
  {
    var t := Step(s, e).value;
    var p := s.callers[e.caller];
    assert CallerOk(s, p) && EntryOk(s, p.id, s.entries[p.id]);
    CallerKeepsInv(s, e.caller, t);
  }

  lemma ReadKeepsInv(s: State, id: nat, hasError: bool)
    requires Inv(s)
    ensures Inv(Step(s, Read(id, hasError)).value)
  {
    var t := Step(s, Read(id, hasError)).value;
    forall d | d in s.callers ensures CallerOk(t, t.callers[d]) {
      assert CallerOk(s, s.callers[d]);
    }
    forall i | i in s.entries ensures EntryOk(t, i, t.entries[i]) {
      assert EntryOk(s, i, s.entries[i]);
    }
    forall i | i in t.cleared && i in t.entries ensures t.entries[i].eventSet || InHand(t, i) {
      assert InHand(s, i) ==> InHand(t, i);
    }
  }

  lemma FailStartKeepsInv(s: State, f: nat)
    requires Inv(s) && f !in s.failers
    ensures Inv(Step(s, FailStart(f)).value)
  {
    var t := Step(s, FailStart(f)).value;
    InOrderIff(s.pending, s.nextId);
    forall d | d in s.callers ensures CallerOk(t, t.callers[d]) {
      assert CallerOk(s, s.callers[d]);
    }
    forall i | i in s.entries ensures EntryOk(t, i, t.entries[i]) {
      assert EntryOk(s, i, s.entries[i]);
    }
    forall i | i in t.cleared && i in t.entries ensures t.entries[i].eventSet || InHand(t, i) {
      if i in s.pending {
        assert i in t.failers[f].rest;
      } else if InHand(s, i) {
        var g :| g in s.failers && i in s.failers[g].rest;
        assert g in t.failers && i in t.failers[g].rest;
      }
    }
  }

  lemma FailOneKeepsInv(s: State, e: Event)
    requires Inv(s) && Step(s, e).Some? && (e.FailResult? || e.FailEvent?)
    ensures Inv(Step(s, e).value)
  {
    var t := Step(s, e).value;
    var id := s.failers[e.failer].rest[0];
    assert id in s.cleared;
    assert t.entries.Keys == s.entries.Keys;
    forall d | d in s.callers ensures CallerOk(t, t.callers[d]) {
      assert CallerOk(s, s.callers[d]);
    }
    forall i | i in s.entries ensures EntryOk(t, i, t.entries[i]) {
      assert EntryOk(s, i, s.entries[i]);
    }
    forall i | i in t.cleared && i in t.entries ensures t.entries[i].eventSet || InHand(t, i) {
      if InHand(s, i) {
        var g :| g in s.failers && i in s.failers[g].rest;
        assert g != e.failer || i == id || i in s.failers[g].rest[1..];
        assert !t.entries[i].eventSet ==> g in t.failers && i in t.failers[g].rest;
      }
    }
  }

  lemma StepKeepsInv(s: State, e: Event)
    requires Inv(s) && Step(s, e).Some?
    ensures Inv(Step(s, e).value)
  {
    match e
    case Register(c) => RegisterKeepsInv(s, c);
    case Read(id, hasError) => ReadKeepsInv(s, id, hasError);
    case FailStart(f) => FailStartKeepsInv(s, f);
    case FailResult(_) => FailOneKeepsInv(s, e);
    case FailEvent(_) => FailOneKeepsInv(s, e);
    case _ => CallerStepKeepsInv(s, e);
  }

  lemma {:induction false} ReachableInv(es: seq<Event>)
    requires Run(INITIAL, es).Some?
    ensures Inv(Run(INITIAL, es).value)
    decreases |es|
  {
    if es != [] {
      ReachableInv(es[..|es| - 1]);
      StepKeepsInv(Run(INITIAL, es[..|es| - 1]).value, es[|es| - 1]);
    }
  }

  // ---------------------------------------------------------------- theorems

  /** Register before send: when a response to a request that is on the wire is
      read, its entry is there, takes it and wakes the caller, unless that caller
      has popped it already or a fail-all has cleared it. */
  lemma ResponseFindsEntry(es: seq<Event>, id: nat, hasError: bool)
    requires Run(INITIAL, es).Some? && id in Run(INITIAL, es).value.written
    ensures var s := Run(INITIAL, es).value; var t := Step(s, Read(id, hasError)).value;
            if id in s.pending then t.entries[id] == Entry(Some(Line(id, hasError)), true)
            else t == s && (id in s.popped || id in s.cleared)
  {
    ReachableInv(es);
  }

  /** A call returns normally only with an error-free message carrying its own
      id; two calls never share an id. */
  lemma ReturnsOwnResponse(es: seq<Event>, c: nat, d: nat)
    requires Run(INITIAL, es).Some?
    requires c in Run(INITIAL, es).value.callers && d in Run(INITIAL, es).value.callers
    ensures var s := Run(INITIAL, es).value;
            && (s.callers[c].Returned? ==> s.callers[c].message == Line(s.callers[c].id, false))
            && (c != d ==> s.callers[c].id != s.callers[d].id)
  {
    ReachableInv(es);
    assert CallerOk(Run(INITIAL, es).value, Run(INITIAL, es).value.callers[c]);
  }

  /** Everything fail-all removed from the map has its event set once the
      fail-all calls have run to their end, so nobody waits out a timeout. */
  lemma FailAllWakesEveryone(es: seq<Event>, id: nat)
    requires Run(INITIAL, es).Some?
    requires var s := Run(INITIAL, es).value;
             id in s.cleared && forall f :: f in s.failers ==> s.failers[f].rest == []
    ensures var s := Run(INITIAL, es).value; id in s.entries && s.entries[id].eventSet
  {
    ReachableInv(es);
    assert !InHand(Run(INITIAL, es).value, id);
  }

  /** A caller whose entry was cleared before it popped it reports a timeout,
      never the fail-all error: that text reaches nobody. */
  lemma ClearedReportsTimeout(es: seq<Event>, c: nat)
    requires Run(INITIAL, es).Some? && c in Run(INITIAL, es).value.callers
    requires Run(INITIAL, es).value.callers[c].id in Run(INITIAL, es).value.cleared
    ensures var p := Run(INITIAL, es).value.callers[c];
            && !p.Returned? && (p.Popped? ==> !p.found)
            && (p.Raised? ==> p.failure == TimeoutText || p.failure == SendFailed)
  {
    ReachableInv(es);
    assert CallerOk(Run(INITIAL, es).value, Run(INITIAL, es).value.callers[c]);
  }

  /** When every call has ended, an entry is left in the map exactly if its write
      failed and no fail-all has come by since. */
  lemma LeftoverIff(es: seq<Event>, c: nat)
    requires Run(INITIAL, es).Some? && c in Run(INITIAL, es).value.callers
    requires var p := Run(INITIAL, es).value.callers[c]; p.Returned? || p.Raised?
    ensures var s := Run(INITIAL, es).value; var p := s.callers[c];
            p.id in s.pending <==> p.Raised? && p.failure.SendFailed? && p.id !in s.cleared
  {
    ReachableInv(es);
    assert CallerOk(Run(INITIAL, es).value, Run(INITIAL, es).value.callers[c]);
  }

  /** The lock-protected code does to the object's fields what the steps do to
      the state: registering, popping, dispatching and clearing change them as
      the methods say, and the rest of fail-all, outside the lock, does not. */
  lemma FieldsFollowCode(s: State, e: Event)
    requires Inv(s) && Step(s, e).Some?
    ensures var f, g := Fields(s), Fields(Step(s, e).value);
            match e
            case Register(_) => g.0 == f.0 + 1 && g.1 == f.1[f.0 := Entry(None, false)]
            case Pop(c) => g.0 == f.0 && g.1 == f.1 - {s.callers[c].id}
            case Read(id, hasError) =>
              g.0 == f.0 && g.1 == if id in f.1 then f.1[id := Entry(Some(Line(id, hasError)), true)] else f.1
            case FailStart(_) => g.0 == f.0 && g.1 == map[]
            case _ => g == f
  {
    match e
    case FailResult(_) => FailAllOutsideLock(s, e);
    case FailEvent(_) => FailAllOutsideLock(s, e);
    case Write(_, _) => assert Fields(Step(s, e).value).1 == Fields(s).1;
    case Wake(_, _) => assert Fields(Step(s, e).value).1 == Fields(s).1;
    case Finish(_) => assert Fields(Step(s, e).value).1 == Fields(s).1;
    case _ =>
  }

  lemma FailAllOutsideLock(s: State, e: Event)
    requires Inv(s) && Step(s, e).Some? && (e.FailResult? || e.FailEvent?)
    ensures Fields(Step(s, e).value) == Fields(s)
  {
    var t := Step(s, e).value;
    assert s.failers[e.failer].rest[0] in s.cleared;
    assert forall id :: id in s.pending ==> t.entries[id] == s.entries[id];
    assert Fields(t).1 == Fields(s).1;
  }
}
