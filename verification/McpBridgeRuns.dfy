// hermes-plugin-src/bridge.py
//
// Whole runs of the bridge, read off the events alone: which id a call has, and
// how it ends.
module McpBridgeRuns {
  import opened Collections
  import opened McpBridge

  /** Ids are numbered from 1 in the order of the registrations. */
  function NextId(es: seq<Event>): nat
  {
    if es == [] then 1 else NextId(es[..|es| - 1]) + if es[|es| - 1].Register? then 1 else 0
  }

  /** Whether the last line read for the id carries an error. */
  function LastRead(es: seq<Event>, id: nat): Option<bool>
  {
    if es == [] then None
    else if es[|es| - 1].Read? && es[|es| - 1].id == id then Some(es[|es| - 1].hasError)
    else LastRead(es[..|es| - 1], id)
  }

  predicate FailedAllIn(es: seq<Event>)
  {
    exists i :: 0 <= i < |es| && es[i].FailStart?
  }

  /** Call c registers at r and has not popped its entry. */
  ghost predicate NotPopped(es: seq<Event>, c: nat, r: nat)
  {
    r < |es| && es[r] == Register(c) && forall i :: r < i < |es| ==> es[i] != Pop(c)
  }

  /** What the entry of a call says up to its pop: the last line read for its id,
      unless a fail-all has taken it. */
  ghost predicate EntrySays(s: State, id: nat, since: seq<Event>)
  {
    if FailedAllIn(since) then id in s.cleared
    else
      && id in s.pending && id in s.entries
      && s.entries[id].eventSet == LastRead(since, id).Some?
      && s.entries[id].result == match LastRead(since, id)
                                 case None => None
                                 case Some(hasError) => Some(Line(id, hasError))
  }

  lemma {:induction false} NextIdFollows(es: seq<Event>)
    requires Run(INITIAL, es).Some?
    ensures Run(INITIAL, es).value.nextId == NextId(es)
    decreases |es|
  {
    if es != [] {
      NextIdFollows(es[..|es| - 1]);
    }
  }

  lemma SinceSnoc(since: seq<Event>, e: Event, id: nat)
    ensures FailedAllIn(since + [e]) <==> FailedAllIn(since) || e.FailStart?
    ensures LastRead(since + [e], id) == if e.Read? && e.id == id then Some(e.hasError) else LastRead(since, id)
  {
    assert (since + [e])[..|since|] == since;
    assert e.FailStart? ==> (since + [e])[|since|].FailStart?;
    assert forall i :: 0 <= i < |since| ==> (since + [e])[i] == since[i];
  }

  lemma ClearedStays(s: State, e: Event, id: nat)
    requires Step(s, e).Some? && id in s.cleared
    ensures id in Step(s, e).value.cleared
  {
  }

  lemma EntryStays(s: State, e: Event, c: nat)
    requires Inv(s) && Step(s, e).Some? && c in s.callers && e != Pop(c) && !e.FailStart?
    requires s.callers[c].id in s.pending && !(e.Read? && e.id == s.callers[c].id)
    ensures var t, id := Step(s, e).value, s.callers[c].id;
            id in t.pending && id in s.entries && id in t.entries && t.entries[id] == s.entries[id]
  {
    if e.FailResult? || e.FailEvent? {
      assert s.failers[e.failer].rest[0] in s.cleared;
    }
  }

  lemma ReadFills(s: State, e: Event, id: nat)
    requires Inv(s) && Step(s, e).Some? && id in s.pending && e.Read? && e.id == id
    ensures var t := Step(s, e).value;
            id in t.pending && id in t.entries && t.entries[id] == Entry(Some(Line(id, e.hasError)), true)
  {
  }

  lemma StepEntry(s: State, e: Event, c: nat, since: seq<Event>)
    requires Inv(s) && Step(s, e).Some? && c in s.callers && e != Pop(c)
    requires EntrySays(s, s.callers[c].id, since)
    ensures EntrySays(Step(s, e).value, s.callers[c].id, since + [e])
  {
    var id := s.callers[c].id;
    SinceSnoc(since, e, id);
    if FailedAllIn(since) {
      ClearedStays(s, e, id);
    } else if e.Read? && e.id == id {
      ReadFills(s, e, id);
    } else if !e.FailStart? {
      EntryStays(s, e, c);
    }
  }

  /** A call that has not popped its entry: under way, or its write failed. */
  ghost predicate IsWaiting(s: State, c: nat, id: nat)
  {
    && c in s.callers && s.callers[c].id == id
    && !s.callers[c].Popped? && !s.callers[c].Returned?
    && (s.callers[c].Raised? ==> s.callers[c].failure == SendFailed)
  }

  lemma StepWaits(s: State, e: Event, c: nat, id: nat)
    requires Step(s, e).Some? && IsWaiting(s, c, id) && e != Pop(c)
    ensures IsWaiting(Step(s, e).value, c, id)
  {
  }

  lemma RegisterWaits(s: State, c: nat)
    requires Inv(s) && Step(s, Register(c)).Some?
    ensures var t := Step(s, Register(c)).value;
            IsWaiting(t, c, s.nextId) && EntrySays(t, s.nextId, [])
  {
  }

  ghost predicate Waits(s: State, c: nat, id: nat, since: seq<Event>)
  {
    IsWaiting(s, c, id) && EntrySays(s, id, since)
  }

  lemma Registers(es: seq<Event>, c: nat)
    requires Run(INITIAL, es).Some? && Step(Run(INITIAL, es).value, Register(c)).Some?
    ensures Waits(Step(Run(INITIAL, es).value, Register(c)).value, c, NextId(es), [])
  {
    ReachableInv(es);
    NextIdFollows(es);
    RegisterWaits(Run(INITIAL, es).value, c);
  }

  lemma GoesOnWaiting(es: seq<Event>, e: Event, c: nat, id: nat, since: seq<Event>)
    requires Run(INITIAL, es).Some? && Step(Run(INITIAL, es).value, e).Some? && e != Pop(c)
    requires Waits(Run(INITIAL, es).value, c, id, since)
    ensures Waits(Step(Run(INITIAL, es).value, e).value, c, id, since + [e])
  {
    ReachableInv(es);
    StepWaits(Run(INITIAL, es).value, e, c, id);
    StepEntry(Run(INITIAL, es).value, e, c, since);
  }

  lemma {:induction false} WhileWaiting(es: seq<Event>, c: nat, r: nat)
    requires Run(INITIAL, es).Some? && NotPopped(es, c, r)
    ensures Waits(Run(INITIAL, es).value, c, NextId(es[..r]), es[r + 1..])
    decreases |es|
  {
    var n := |es| - 1;
    var before, e := es[..n], es[n];
    if r == n {
      Registers(before, c);
      assert es[r + 1..] == [];
    } else {
      assert before[..r] == es[..r] && es[r + 1..] == before[r + 1..] + [e];
      WhileWaiting(before, c, r);
      GoesOnWaiting(before, e, c, NextId(es[..r]), before[r + 1..]);
    }
  }

  /** How a call ends that registers at r and pops at p. */
  function Ending(es: seq<Event>, r: nat, p: nat): Caller
    requires r < p <= |es|
  {
    var id, since := NextId(es[..r]), es[r + 1..p];
    if FailedAllIn(since) then Raised(id, TimeoutText)
    else
      match LastRead(since, id)
      case None => Raised(id, TimeoutText)
      case Some(hasError) => if hasError then Raised(id, RpcError) else Returned(id, Line(id, false))
  }

  /** Popped, and the entry in hand as it was then; or ended. */
  ghost predicate EndsAs(s: State, c: nat, ending: Caller)
  {
    c in s.callers &&
    match s.callers[c]
    case Popped(id, found) =>
      id in s.entries && Outcome(id, found, s.entries[id]) == ending && (found ==> id in s.popped)
    case _ => s.callers[c] == ending && (ending.Returned? || ending.Raised?)
  }

  lemma PopEnds(s: State, c: nat, since: seq<Event>, ending: Caller)
    requires Inv(s) && Step(s, Pop(c)).Some?
    requires EntrySays(s, s.callers[c].id, since)
    requires ending == var id := s.callers[c].id;
                       if FailedAllIn(since) || LastRead(since, id).None? then Raised(id, TimeoutText)
                       else if LastRead(since, id).value then Raised(id, RpcError)
                       else Returned(id, Line(id, false))
    ensures EndsAs(Step(s, Pop(c)).value, c, ending)
  {
    assert CallerOk(s, s.callers[c]);
  }

  lemma StaysEnded(s: State, e: Event, c: nat, ending: Caller)
    requires Inv(s) && Step(s, e).Some? && EndsAs(s, c, ending)
    ensures EndsAs(Step(s, e).value, c, ending)
  {
    assert CallerOk(s, s.callers[c]);
  }

  lemma {:induction false} AfterPop(es: seq<Event>, c: nat, r: nat, p: nat)
    requires Run(INITIAL, es).Some? && r < p < |es| && es[p] == Pop(c) && NotPopped(es[..p], c, r)
    ensures EndsAs(Run(INITIAL, es).value, c, Ending(es, r, p))
    decreases |es|
  {
    var n := |es| - 1;
    var before := es[..n];
    if p == n {
      WhileWaiting(before, c, r);
      assert before[..r] == es[..r] && before[r + 1..] == es[r + 1..p];
      PopsNow(before, c, es[r + 1..p], Ending(es, r, p));
    } else {
      assert before[..p] == es[..p] && before[..r] == es[..r] && before[r + 1..p] == es[r + 1..p];
      AfterPop(before, c, r, p);
      GoesOnEnded(before, es[n], c, Ending(es, r, p));
    }
  }

  lemma PopsNow(es: seq<Event>, c: nat, since: seq<Event>, ending: Caller)
    requires Run(INITIAL, es).Some? && Step(Run(INITIAL, es).value, Pop(c)).Some?
    requires EntrySays(Run(INITIAL, es).value, Run(INITIAL, es).value.callers[c].id, since)
    requires ending == var id := Run(INITIAL, es).value.callers[c].id;
                       if FailedAllIn(since) || LastRead(since, id).None? then Raised(id, TimeoutText)
                       else if LastRead(since, id).value then Raised(id, RpcError)
                       else Returned(id, Line(id, false))
    ensures EndsAs(Step(Run(INITIAL, es).value, Pop(c)).value, c, ending)
  {
    ReachableInv(es);
    PopEnds(Run(INITIAL, es).value, c, since, ending);
  }

  lemma GoesOnEnded(es: seq<Event>, e: Event, c: nat, ending: Caller)
    requires Run(INITIAL, es).Some? && Step(Run(INITIAL, es).value, e).Some?
    requires EndsAs(Run(INITIAL, es).value, c, ending)
    ensures EndsAs(Step(Run(INITIAL, es).value, e).value, c, ending)
  {
    ReachableInv(es);
    StaysEnded(Run(INITIAL, es).value, e, c, ending);
  }

  lemma EndedPopsNoMore(s: State, c: nat, ending: Caller, e: Event)
    requires EndsAs(s, c, ending) && Step(s, e).Some?
    ensures e != Pop(c)
  {
  }

  lemma PopsNoMore(es: seq<Event>, c: nat, r: nat, p: nat, e: Event)
    requires Run(INITIAL, es).Some? && Step(Run(INITIAL, es).value, e).Some?
    requires r < p < |es| && es[p] == Pop(c) && NotPopped(es[..p], c, r)
    ensures e != Pop(c)
  {
    AfterPop(es, c, r, p);
    EndedPopsNoMore(Run(INITIAL, es).value, c, Ending(es, r, p), e);
  }

  /** Every call registers once, and pops its entry at most once. */
  lemma {:induction false} CallHistory(es: seq<Event>, c: nat) returns (r: nat, p: Option<nat>)
    requires Run(INITIAL, es).Some? && c in Run(INITIAL, es).value.callers
    ensures r < |es| && es[r] == Register(c) && forall i :: 0 <= i < |es| && i != r ==> es[i] != Register(c)
    ensures forall i :: 0 <= i < r ==> es[i] != Pop(c)
    ensures p.None? ==> NotPopped(es, c, r)
    ensures p.Some? ==> r < p.value < |es| && es[p.value] == Pop(c) && NotPopped(es[..p.value], c, r)
    ensures p.Some? ==> forall i :: 0 <= i < |es| && i != p.value ==> es[i] != Pop(c)
    decreases |es|
  {
    var n := |es| - 1;
    var before, e := es[..n], es[n];
    if e == Register(c) {
      NoHistory(before, c);
      r, p := n, None;
    } else {
      r, p := CallHistory(before, c);
      if p.Some? {
        PopsNoMore(before, c, r, p.value, e);
        assert before[..p.value] == es[..p.value];
      } else if e == Pop(c) {
        p := Some(n);
      }
    }
  }

  lemma {:induction false} NoHistory(es: seq<Event>, c: nat)
    requires Run(INITIAL, es).Some? && c !in Run(INITIAL, es).value.callers
    ensures forall i :: 0 <= i < |es| ==> es[i] != Register(c) && es[i] != Pop(c)
    decreases |es|
  {
    if es != [] {
      StrangerStays(Run(INITIAL, es[..|es| - 1]).value, es[|es| - 1], c);
      NoHistory(es[..|es| - 1], c);
    }
  }

  /** A call whose write went through ends as the lines read between its
      registration and its pop say: in a timeout if none carried its id, or a
      fail-all came first; else as the last of them says. */
  lemma HowCallsEnd(es: seq<Event>, c: nat) returns (r: nat, p: nat)
    requires Run(INITIAL, es).Some? && c in Run(INITIAL, es).value.callers
    requires var end := Run(INITIAL, es).value.callers[c];
             end.Returned? || (end.Raised? && end.failure != SendFailed)
    ensures r < p < |es| && es[r] == Register(c) && es[p] == Pop(c)
    ensures Run(INITIAL, es).value.callers[c] == Ending(es, r, p)
  {
    var pop;
    r, pop := CallHistory(es, c);
    if pop.None? {
      WhileWaiting(es, c, r);
      assert false;
    }
    p := pop.value;
    AfterPop(es, c, r, p);
  }

  /** And it raises the error of its write exactly if the write failed. */
  lemma {:induction false} SendFailedIff(es: seq<Event>, c: nat)
    requires Run(INITIAL, es).Some? && c in Run(INITIAL, es).value.callers
    ensures var end := Run(INITIAL, es).value.callers[c];
            end.Raised? && end.failure == SendFailed <==> Write(c, false) in es
    decreases |es|
  {
    var n := |es| - 1;
    var before, e := es[..n], es[n];
    assert es == before + [e];
    if e == Register(c) {
      NoWrites(before, c);
    } else {
      SendFailedIff(before, c);
    }
  }

  /** Only its registration makes a call known. */
  lemma StrangerStays(s: State, e: Event, c: nat)
    requires Step(s, e).Some? && c !in Step(s, e).value.callers
    ensures c !in s.callers && e != Write(c, false) && e != Register(c) && e != Pop(c)
  {
  }

  lemma {:induction false} NoWrites(es: seq<Event>, c: nat)
    requires Run(INITIAL, es).Some? && c !in Run(INITIAL, es).value.callers
    ensures Write(c, false) !in es
    decreases |es|
  {
    if es != [] {
      var before, e := es[..|es| - 1], es[|es| - 1];
      StrangerStays(Run(INITIAL, before).value, e, c);
      NoWrites(before, c);
      assert es == before + [e];
    }
  }

  /** A caller that has written and waits is let go, its timeout aside, as soon as
      and only if its answer has been read (as long as no fail-all comes by). */
  lemma WakesIff(es: seq<Event>, c: nat, r: nat)
    requires Run(INITIAL, es).Some? && NotPopped(es, c, r) && !FailedAllIn(es[r + 1..])
    requires c in Run(INITIAL, es).value.callers && Run(INITIAL, es).value.callers[c].Written?
    ensures Step(Run(INITIAL, es).value, Wake(c, false)).Some? <==> LastRead(es[r + 1..], NextId(es[..r])).Some?
  {
    WhileWaiting(es, c, r);
  }

  /** In every run a call that has not ended can go on: its write may go either way,
      its wait may time out, and behind that nothing holds it up. */
  lemma CallsCanGoOn(es: seq<Event>, c: nat)
    requires Run(INITIAL, es).Some? && c in Run(INITIAL, es).value.callers
    ensures var s := Run(INITIAL, es).value;
            match s.callers[c]
            case Registered(_) => Step(s, Write(c, true)).Some? && Step(s, Write(c, false)).Some?
            case Written(_) => Step(s, Wake(c, true)).Some?
            case Awake(_) => Step(s, Pop(c)).Some?
            case Popped(_, _) => Step(s, Finish(c)).Some?
            case Returned(_, _) => true
            case Raised(_, _) => true
  {
    ReachableInv(es);
    assert CallerOk(Run(INITIAL, es).value, Run(INITIAL, es).value.callers[c]);
  }
}
