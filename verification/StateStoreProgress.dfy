// shared/state-store/src/store.ts
//
// That updates get through: what became of every call, the way an undisturbed one
// takes, and what the file means as a value.
module StateStoreProgress {
  import opened Collections
  import opened StateStore
  import opened StateStoreRuns

  // ---------------------------------------------------------------- every call accounted for

  /** How often a rename of this updater has been refused. */
  function Refusals<Op>(es: seq<Event<Op>>, id: nat): nat
  {
    if es == [] then 0
    else
      var last := es[|es| - 1];
      Refusals(es[..|es| - 1], id) + if last.RenameFails? && last.id == id then 1 else 0
  }

  /** The lock timed out, a write failed, or the rename was refused for good. */
  ghost predicate Failed<Op>(es: seq<Event<Op>>, id: nat)
  {
    || (exists i :: 0 <= i < |es| && FailureOf(es[i], id))
    || Refusals(es, id) >= RENAME_MAX_ATTEMPTS
  }

  predicate FailureOf<Op>(e: Event<Op>, id: nat)
  {
    match e
    case LockTimesOut(i) => i == id
    case WriteFails(i) => i == id
    case RenameFails(i, retryable) => i == id && !retryable
    case _ => false
  }

  /** The operation cannot be applied to what the file held at some moment: reading,
      mutating or validating throws. */
  ghost predicate RefusedSomewhere<V, Op>(cfg: Config<V, Op>, s: State<V, Op>, op: Op)
  {
    exists n :: 0 <= n <= |s.committed| && RefusedAt(cfg, s, op, n)
  }

  ghost predicate RefusedAt<V, Op>(cfg: Config<V, Op>, s: State<V, Op>, op: Op, n: nat)
    requires n <= |s.committed|
  {
    Update(cfg, Fold(cfg, s.base, s.committed[..n]), op).None?
  }

  ghost predicate Accounted<V, Op>(cfg: Config<V, Op>, s: State<V, Op>, es: seq<Event<Op>>, id: nat)
    requires id in s.updaters
  {
    var u := s.updaters[id];
    match u.pc
    case Releasing => id in s.committers || Failed(es, id) || RefusedSomewhere(cfg, s, u.op)
    case Finished => id in s.committers || Failed(es, id) || RefusedSomewhere(cfg, s, u.op)
    case Renaming(_, attempt) => Refusals(es, id) + 1 == attempt
    case Dead(_) => true
    case _ => Refusals(es, id) == 0
  }

  lemma FailedGrows<Op>(es: seq<Event<Op>>, e: Event<Op>, id: nat)
    ensures Failed(es, id) || FailureOf(e, id) ==> Failed(es + [e], id)
    ensures Refusals(es + [e], id) == Refusals(es, id) + if e.RenameFails? && e.id == id then 1 else 0
  {
    var all := es + [e];
    assert all[..|es|] == es;
    assert FailureOf(e, id) ==> FailureOf(all[|es|], id);
    forall i | 0 <= i < |es| && FailureOf(es[i], id) ensures FailureOf(all[i], id) {}
  }

  lemma RefusedStays<V, Op>(cfg: Config<V, Op>, s: State<V, Op>, t: State<V, Op>, op: Op)
    requires RefusedSomewhere(cfg, s, op) && t.base == s.base && s.committed <= t.committed
    ensures RefusedSomewhere(cfg, t, op)
  {
    var n :| 0 <= n <= |s.committed| && RefusedAt(cfg, s, op, n);
    assert t.committed[..n] == s.committed[..n];
    assert RefusedAt(cfg, t, op, n);
  }

  lemma RefusedNow<V, Op>(cfg: Config<V, Op>, s: State<V, Op>, t: State<V, Op>, op: Op)
    requires Inv(cfg, s) && Update(cfg, s.file.value, op).None?
    requires t.base == s.base && t.committed == s.committed
    ensures RefusedSomewhere(cfg, t, op)
  {
    PrefixAll(s.committed);
    assert RefusedAt(cfg, t, op, |s.committed|);
  }

  /** An updater that does not move stays accounted for. */
  lemma OthersStay<V, Op>(cfg: Config<V, Op>, s: State<V, Op>, t: State<V, Op>, es: seq<Event<Op>>, e: Event<Op>,
                          id: nat)
    requires id in s.updaters && Accounted(cfg, s, es, id) && !(e.RenameFails? && e.id == id)
    requires id in t.updaters && t.updaters[id] == s.updaters[id]
    requires t.base == s.base && s.committed <= t.committed && s.committers <= t.committers
    ensures Accounted(cfg, t, es + [e], id)
  {
    FailedGrows(es, e, id);
    if RefusedSomewhere(cfg, s, s.updaters[id].op) { RefusedStays(cfg, s, t, s.updaters[id].op); }
  }

  lemma OneMoves<V, Op>(cfg: Config<V, Op>, s: State<V, Op>, es: seq<Event<Op>>, e: Event<Op>)
    requires Inv(cfg, s) && Step(cfg, s, e).Some? && !e.Call? && !e.TakeOverStaleLock?
    requires e.id in s.updaters && Accounted(cfg, s, es, e.id)
    ensures e.id in Step(cfg, s, e).value.updaters && Accounted(cfg, Step(cfg, s, e).value, es + [e], e.id)
  {
    var t := Step(cfg, s, e).value;
    var u := s.updaters[e.id];
    assert t == UpdaterStep(cfg, s, e, u).value;
    assert Knows(cfg, s, u);
    FailedGrows(es, e, e.id);
    if e.Read? || e.Mutate? {
      if t.updaters[e.id].pc.Releasing? { RefusedNow(cfg, s, t, u.op); }
    } else if e.Release? {
      if RefusedSomewhere(cfg, s, u.op) { RefusedStays(cfg, s, t, u.op); }
    }
  }

  /** Only its call makes an updater known. */
  lemma StrangerStays<V, Op>(cfg: Config<V, Op>, s: State<V, Op>, e: Event<Op>, id: nat)
    requires Step(cfg, s, e).Some? && id !in Step(cfg, s, e).value.updaters
    ensures id !in s.updaters && !(e.RenameFails? && e.id == id)
  {
  }

  lemma {:induction false} NotCalled<V, Op>(cfg: Config<V, Op>, base: string, es: seq<Event<Op>>, id: nat)
    requires Reachable(cfg, base, es) && id !in After(cfg, base, es).updaters
    ensures Refusals(es, id) == 0
    decreases |es|
  {
    if es != [] {
      StrangerStays(cfg, After(cfg, base, es[..|es| - 1]), es[|es| - 1], id);
      NotCalled(cfg, base, es[..|es| - 1], id);
    }
  }

  lemma CallIsAccounted<V, Op>(cfg: Config<V, Op>, base: string, es: seq<Event<Op>>, e: Event<Op>)
    requires Reachable(cfg, base, es) && e.Call? && Step(cfg, After(cfg, base, es), e).Some?
    ensures Accounted(cfg, Step(cfg, After(cfg, base, es), e).value, es + [e], e.id)
  {
    NotCalled(cfg, base, es, e.id);
    FailedGrows(es, e, e.id);
  }

  lemma StepAccounts<V, Op>(cfg: Config<V, Op>, base: string, es: seq<Event<Op>>, e: Event<Op>, id: nat)
    requires Reachable(cfg, base, es) && Step(cfg, After(cfg, base, es), e).Some?
    requires id in Step(cfg, After(cfg, base, es), e).value.updaters
    requires id in After(cfg, base, es).updaters ==> Accounted(cfg, After(cfg, base, es), es, id)
    ensures Accounted(cfg, Step(cfg, After(cfg, base, es), e).value, es + [e], id)
  {
    var s, t := After(cfg, base, es), Step(cfg, After(cfg, base, es), e).value;
    RunKeepsInv(cfg, base, es);
    if e.TakeOverStaleLock? {
      if id != s.lock.value { OthersStay(cfg, s, t, es, e, id); }
    } else if e.Call? {
      if id == e.id { CallIsAccounted(cfg, base, es, e); } else { OthersStay(cfg, s, t, es, e, id); }
    } else if id == e.id {
      OneMoves(cfg, s, es, e);
    } else {
      StaysPut(cfg, s, e, id);
      OthersStay(cfg, s, t, es, e, id);
    }
  }

  lemma StaysPut<V, Op>(cfg: Config<V, Op>, s: State<V, Op>, e: Event<Op>, id: nat)
    requires Inv(cfg, s) && Step(cfg, s, e).Some? && !e.Call? && !e.TakeOverStaleLock? && id != e.id
    requires id in Step(cfg, s, e).value.updaters
    ensures var t := Step(cfg, s, e).value;
            && id in s.updaters && t.updaters[id] == s.updaters[id]
            && t.base == s.base && s.committed <= t.committed && s.committers <= t.committers
  {
    assert Step(cfg, s, e) == UpdaterStep(cfg, s, e, s.updaters[e.id]);
  }

  /** In every run from a present file, an update call that has ended, unless its
      process died, has committed; or its lock timed out, a write failed or the rename
      was refused for good; or its operation could not be applied to what the file
      held. */
  lemma {:induction false} EveryCallAccounted<V, Op>(cfg: Config<V, Op>, base: string, es: seq<Event<Op>>, id: nat)
    requires Reachable(cfg, base, es) && id in After(cfg, base, es).updaters
    ensures Accounted(cfg, After(cfg, base, es), es, id)
    decreases |es|
  {
    var before, e := es[..|es| - 1], es[|es| - 1];
    assert es == before + [e];
    if id in After(cfg, base, before).updaters {
      EveryCallAccounted(cfg, base, before, id);
    }
    StepAccounts(cfg, base, before, e, id);
  }

  /** An updater that has not ended can go on, fail where the outside world lets it, or
      die; the lock it may wait for is free, or its holder can go on, or has died and
      can be relieved of it. */
  ghost predicate CanGoOn<V, Op>(cfg: Config<V, Op>, s: State<V, Op>, id: nat)
    requires id in s.updaters
  {
    var pc := s.updaters[id].pc;
    (Step(cfg, s, Crash(id)).Some? <==> !pc.Finished? && !pc.Dead?) && CanMove(cfg, s, id)
  }

  ghost predicate CanMove<V, Op>(cfg: Config<V, Op>, s: State<V, Op>, id: nat)
    requires id in s.updaters
  {
    match s.updaters[id].pc
    case Probing => Step(cfg, s, Probe(id)).Some?
    case WaitingForLock =>
      Step(cfg, s, LockTimesOut(id)).Some? && (Step(cfg, s, Acquire(id)).Some? <==> s.lock.None?)
    case Locked => Step(cfg, s, Read(id)).Some?
    case Mutating(_) => Step(cfg, s, Mutate(id)).Some?
    case Writing(text) => Step(cfg, s, WriteSome(id, |text|)).Some? && Step(cfg, s, WriteFails(id)).Some?
    case Renaming(_, _) =>
      Step(cfg, s, Rename(id)).Some? && forall again :: Step(cfg, s, RenameFails(id, again)).Some?
    case Releasing => Step(cfg, s, Release(id)).Some?
    case Dead(held) => held ==> s.lock == Some(id) && Step(cfg, s, TakeOverStaleLock).Some?
    case _ => true
  }

  lemma MayCrash<V, Op>(cfg: Config<V, Op>, s: State<V, Op>, id: nat)
    requires id in s.updaters
    ensures Step(cfg, s, Crash(id)).Some? <==> !s.updaters[id].pc.Finished? && !s.updaters[id].pc.Dead?
  {
  }

  lemma Moves<V, Op>(cfg: Config<V, Op>, s: State<V, Op>, id: nat)
    requires id in s.updaters
    requires s.updaters[id].pc.Renaming? ==> s.updaters[id].tmp in s.tmps
    requires s.updaters[id].pc == Dead(true) ==> s.lock == Some(id)
    ensures CanMove(cfg, s, id)
  {
  }

  lemma CallsCanGoOn<V, Op>(cfg: Config<V, Op>, base: string, es: seq<Event<Op>>, id: nat)
    requires Reachable(cfg, base, es) && id in After(cfg, base, es).updaters
    ensures CanGoOn(cfg, After(cfg, base, es), id)
  {
    RunKeepsInv(cfg, base, es);
    var s := After(cfg, base, es);
    assert Knows(cfg, s, s.updaters[id]);
    MayCrash(cfg, s, id);
    Moves(cfg, s, id);
  }

  // ---------------------------------------------------------------- an undisturbed update

  /** How far one updater has come, the rest being as in s. */
  ghost predicate Alone<V, Op>(s: State<V, Op>, t: State<V, Op>, id: nat, u: Updater<V, Op>, held: bool)
  {
    && id in t.updaters && t.updaters[id] == u
    && t.file == s.file && t.committed == s.committed && t.lock == if held then Some(id) else None
  }

  lemma Next<V, Op>(cfg: Config<V, Op>, base: string, es: seq<Event<Op>>, e: Event<Op>)
    requires Reachable(cfg, base, es) && Step(cfg, After(cfg, base, es), e).Some?
    ensures Reachable(cfg, base, es + [e])
    ensures After(cfg, base, es + [e]) == Step(cfg, After(cfg, base, es), e).value
  {
    RunStep(cfg, Start(base), es, e);
  }

  lemma TakesLock<V, Op>(cfg: Config<V, Op>, base: string, es: seq<Event<Op>>, id: nat, op: Op, tmp: string)
    returns (more: seq<Event<Op>>)
    requires Reachable(cfg, base, es)
    requires var s := After(cfg, base, es); s.file.Some? && s.lock.None? && id !in s.updaters
    ensures es <= more && Reachable(cfg, base, more)
    ensures Alone(After(cfg, base, es), After(cfg, base, more), id, Updater(op, tmp, Locked), true)
  {
    Next(cfg, base, es, Call(id, op, tmp));
    var called := es + [Call(id, op, tmp)];
    Next(cfg, base, called, Probe(id));
    var probed := called + [Event.Probe(id)];
    Next(cfg, base, probed, Acquire(id));
    more := probed + [Event.Acquire(id)];
  }

  lemma Prepares<V, Op>(cfg: Config<V, Op>, base: string, es: seq<Event<Op>>, s: State<V, Op>,
                        id: nat, op: Op, tmp: string, text: string) returns (more: seq<Event<Op>>)
    requires Reachable(cfg, base, es) && s.file.Some? && Update(cfg, s.file.value, op) == Some(text)
    requires Alone(s, After(cfg, base, es), id, Updater(op, tmp, Locked), true)
    ensures es <= more && Reachable(cfg, base, more)
    ensures Alone(s, After(cfg, base, more), id, Updater(op, tmp, Writing(text)), true)
  {
    Next(cfg, base, es, Read(id));
    var read := es + [Event.Read(id)];
    Next(cfg, base, read, Mutate(id));
    more := read + [Event.Mutate(id)];
  }

  lemma Writes<V, Op>(cfg: Config<V, Op>, base: string, es: seq<Event<Op>>, s: State<V, Op>,
                      id: nat, op: Op, tmp: string, text: string) returns (more: seq<Event<Op>>)
    requires Reachable(cfg, base, es) && Alone(s, After(cfg, base, es), id, Updater(op, tmp, Writing(text)), true)
    ensures es <= more && Reachable(cfg, base, more)
    ensures var t := After(cfg, base, more);
            Alone(s, t, id, Updater(op, tmp, Renaming(text, 1)), true) && Get(t.tmps, tmp) == Some(text)
  {
    Next(cfg, base, es, WriteSome(id, |text|));
    more := es + [Event.WriteSome(id, |text|)];
  }

  lemma Commits<V, Op>(cfg: Config<V, Op>, base: string, es: seq<Event<Op>>, s: State<V, Op>,
                       id: nat, op: Op, tmp: string, text: string) returns (more: seq<Event<Op>>)
    requires Reachable(cfg, base, es) && Get(After(cfg, base, es).tmps, tmp) == Some(text)
    requires Alone(s, After(cfg, base, es), id, Updater(op, tmp, Renaming(text, 1)), true)
    ensures es <= more && Reachable(cfg, base, more)
    ensures Done(s, After(cfg, base, more), id, op, text)
  {
    Next(cfg, base, es, Rename(id));
    var renamed := es + [Event.Rename(id)];
    Next(cfg, base, renamed, Release(id));
    more := renamed + [Event.Release(id)];
  }

  ghost predicate Done<V, Op>(s: State<V, Op>, t: State<V, Op>, id: nat, op: Op, text: string)
  {
    && id in t.updaters && t.updaters[id].pc == Finished
    && t.file == Some(text) && t.committed == s.committed + [op] && t.lock.None?
  }

  /** Whatever has happened before, as soon as the lock is free a new call can go
      through: the file then holds what its operation makes of it. */
  lemma UndisturbedCommits<V, Op>(cfg: Config<V, Op>, base: string, es: seq<Event<Op>>, id: nat, op: Op, tmp: string)
    returns (more: seq<Event<Op>>)
    requires Reachable(cfg, base, es)
    requires var s := After(cfg, base, es);
             && s.file.Some? && s.lock.None? && id !in s.updaters && Update(cfg, s.file.value, op).Some?
    ensures es <= more && Reachable(cfg, base, more)
    ensures var s := After(cfg, base, es);
            Done(s, After(cfg, base, more), id, op, Update(cfg, s.file.value, op).value)
  {
    var s := After(cfg, base, es);
    var text := Update(cfg, s.file.value, op).value;
    var locked := TakesLock(cfg, base, es, id, op, tmp);
    var ready := Prepares(cfg, base, locked, s, id, op, tmp, text);
    var written := Writes(cfg, base, ready, s, id, op, tmp, text);
    more := Commits(cfg, base, written, s, id, op, tmp, text);
  }

  // ---------------------------------------------------------------- values

  /** A mutator only ever gets a value that the schema let through. */
  lemma MutatorsGetValidated<V(!new), Op>(cfg: Config<V, Op>, base: string, es: seq<Event<Op>>, id: nat)
    requires Reachable(cfg, base, es)
    requires var us := After(cfg, base, es).updaters; id in us && us[id].pc.Mutating?
    ensures exists u :: cfg.schema(u) == Some(After(cfg, base, es).updaters[id].pc.current)
  {
    RunKeepsInv(cfg, base, es);
    var s := After(cfg, base, es);
    assert Knows(cfg, s, s.updaters[id]);
    assert cfg.schema(cfg.parse(s.file.value).value) == Some(s.updaters[id].pc.current);
  }

  /** What the schema has let through, it lets through unchanged. */
  ghost predicate SchemaSettles<V(!new), Op>(cfg: Config<V, Op>)
  {
    forall u, v :: cfg.schema(u) == Some(v) ==> cfg.schema(v) == Some(v)
  }

  /** The mutators applied to a value one after the other, each result validated. */
  function FoldValues<V, Op>(cfg: Config<V, Op>, start: V, ops: seq<Op>): Option<V>
  {
    if ops == [] then Some(start)
    else
      match FoldValues(cfg, start, ops[..|ops| - 1])
      case None => None
      case Some(v) =>
        match cfg.mutate(ops[|ops| - 1], v)
        case None => None
        case Some(next) => cfg.schema(next)
  }

  /** So what a reader gets after any run is the committed mutators applied, in lock
      order, to what a reader would have got at the start. */
  lemma {:induction false} ReadsAreMutations<V(!new), Op>(cfg: Config<V, Op>, base: string, ops: seq<Op>)
    requires JsonRoundTrips(cfg) && SchemaSettles(cfg)
    requires Load(cfg, base).Some? && Effective(cfg, base, ops)
    ensures Load(cfg, Fold(cfg, base, ops)) == FoldValues(cfg, Load(cfg, base).value, ops)
    ensures Load(cfg, Fold(cfg, base, ops)).Some?
    decreases |ops|
  {
    if ops != [] {
      var before, op := ops[..|ops| - 1], ops[|ops| - 1];
      ReadsAreMutations(cfg, base, before);
      LoadsWhatItPrinted(cfg, Fold(cfg, base, before), op);
    }
  }

  lemma LoadsWhatItPrinted<V(!new), Op>(cfg: Config<V, Op>, text: string, op: Op)
    requires JsonRoundTrips(cfg) && SchemaSettles(cfg) && Update(cfg, text, op).Some?
    ensures Load(cfg, text).Some? && cfg.mutate(op, Load(cfg, text).value).Some?
    ensures Load(cfg, Update(cfg, text, op).value) == cfg.schema(cfg.mutate(op, Load(cfg, text).value).value)
  {
    var next := cfg.mutate(op, Load(cfg, text).value).value;
    assert cfg.schema(next).Some? && cfg.parse(cfg.stringify(cfg.schema(next).value)) == cfg.schema(next);
  }
}
