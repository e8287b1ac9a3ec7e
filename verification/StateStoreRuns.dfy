// shared/state-store/src/store.ts
//
// What every interleaving of stateUpdate calls leaves behind, and the one start
// from which an update can be lost.
module StateStoreRuns {
  import opened Collections
  import opened StateStore

  // ---------------------------------------------------------------- lock order

  /** The elements of xs that are in keep, in the order of xs. */
  function Among(xs: seq<nat>, keep: set<nat>): seq<nat>
  {
    if xs == [] then []
    else
      var before := Among(xs[..|xs| - 1], keep);
      if xs[|xs| - 1] in keep then before + [xs[|xs| - 1]] else before
  }

  lemma {:induction false} AmongWithout(xs: seq<nat>, keep: set<nat>, x: nat)
    requires x !in xs
    ensures Among(xs, keep + {x}) == Among(xs, keep)
  {
    if xs != [] {
      AmongWithout(xs[..|xs| - 1], keep, x);
    }
  }

  function ToSet(xs: seq<nat>): set<nat> { set x | x in xs }

  predicate PastLock<V>(pc: Pc<V>)
  {
    !pc.Probing? && !pc.CreateWriting? && !pc.CreateRenaming? && !pc.WaitingForLock?
  }

  predicate PastRename<V>(pc: Pc<V>)
  {
    pc.Releasing? || pc.Finished? || pc.Dead?
  }

  /** The commits happened in lock order, each for its own operation. */
  ghost predicate InLockOrder<V, Op>(s: State<V, Op>)
  {
    && |s.committers| == |s.committed|
    && s.committers == Among(s.lockOrder, ToSet(s.committers))
    && forall i :: 0 <= i < |s.committers| ==>
         s.committers[i] in s.updaters && s.updaters[s.committers[i]].op == s.committed[i]
  }

  ghost predicate OrderInv<V, Op>(s: State<V, Op>)
  {
    && InLockOrder(s)
    && Distinct(s.lockOrder)
    && (forall id :: id in s.lockOrder ==> id in s.updaters && PastLock(s.updaters[id].pc))
    && (forall id :: id in s.committers ==> id in s.updaters && PastRename(s.updaters[id].pc))
    && (s.lock.Some? ==> s.lockOrder != [] && s.lockOrder[|s.lockOrder| - 1] == s.lock.value)
  }

  /** Moving one updater forward keeps everything it was past. */
  predicate Forward<V>(a: Pc<V>, b: Pc<V>)
  {
    (PastLock(a) ==> PastLock(b)) && (PastRename(a) ==> PastRename(b))
  }

  lemma MoveKeepsOrder<V, Op>(s: State<V, Op>, t: State<V, Op>, id: nat)
    requires OrderInv(s) && id in s.updaters && s.updaters.Keys == t.updaters.Keys
    requires forall j :: j in s.updaters && j != id ==> t.updaters[j] == s.updaters[j]
    requires t.updaters[id].op == s.updaters[id].op && Forward(s.updaters[id].pc, t.updaters[id].pc)
    requires t.committers == s.committers && t.committed == s.committed && t.lockOrder == s.lockOrder
    requires t.lock == s.lock || t.lock.None?
    ensures OrderInv(t)
  {
  }

  lemma AcquireKeepsOrder<V, Op>(s: State<V, Op>, id: nat)
    requires OrderInv(s) && id in s.updaters && s.updaters[id].pc.WaitingForLock?
    ensures OrderInv(Goto(s, id, Locked).(lock := Some(id), lockOrder := s.lockOrder + [id]))
  {
    assert id !in s.lockOrder && id !in s.committers;
    var t := Goto(s, id, Locked).(lock := Some(id), lockOrder := s.lockOrder + [id]);
    assert t.lockOrder[..|s.lockOrder|] == s.lockOrder;
  }

  lemma CommitKeepsOrder<V, Op>(s: State<V, Op>, id: nat)
    requires OrderInv(s) && id in s.updaters && s.updaters[id].pc.Renaming? && s.lock == Some(id)
    requires s.updaters[id].tmp in s.tmps
    ensures OrderInv(Commit(Goto(MoveTmp(s, s.updaters[id].tmp), id, Releasing), id))
  {
    var t := Commit(Goto(MoveTmp(s, s.updaters[id].tmp), id, Releasing), id);
    assert id !in s.committers;
    var before := s.lockOrder[..|s.lockOrder| - 1];
    AmongWithout(before, ToSet(s.committers), id);
    assert ToSet(t.committers) == ToSet(s.committers) + {id};
  }

  lemma PlainStepMoves<V, Op>(cfg: Config<V, Op>, s: State<V, Op>, e: Event<Op>)
    requires Inv(cfg, s) && Step(cfg, s, e).Some?
    requires !e.Call? && !e.TakeOverStaleLock? && !e.Rename? && !e.Acquire?
    ensures var t := Step(cfg, s, e).value;
            && e.id in s.updaters && s.updaters.Keys == t.updaters.Keys
            && (forall j :: j in s.updaters && j != e.id ==> t.updaters[j] == s.updaters[j])
            && t.updaters[e.id].op == s.updaters[e.id].op
            && Forward(s.updaters[e.id].pc, t.updaters[e.id].pc)
            && t.committers == s.committers && t.committed == s.committed && t.lockOrder == s.lockOrder
            && (t.lock == s.lock || t.lock.None?)
  {
    assert Knows(cfg, s, s.updaters[e.id]);
    assert Step(cfg, s, e) == UpdaterStep(cfg, s, e, s.updaters[e.id]);
  }

  lemma StepKeepsOrder<V, Op>(cfg: Config<V, Op>, s: State<V, Op>, e: Event<Op>)
    requires Inv(cfg, s) && OrderInv(s) && Step(cfg, s, e).Some?
    ensures OrderInv(Step(cfg, s, e).value)
    ensures s.committed <= Step(cfg, s, e).value.committed
  {
    var t := Step(cfg, s, e).value;
    if e.Call? {
    } else if e.TakeOverStaleLock? {
      MoveKeepsOrder(s, t, s.lock.value);
    } else if e.Acquire? {
      AcquireKeepsOrder(s, e.id);
    } else if e.Rename? {
      assert Knows(cfg, s, s.updaters[e.id]);
      CommitKeepsOrder(s, e.id);
    } else {
      PlainStepMoves(cfg, s, e);
      MoveKeepsOrder(s, t, e.id);
    }
  }

  // ---------------------------------------------------------------- theorems

  ghost predicate Reachable<V, Op>(cfg: Config<V, Op>, base: string, es: seq<Event<Op>>)
  {
    Run(cfg, Start(base), es).Some?
  }

  function After<V, Op>(cfg: Config<V, Op>, base: string, es: seq<Event<Op>>): State<V, Op>
    requires Reachable(cfg, base, es)
  {
    Run(cfg, Start(base), es).value
  }

  /** No lost update: from a present file, whatever the interleaving, the crashes
      and the failed renames, the file is the fold of the committed operations,
      they were committed in lock order, and each of them took effect. */
  lemma {:induction false} NoLostUpdate<V, Op>(cfg: Config<V, Op>, base: string, es: seq<Event<Op>>)
    requires Reachable(cfg, base, es)
    ensures var s := After(cfg, base, es);
            && s.file == Some(Fold(cfg, base, s.committed))
            && Effective(cfg, base, s.committed)
            && InLockOrder(s) && OrderInv(s)
    decreases |es|
  {
    RunKeepsInv(cfg, base, es);
    if es != [] {
      var before := es[..|es| - 1];
      RunKeepsInv(cfg, base, before);
      NoLostUpdate(cfg, base, before);
      StepKeepsOrder(cfg, After(cfg, base, before), es[|es| - 1]);
    }
  }

  /** At most one updater is between taking and releasing the lock. */
  lemma MutualExclusion<V, Op>(cfg: Config<V, Op>, base: string, es: seq<Event<Op>>, a: nat, b: nat)
    requires Reachable(cfg, base, es)
    requires var s := After(cfg, base, es);
             && a in s.updaters && b in s.updaters
             && InCriticalSection(s.updaters[a].pc) && InCriticalSection(s.updaters[b].pc)
    ensures a == b
  {
    RunKeepsInv(cfg, base, es);
  }

  /** A lock-free read at any moment of a run sees the fold of a prefix of what
      the run has committed by its end, never a partly written file. */
  lemma {:induction false} ReadersSeePrefix<V, Op>(cfg: Config<V, Op>, base: string, es: seq<Event<Op>>, k: nat)
    requires Reachable(cfg, base, es) && k <= |es|
    ensures Reachable(cfg, base, es[..k])
    ensures var seen, last := After(cfg, base, es[..k]), After(cfg, base, es);
            && seen.committed <= last.committed
            && seen.file == Some(Fold(cfg, base, last.committed[..|seen.committed|]))
    decreases |es|
  {
    if k == |es| {
      PrefixAll(es);
      NoLostUpdate(cfg, base, es);
      PrefixAll(After(cfg, base, es).committed);
    } else {
      var before := es[..|es| - 1];
      assert before[..k] == es[..k];
      ReadersSeePrefix(cfg, base, before, k);
      NoLostUpdate(cfg, base, before);
      RunKeepsInv(cfg, base, before);
      var mid, last := After(cfg, base, before), After(cfg, base, es);
      StepKeepsOrder(cfg, mid, es[|es| - 1]);
      var n := |After(cfg, base, es[..k]).committed|;
      assert last.committed[..n] == mid.committed[..n];
    }
  }

  /** What is on disk is what it started with, or a value the schema let
      through, and it parses back to that very value. */
  lemma StoredValuesAreValid<V(!new), Op>(cfg: Config<V, Op>, base: string, es: seq<Event<Op>>)
    requires Reachable(cfg, base, es) && JsonRoundTrips(cfg)
    ensures var s := After(cfg, base, es);
            && s.file.Some?
            && (s.committed == [] ==> s.file.value == base)
            && (s.committed != [] ==>
                 exists u, v :: cfg.schema(u) == Some(v) && cfg.parse(s.file.value) == Some(v))
  {
    NoLostUpdate(cfg, base, es);
    var s := After(cfg, base, es);
    if s.committed != [] {
      var before := Fold(cfg, base, s.committed[..|s.committed| - 1]);
      var op := s.committed[|s.committed| - 1];
      var next := cfg.mutate(op, Load(cfg, before).value).value;
      var v := cfg.schema(next).value;
      assert s.file.value == cfg.stringify(v);
      assert cfg.schema(next) == Some(v) && cfg.parse(s.file.value) == Some(v);
    }
  }

  // ---------------------------------------------------------------- the first creation

  /** The same machine, started before the file exists. */
  function StartAbsent<V, Op>(cfg: Config<V, Op>): State<V, Op>
  {
    State(None, map[], None, map[], Print(cfg, cfg.default).GetOr(""), [], [], [])
  }

  lemma RunStep<V, Op>(cfg: Config<V, Op>, s: State<V, Op>, es: seq<Event<Op>>, e: Event<Op>)
    requires Run(cfg, s, es).Some?
    ensures Run(cfg, s, es + [e]) == Step(cfg, Run(cfg, s, es).value, e)
  {
    assert (es + [e])[..|es|] == es;
  }

  function DefaultText<V, Op>(cfg: Config<V, Op>): string { Print(cfg, cfg.default).GetOr("") }

  function ChangedText<V, Op>(cfg: Config<V, Op>, op: Op): string { Update(cfg, DefaultText(cfg), op).GetOr("") }

  /** An operation that makes something else of the printed default. */
  ghost predicate ChangesDefault<V, Op>(cfg: Config<V, Op>, op: Op)
  {
    && Print(cfg, cfg.default).Some?
    && Update(cfg, DefaultText(cfg), op).Some?
    && ChangedText(cfg, op) != DefaultText(cfg)
  }

  /** Two updaters with this operation, numbered 0 and 1, in mid-race. */
  function Race<V, Op>(cfg: Config<V, Op>, op: Op, file: Option<string>, tmps: map<string, string>,
                       lock: Option<nat>, done: bool, pc0: Pc<V>, pc1: Pc<V>): State<V, Op>
  {
    State(file, tmps, lock, map[0 := Updater(op, "t0", pc0), 1 := Updater(op, "t1", pc1)],
          DefaultText(cfg), if lock.Some? then [0] else [],
          if done then [0] else [], if done then [op] else [])
  }

  ghost predicate Leads<V, Op>(cfg: Config<V, Op>, es: seq<Event<Op>>, t: State<V, Op>)
  {
    Run(cfg, StartAbsent(cfg), es) == Some(t)
  }

  predicate Same<V(==), Op(==)>(a: State<V, Op>, b: State<V, Op>)
  {
    && a.file == b.file && a.tmps == b.tmps && a.lock == b.lock && a.updaters == b.updaters
    && a.base == b.base && a.lockOrder == b.lockOrder && a.committers == b.committers && a.committed == b.committed
  }

  lemma LeadsOn<V, Op>(cfg: Config<V, Op>, es: seq<Event<Op>>, t: State<V, Op>, e: Event<Op>, u: State<V, Op>)
    returns (more: seq<Event<Op>>)
    requires Leads(cfg, es, t) && Step(cfg, t, e).Some? && Same(Step(cfg, t, e).value, u)
    ensures Leads(cfg, more, u)
  {
    RunStep(cfg, StartAbsent(cfg), es, e);
    more := es + [e];
  }

  // Both updaters find no file.
  lemma BothProbe<V, Op>(cfg: Config<V, Op>, op: Op) returns (es: seq<Event<Op>>)
    requires ChangesDefault(cfg, op)
    ensures var c := CreateWriting(DefaultText(cfg));
            Leads(cfg, es, Race(cfg, op, None, map[], None, false, c, c))
  {
    var s, c := StartAbsent(cfg), CreateWriting(DefaultText(cfg));
    var s1 := s.(updaters := map[0 := Updater(op, "t0", Probing)]);
    es := LeadsOn(cfg, [], s, Call(0, op, "t0"), s1);
    var s2 := Race(cfg, op, None, map[], None, false, Probing, Probing);
    es := LeadsOn(cfg, es, s1, Call(1, op, "t1"), s2);
    var s3 := Race(cfg, op, None, map[], None, false, c, Probing);
    es := LeadsOn(cfg, es, s2, Probe(0), s3);
    es := LeadsOn(cfg, es, s3, Probe(1), Race(cfg, op, None, map[], None, false, c, c));
  }

  // Updater 0 writes the default to its temporary file.
  lemma OnePrepares<V, Op>(cfg: Config<V, Op>, op: Op, before: seq<Event<Op>>) returns (es: seq<Event<Op>>)
    requires ChangesDefault(cfg, op)
    requires var c := CreateWriting(DefaultText(cfg));
             Leads(cfg, before, Race(cfg, op, None, map[], None, false, c, c))
    ensures var d := DefaultText(cfg);
            Leads(cfg, es, Race(cfg, op, None, map["t0" := d], None, false, CreateRenaming(1), CreateWriting(d)))
  {
    var d := DefaultText(cfg);
    var c := CreateWriting(d);
    var s1 := Race(cfg, op, None, map["t0" := d], None, false, CreateRenaming(1), c);
    es := LeadsOn(cfg, before, Race(cfg, op, None, map[], None, false, c, c), WriteSome(0, |d|), s1);
  }

  // It creates the file, and updater 1 is still about to.
  lemma OneCreates<V, Op>(cfg: Config<V, Op>, op: Op, before: seq<Event<Op>>) returns (es: seq<Event<Op>>)
    requires ChangesDefault(cfg, op)
    requires var d := DefaultText(cfg);
             Leads(cfg, before, Race(cfg, op, None, map["t0" := d], None, false, CreateRenaming(1), CreateWriting(d)))
    ensures var d := DefaultText(cfg);
            Leads(cfg, es, Race(cfg, op, Some(d), map[], None, false, WaitingForLock, CreateWriting(d)))
  {
    var d := DefaultText(cfg);
    var s0 := Race(cfg, op, None, map["t0" := d], None, false, CreateRenaming(1), CreateWriting(d));
    var s1 := Race(cfg, op, Some(d), map[], None, false, WaitingForLock, CreateWriting(d));
    es := LeadsOn(cfg, before, s0, Rename(0), s1);
  }

  // Updater 0 takes the lock and reads the default.
  lemma OneReads<V, Op>(cfg: Config<V, Op>, op: Op, before: seq<Event<Op>>) returns (es: seq<Event<Op>>)
    requires ChangesDefault(cfg, op)
    requires var d := DefaultText(cfg);
             Leads(cfg, before, Race(cfg, op, Some(d), map[], None, false, WaitingForLock, CreateWriting(d)))
    ensures var d := DefaultText(cfg);
            && Load(cfg, d).Some?
            && Leads(cfg, es, Race(cfg, op, Some(d), map[], Some(0), false,
                                   Mutating(Load(cfg, d).value), CreateWriting(d)))
  {
    var d := DefaultText(cfg);
    var c := CreateWriting(d);
    var s1 := Race(cfg, op, Some(d), map[], Some(0), false, Locked, c);
    es := LeadsOn(cfg, before, Race(cfg, op, Some(d), map[], None, false, WaitingForLock, c), Acquire(0), s1);
    var s2 := Race(cfg, op, Some(d), map[], Some(0), false, Mutating(Load(cfg, d).value), c);
    es := LeadsOn(cfg, es, s1, Read(0), s2);
  }

  // It applies its operation.
  lemma OneMutates<V, Op>(cfg: Config<V, Op>, op: Op, before: seq<Event<Op>>) returns (es: seq<Event<Op>>)
    requires ChangesDefault(cfg, op) && Load(cfg, DefaultText(cfg)).Some?
    requires var d := DefaultText(cfg);
             Leads(cfg, before, Race(cfg, op, Some(d), map[], Some(0), false,
                                     Mutating(Load(cfg, d).value), CreateWriting(d)))
    ensures var d := DefaultText(cfg);
            Leads(cfg, es, Race(cfg, op, Some(d), map[], Some(0), false,
                                Writing(ChangedText(cfg, op)), CreateWriting(d)))
  {
    var d := DefaultText(cfg);
    var s0 := Race(cfg, op, Some(d), map[], Some(0), false, Mutating(Load(cfg, d).value), CreateWriting(d));
    var s1 := Race(cfg, op, Some(d), map[], Some(0), false, Writing(ChangedText(cfg, op)), CreateWriting(d));
    es := LeadsOn(cfg, before, s0, Mutate(0), s1);
  }

  // It writes the result to its temporary file.
  lemma OneWrites<V, Op>(cfg: Config<V, Op>, op: Op, before: seq<Event<Op>>) returns (es: seq<Event<Op>>)
    requires ChangesDefault(cfg, op)
    requires var d := DefaultText(cfg);
             Leads(cfg, before, Race(cfg, op, Some(d), map[], Some(0), false,
                                     Writing(ChangedText(cfg, op)), CreateWriting(d)))
    ensures var d, t := DefaultText(cfg), ChangedText(cfg, op);
            Leads(cfg, es, Race(cfg, op, Some(d), map["t0" := t], Some(0), false, Renaming(t, 1), CreateWriting(d)))
  {
    var d, t := DefaultText(cfg), ChangedText(cfg, op);
    var s0 := Race(cfg, op, Some(d), map[], Some(0), false, Writing(t), CreateWriting(d));
    var s1 := Race(cfg, op, Some(d), map["t0" := t], Some(0), false, Renaming(t, 1), CreateWriting(d));
    es := LeadsOn(cfg, before, s0, WriteSome(0, |t|), s1);
  }

  // The commit.
  lemma OneCommits<V, Op>(cfg: Config<V, Op>, op: Op, before: seq<Event<Op>>) returns (es: seq<Event<Op>>)
    requires ChangesDefault(cfg, op)
    requires var d, t := DefaultText(cfg), ChangedText(cfg, op);
             Leads(cfg, before, Race(cfg, op, Some(d), map["t0" := t], Some(0), false,
                                     Renaming(t, 1), CreateWriting(d)))
    ensures Leads(cfg, es, Race(cfg, op, Some(ChangedText(cfg, op)), map[], Some(0), true,
                                Releasing, CreateWriting(DefaultText(cfg))))
  {
    var d, t := DefaultText(cfg), ChangedText(cfg, op);
    var s0 := Race(cfg, op, Some(d), map["t0" := t], Some(0), false, Renaming(t, 1), CreateWriting(d));
    var s1 := Race(cfg, op, Some(t), map[], Some(0), true, Releasing, CreateWriting(d));
    es := LeadsOn(cfg, before, s0, Rename(0), s1);
  }

  // And updater 1 renames the default over it.
  lemma OtherCreates<V, Op>(cfg: Config<V, Op>, op: Op, before: seq<Event<Op>>) returns (es: seq<Event<Op>>)
    requires ChangesDefault(cfg, op)
    requires Leads(cfg, before, Race(cfg, op, Some(ChangedText(cfg, op)), map[], Some(0), true,
                                     Releasing, CreateWriting(DefaultText(cfg))))
    ensures Leads(cfg, es, Race(cfg, op, Some(DefaultText(cfg)), map[], Some(0), true, Releasing, WaitingForLock))
  {
    var d, t := DefaultText(cfg), ChangedText(cfg, op);
    var s0 := Race(cfg, op, Some(t), map[], Some(0), true, Releasing, CreateWriting(d));
    var s1 := Race(cfg, op, Some(t), map["t1" := d], Some(0), true, Releasing, CreateRenaming(1));
    es := LeadsOn(cfg, before, s0, WriteSome(1, |d|), s1);
    es := LeadsOn(cfg, es, s1, Rename(1), Race(cfg, op, Some(d), map[], Some(0), true, Releasing, WaitingForLock));
  }

  function End<V, Op>(cfg: Config<V, Op>, file: Option<string>, es: seq<Event<Op>>): Option<State<V, Op>>
  {
    Run(cfg, if file.Some? then Start(file.value) else StartAbsent(cfg), es)
  }

  /** No run loses what it has committed. */
  ghost predicate NothingLost<V(!new), Op(!new)>(cfg: Config<V, Op>, file: Option<string>)
  {
    forall es :: End(cfg, file, es).Some? && End(cfg, file, es).value.committed != [] ==>
      var s := End(cfg, file, es).value;
      s.file == Some(Fold(cfg, s.base, s.committed))
  }

  /** In any store whose default some operation changes, the file being there at
      the start is what it takes: during the very first creation a committed update
      can be overwritten by the default. */
  lemma NothingLostIff<V(!new), Op(!new)>(cfg: Config<V, Op>, op: Op, file: Option<string>)
    requires ChangesDefault(cfg, op)
    ensures NothingLost(cfg, file) <==> file.Some?
  {
    if file.Some? {
      forall es | End(cfg, file, es).Some?
        ensures var s := End(cfg, file, es).value; s.file == Some(Fold(cfg, s.base, s.committed))
      {
        NoLostUpdate(cfg, file.value, es);
        RunKeepsInv(cfg, file.value, es);
      }
    } else {
      var es := CreationRace(cfg, op);
      var s := Race(cfg, op, Some(DefaultText(cfg)), map[], Some(0), true, Releasing, WaitingForLock);
      assert End(cfg, file, es) == Some(s);
      FoldSnoc(cfg, s.base, [], op);
      assert [] + [op] == s.committed;
    }
  }

  lemma CreationRace<V, Op>(cfg: Config<V, Op>, op: Op) returns (es: seq<Event<Op>>)
    requires ChangesDefault(cfg, op)
    ensures Leads(cfg, es, Race(cfg, op, Some(DefaultText(cfg)), map[], Some(0), true, Releasing, WaitingForLock))
  {
    es := BothProbe(cfg, op);
    es := OnePrepares(cfg, op, es);
    es := OneCreates(cfg, op, es);
    es := OneReads(cfg, op, es);
    es := OneMutates(cfg, op, es);
    es := OneWrites(cfg, op, es);
    es := OneCommits(cfg, op, es);
    es := OtherCreates(cfg, op, es);
  }
}
