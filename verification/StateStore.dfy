// shared/state-store/src/store.ts
//
// Locked read-modify-write of one JSON state file by any number of updaters.
// The step machine interleaves them; StateFile is one updater's own code.
module StateStore {
  import opened Collections

  const RENAME_MAX_ATTEMPTS := 5

  // The engines the store is parametric in: the Zod schema (which may transform
  // what it validates), JSON printing and parsing, and the mutator named by an
  // operation (None when it throws).
  datatype Config<!V, !Op> = Config(
    schema: V -> Option<V>,
    stringify: V -> string,
    parse: string -> Option<V>,
    mutate: (Op, V) -> Option<V>,
    default: V)

  /** stateRead of a present file: JSON.parse, then the schema. */
  function Load<V, Op>(cfg: Config<V, Op>, text: string): Option<V>
  {
    match cfg.parse(text)
    case None => None
    case Some(v) => cfg.schema(v)
  }

  /** The text stateWriteAtomic persists for a value: validated, then printed. */
  function Print<V, Op>(cfg: Config<V, Op>, value: V): Option<string>
  {
    match cfg.schema(value)
    case None => None
    case Some(v) => Some(cfg.stringify(v))
  }

  /** One update applied to a file on its own; None when it throws on the way. */
  function Update<V, Op>(cfg: Config<V, Op>, text: string, op: Op): Option<string>
  {
    match Load(cfg, text)
    case None => None
    case Some(current) =>
      match cfg.mutate(op, current)
      case None => None
      case Some(next) => Print(cfg, next)
  }

  /** The updates applied one after the other; a failing one changes nothing. */
  function Fold<V, Op>(cfg: Config<V, Op>, text: string, ops: seq<Op>): string
  {
    if ops == [] then text
    else
      var before := Fold(cfg, text, ops[..|ops| - 1]);
      Update(cfg, before, ops[|ops| - 1]).GetOr(before)
  }

  /** Printed values parse back to themselves. */
  ghost predicate JsonRoundTrips<V(!new), Op>(cfg: Config<V, Op>)
  {
    forall u, v :: cfg.schema(u) == Some(v) ==> cfg.parse(cfg.stringify(v)) == Some(v)
  }

  // ---------------------------------------------------------------- step machine

  // Where one stateUpdate call stands. Everything from Locked to Releasing runs
  // with the lock held; the two Create states do not.
  datatype Pc<+V> =
    | Probing
    | CreateWriting(text: string)
    | CreateRenaming(attempt: nat)
    | WaitingForLock
    | Locked
    | Mutating(current: V)
    | Writing(text: string)
    | Renaming(text: string, attempt: nat)
    | Releasing
    | Finished
    | Dead(heldLock: bool)

  datatype Updater<+V, +Op> = Updater(op: Op, tmp: string, pc: Pc<V>)

  // `base` is the file's content at the start (the default's text when there is
  // no file); `lockOrder` the updaters in the order they took the lock;
  // `committers` and `committed` those whose rename went through, in that order,
  // and their operations.
  datatype State<+V, +Op> = State(
    file: Option<string>,
    tmps: map<string, string>,
    lock: Option<nat>,
    updaters: map<nat, Updater<V, Op>>,
    base: string,
    lockOrder: seq<nat>,
    committers: seq<nat>,
    committed: seq<Op>)

  datatype Event<+Op> =
    | Call(id: nat, op: Op, tmp: string)
    | Probe(id: nat)
    | Acquire(id: nat)
    | LockTimesOut(id: nat)
    | Read(id: nat)
    | Mutate(id: nat)
    | WriteSome(id: nat, length: nat)
    | WriteFails(id: nat)
    | Rename(id: nat)
    | RenameFails(id: nat, retryable: bool)
    | Release(id: nat)
    | Crash(id: nat)
    | TakeOverStaleLock

  function Goto<V, Op>(s: State<V, Op>, id: nat, pc: Pc<V>): State<V, Op>
    requires id in s.updaters
  {
    s.(updaters := s.updaters[id := s.updaters[id].(pc := pc)])
  }

  predicate InCriticalSection<V>(pc: Pc<V>)
  {
    pc.Locked? || pc.Mutating? || pc.Writing? || pc.Renaming? || pc.Releasing? || (pc.Dead? && pc.heldLock)
  }

  /** The state after one atomic step, or None when the step cannot happen. */
  function Step<V, Op>(cfg: Config<V, Op>, s: State<V, Op>, e: Event<Op>): Option<State<V, Op>>
  {
    match e
    case Call(id, op, tmp) =>
      if id in s.updaters then None
      else Some(s.(updaters := s.updaters[id := Updater(op, tmp, Probing)]))
    case TakeOverStaleLock =>
      if s.lock.Some? && s.lock.value in s.updaters && s.updaters[s.lock.value].pc == Dead(true) then
        Some(Goto(s, s.lock.value, Dead(false)).(lock := None))
      else None
    case _ =>
      if e.id !in s.updaters then None else UpdaterStep(cfg, s, e, s.updaters[e.id])
  }

  function UpdaterStep<V, Op>(cfg: Config<V, Op>, s: State<V, Op>, e: Event<Op>, u: Updater<V, Op>)
    : Option<State<V, Op>>
    requires !e.Call? && !e.TakeOverStaleLock? && e.id in s.updaters && u == s.updaters[e.id]
  {
    match (e, u.pc)
    case (Probe(id), Probing) =>
      // readFile; on ENOENT the default is written before any lock is taken.
      if s.file.Some? then Some(Goto(s, id, WaitingForLock))
      else
        Some(match Print(cfg, cfg.default)
             case None => Goto(s, id, Finished)
             case Some(text) => Goto(s, id, CreateWriting(text)))
    case (WriteSome(id, n), CreateWriting(text)) =>
      Some(WriteTmp(s, id, text, n, CreateRenaming(1)))
    case (Rename(id), CreateRenaming(_)) =>
      if u.tmp !in s.tmps then None
      else Some(Goto(MoveTmp(s, u.tmp), id, WaitingForLock))
    case (RenameFails(id, retryable), CreateRenaming(attempt)) =>
      Some(Goto(s, id, if GivesUp(retryable, attempt) then Finished else CreateRenaming(attempt + 1)))
    case (Acquire(id), WaitingForLock) =>
      if s.lock.Some? then None else Some(Goto(s, id, Locked).(lock := Some(id), lockOrder := s.lockOrder + [id]))
    case (LockTimesOut(id), WaitingForLock) => Some(Goto(s, id, Finished))
    case (Read(id), Locked) =>
      Some(match (if s.file.Some? then Load(cfg, s.file.value) else Some(cfg.default))
           case None => Goto(s, id, Releasing)
           case Some(current) => Goto(s, id, Mutating(current)))
    case (Mutate(id), Mutating(current)) =>
      Some(match cfg.mutate(u.op, current)
           case None => Goto(s, id, Releasing)
           case Some(next) =>
             match Print(cfg, next)
             case None => Goto(s, id, Releasing)
             case Some(text) => Goto(s, id, Writing(text)))
    case (WriteSome(id, n), Writing(text)) =>
      Some(WriteTmp(s, id, text, n, Renaming(text, 1)))
    case (WriteFails(id), Writing(_)) => Some(Goto(s, id, Releasing))
    case (WriteFails(id), CreateWriting(_)) => Some(Goto(s, id, Finished))
    case (Rename(id), Renaming(_, _)) =>
      if u.tmp !in s.tmps then None
      else Some(Commit(Goto(MoveTmp(s, u.tmp), id, Releasing), id))
    case (RenameFails(id, retryable), Renaming(text, attempt)) =>
      Some(Goto(s, id, if GivesUp(retryable, attempt) then Releasing else Renaming(text, attempt + 1)))
    case (Release(id), Releasing) => Some(Goto(s, id, Finished).(lock := None))
    case (Crash(id), _) =>
      if u.pc.Dead? || u.pc.Finished? then None
      else Some(Goto(s, id, Dead(InCriticalSection(u.pc))))
    case _ => None
  }

  function Commit<V, Op>(s: State<V, Op>, id: nat): State<V, Op>
    requires id in s.updaters
  {
    s.(committers := s.committers + [id], committed := s.committed + [s.updaters[id].op])
  }

  predicate GivesUp(retryable: bool, attempt: nat)
  {
    !retryable || attempt >= RENAME_MAX_ATTEMPTS
  }

  /** Some prefix of the text reaches the temporary file; all of it moves on. */
  function WriteTmp<V, Op>(s: State<V, Op>, id: nat, text: string, n: nat, next: Pc<V>): State<V, Op>
    requires id in s.updaters
  {
    var t := s.(tmps := s.tmps[s.updaters[id].tmp := FirstN(text, n)]);
    if n < |text| then t else Goto(t, id, next)
  }

  /** rename(tmp, path): the file is replaced in one step. */
  function MoveTmp<V, Op>(s: State<V, Op>, tmp: string): State<V, Op>
    requires tmp in s.tmps
  {
    s.(file := Some(s.tmps[tmp]), tmps := s.tmps - {tmp})
  }

  function Run<V, Op>(cfg: Config<V, Op>, s: State<V, Op>, es: seq<Event<Op>>): Option<State<V, Op>>
  {
    if es == [] then Some(s)
    else
      match Run(cfg, s, es[..|es| - 1])
      case None => None
      case Some(t) => Step(cfg, t, es[|es| - 1])
  }

  function Start<V, Op>(base: string): State<V, Op>
  {
    State(Some(base), map[], None, map[], base, [], [], [])
  }

  // ---------------------------------------------------------------- invariant

  /** What an updater knows about the file while it holds the lock. */
  ghost predicate Knows<V, Op>(cfg: Config<V, Op>, s: State<V, Op>, u: Updater<V, Op>)
    requires s.file.Some?
  {
    match u.pc
    case CreateWriting(_) => false
    case CreateRenaming(_) => false
    case Mutating(current) => Load(cfg, s.file.value) == Some(current)
    case Writing(text) => Update(cfg, s.file.value, u.op) == Some(text)
    case Renaming(text, _) =>
      && Update(cfg, s.file.value, u.op) == Some(text)
      && u.tmp in s.tmps && s.tmps[u.tmp] == text
    case _ => true
  }

  /** No operation in the list fails where it stands. */
  ghost predicate Effective<V, Op>(cfg: Config<V, Op>, text: string, ops: seq<Op>)
  {
    ops != [] ==>
      var before := ops[..|ops| - 1];
      Effective(cfg, text, before) && Update(cfg, Fold(cfg, text, before), ops[|ops| - 1]).Some?
  }

  ghost predicate Inv<V, Op>(cfg: Config<V, Op>, s: State<V, Op>)
  {
    && s.file == Some(Fold(cfg, s.base, s.committed))
    && Effective(cfg, s.base, s.committed)
    && (s.lock.Some? ==> s.lock.value in s.updaters)
    && (forall id :: id in s.updaters ==>
          && (InCriticalSection(s.updaters[id].pc) <==> s.lock == Some(id))
          && Knows(cfg, s, s.updaters[id]))
  }

  lemma FoldSnoc<V, Op>(cfg: Config<V, Op>, text: string, ops: seq<Op>, op: Op)
    ensures Fold(cfg, text, ops + [op])
         == Update(cfg, Fold(cfg, text, ops), op).GetOr(Fold(cfg, text, ops))
    ensures Effective(cfg, text, ops + [op])
       <==> Effective(cfg, text, ops) && Update(cfg, Fold(cfg, text, ops), op).Some?
  {
    assert (ops + [op])[..|ops|] == ops;
  }

  /** Moving one updater on, the file and the temporaries untouched. */
  lemma GotoKeepsInv<V, Op>(cfg: Config<V, Op>, s: State<V, Op>, id: nat, pc: Pc<V>,
                                lock: Option<nat>, order: seq<nat>)
    requires Inv(cfg, s) && id in s.updaters
    requires order == s.lockOrder || order == s.lockOrder + [id]
    requires lock == s.lock || lock == Some(id) || s.lock == Some(id)
    requires lock.Some? ==> lock.value in s.updaters
    requires InCriticalSection(pc) <==> lock == Some(id)
    requires s.lock == lock || s.lock.None? || lock.None?
    requires Knows(cfg, s, s.updaters[id].(pc := pc))
    ensures Inv(cfg, Goto(s, id, pc).(lock := lock, lockOrder := order))
  {
    var t := Goto(s, id, pc).(lock := lock, lockOrder := order);
    forall j | j in t.updaters
      ensures (InCriticalSection(t.updaters[j].pc) <==> t.lock == Some(j)) && Knows(cfg, t, t.updaters[j])
    {
      assert j != id ==> t.updaters[j] == s.updaters[j];
    }
  }

  lemma WriteKeepsInv<V, Op>(cfg: Config<V, Op>, s: State<V, Op>, id: nat, n: nat)
    requires Inv(cfg, s) && id in s.updaters && s.updaters[id].pc.Writing?
    ensures var text := s.updaters[id].pc.text;
            Inv(cfg, WriteTmp(s, id, text, n, Renaming(text, 1)))
  {
    var u := s.updaters[id];
    var t := WriteTmp(s, id, u.pc.text, n, Renaming(u.pc.text, 1));
    forall j | j in t.updaters
      ensures (InCriticalSection(t.updaters[j].pc) <==> t.lock == Some(j)) && Knows(cfg, t, t.updaters[j])
    {
      if j != id {
        assert t.updaters[j] == s.updaters[j];
      }
    }
  }

  lemma RenameKeepsInv<V, Op>(cfg: Config<V, Op>, s: State<V, Op>, id: nat)
    requires Inv(cfg, s) && id in s.updaters && s.updaters[id].pc.Renaming?
    ensures var u := s.updaters[id];
            Inv(cfg, Commit(Goto(MoveTmp(s, u.tmp), id, Releasing), id))
  {
    var u := s.updaters[id];
    FoldSnoc(cfg, s.base, s.committed, u.op);
    var t := Commit(Goto(MoveTmp(s, u.tmp), id, Releasing), id);
    forall j | j in t.updaters
      ensures (InCriticalSection(t.updaters[j].pc) <==> t.lock == Some(j)) && Knows(cfg, t, t.updaters[j])
    {
      if j != id {
        assert t.updaters[j] == s.updaters[j];
      }
    }
  }

  /** A step that neither writes a temporary nor renames one only moves the
      updater on, and perhaps takes or drops the lock. */
  lemma PlainStep<V, Op>(cfg: Config<V, Op>, s: State<V, Op>, e: Event<Op>)
    requires Inv(cfg, s) && Step(cfg, s, e).Some?
    requires !e.Call? && !e.TakeOverStaleLock? && !e.Rename? && !e.WriteSome?
    ensures e.id in s.updaters
    ensures var t := Step(cfg, s, e).value;
            && e.id in t.updaters
            && t == Goto(s, e.id, t.updaters[e.id].pc).(lock := t.lock, lockOrder := t.lockOrder)
            && (t.lockOrder == s.lockOrder || t.lockOrder == s.lockOrder + [e.id])
            && (t.lock == s.lock || (s.lock.None? && t.lock == Some(e.id)) || (s.lock == Some(e.id) && t.lock.None?))
            && (InCriticalSection(t.updaters[e.id].pc) <==> t.lock == Some(e.id))
            && Knows(cfg, s, t.updaters[e.id])
  {
    var u := s.updaters[e.id];
    assert Knows(cfg, s, u) && (InCriticalSection(u.pc) <==> s.lock == Some(e.id));
    assert Step(cfg, s, e) == UpdaterStep(cfg, s, e, u);
  }

  lemma StepKeepsInv<V, Op>(cfg: Config<V, Op>, s: State<V, Op>, e: Event<Op>)
    requires Inv(cfg, s) && Step(cfg, s, e).Some?
    ensures Inv(cfg, Step(cfg, s, e).value) && Step(cfg, s, e).value.base == s.base
  {
    if e.Call? {
    } else if e.TakeOverStaleLock? {
      GotoKeepsInv(cfg, s, s.lock.value, Dead(false), None, s.lockOrder);
    } else if e.Rename? {
      assert Knows(cfg, s, s.updaters[e.id]);
      RenameKeepsInv(cfg, s, e.id);
    } else if e.WriteSome? {
      assert Knows(cfg, s, s.updaters[e.id]);
      WriteKeepsInv(cfg, s, e.id, e.length);
    } else {
      PlainStep(cfg, s, e);
      var t := Step(cfg, s, e).value;
      GotoKeepsInv(cfg, s, e.id, t.updaters[e.id].pc, t.lock, t.lockOrder);
    }
  }

  lemma {:induction false} RunKeepsInv<V, Op>(cfg: Config<V, Op>, base: string, es: seq<Event<Op>>)
    requires Run(cfg, Start(base), es).Some?
    ensures Inv(cfg, Run(cfg, Start(base), es).value) && Run(cfg, Start(base), es).value.base == base
    decreases |es|
  {
    if es != [] {
      RunKeepsInv(cfg, base, es[..|es| - 1]);
      StepKeepsInv(cfg, Run(cfg, Start(base), es[..|es| - 1]).value, es[|es| - 1]);
    }
  }
}
