// shared/state-store/src/store.ts
//
// One updater's own code, on the files it changes. The lock is held throughout:
// StateStoreRuns shows that every interleaving comes to this.
module StateFile {
  import opened Collections
  import opened StateStore

  datatype RenameOutcome = Renamed | Refused(retryable: bool)

  /** How a rename with retries ends, given what each attempt (from 1) meets:
      it goes through exactly when one of the first five attempts succeeds and
      only retryable refusals come before it. */
  ghost predicate GoesThrough(outcomes: nat -> RenameOutcome)
  {
    exists k: nat :: 1 <= k <= RENAME_MAX_ATTEMPTS && outcomes(k) == Renamed
                     && forall j: nat :: 1 <= j < k ==> outcomes(j) == Refused(true)
  }

  class Files<!V, !Op> {
    const cfg: Config<V, Op>
    var file: Option<string>
    var tmps: map<string, string>

    constructor (cfg: Config<V, Op>, file: Option<string>)
      ensures this.cfg == cfg && this.file == file && tmps == map[]
    {
      this.cfg, this.file, this.tmps := cfg, file, map[];
    }

    method RenameWithRetry(from: string, outcomes: nat -> RenameOutcome) returns (ok: bool)
      requires from in tmps
      modifies this
      ensures ok <==> GoesThrough(outcomes)
      ensures ok ==> file == Some(old(tmps[from])) && tmps == old(tmps) - {from}
      ensures !ok ==> unchanged(this)
    {
      var attempt := 1;
      while true
        invariant 1 <= attempt <= RENAME_MAX_ATTEMPTS
        invariant forall j: nat :: 1 <= j < attempt ==> outcomes(j) == Refused(true)
        invariant unchanged(this)
        decreases RENAME_MAX_ATTEMPTS - attempt
      {
        match outcomes(attempt) {
          case Renamed =>
            file := Some(tmps[from]);
            tmps := tmps - {from};
            return true;
          case Refused(retryable) =>
            if !retryable || attempt >= RENAME_MAX_ATTEMPTS {
              return false;
            }
        }
        attempt := attempt + 1;
      }
    }

    method StateRead() returns (r: Option<V>)
      ensures r == if file.Some? then Load(cfg, file.value) else Some(cfg.default)
      ensures file.Some? && r.Some? ==>
                cfg.parse(file.value).Some? && cfg.schema(cfg.parse(file.value).value) == r
    {
      if file.None? {
        return Some(cfg.default);
      }
      var parsed := cfg.parse(file.value);
      if parsed.None? {
        return None;
      }
      r := cfg.schema(parsed.value);
    }

    /** The file afterwards holds the printed value, or is untouched. */
    method StateWriteAtomic(tmp: string, value: V, outcomes: nat -> RenameOutcome) returns (ok: bool)
      modifies this
      ensures ok <==> Print(cfg, value).Some? && GoesThrough(outcomes)
      ensures file == if ok then Print(cfg, value) else old(file)
    {
      var validated := cfg.schema(value);
      if validated.None? {
        return false;
      }
      tmps := tmps[tmp := cfg.stringify(validated.value)];
      ok := RenameWithRetry(tmp, outcomes);
    }

    /** The file that gets locked: the one that is there, or one made from the
        default beforehand. */
    ghost function Established(before: Option<string>, creation: nat -> RenameOutcome): Option<string>
    {
      if before.Some? then before
      else if GoesThrough(creation) then Print(cfg, cfg.default)
      else None
    }

    /** stateUpdate: a missing file is created first. From there the file becomes
        what the fold makes of it, or stays, and the caller gets the mutator's value
        exactly when the update is committed. */
    method StateUpdate(op: Op, firstTmp: string, creation: nat -> RenameOutcome,
                       tmp: string, outcomes: nat -> RenameOutcome) returns (r: Option<V>)
      modifies this
      ensures var start := Established(old(file), creation);
              && (r.Some? <==> start.Some? && Update(cfg, start.value, op).Some? && GoesThrough(outcomes))
              && (r.Some? ==> file == Some(Fold(cfg, start.value, [op])))
              && (r.Some? ==> Load(cfg, start.value).Some?
                              && r == cfg.mutate(op, Load(cfg, start.value).value))
              && (r.None? ==> file == start)
    {
      if file.None? {
        var created := StateWriteAtomic(firstTmp, cfg.default, creation);
        if !created {
          return None;
        }
      }
      FoldSnoc(cfg, file.value, [], op);
      assert [] + [op] == [op];
      var current := StateRead();
      if current.None? {
        return None;
      }
      var next := cfg.mutate(op, current.value);
      if next.None? {
        return None;
      }
      var ok := StateWriteAtomic(tmp, next.value, outcomes);
      r := if ok then next else None;
    }
  }
}
