// packages/flutter-ultra-runtime/src/launchApp.ts
//
// The launch job kept in a state file: patchJob and appendLog are mutators of
// the store, so the job's log survives any interleaving of them.
module LaunchJobLog {
  import opened Collections
  import opened StateStore
  import opened StateStoreRuns

  const RECENT_LOG_MAX := 200

  // A job: its own log, and every other field by name.
  datatype Job = Job(fields: map<string, string>, recentLog: seq<string>)

  // patchJob merges fields (its callers never patch the log); appendLog adds a
  // line. Both stamp `updatedAt` with the clock they read.
  datatype JobOp =
    | PatchJob(patch: map<string, string>, now: string)
    | AppendLog(line: string, now: string)

  function Mutate(op: JobOp, job: Job): Option<Job>
  {
    match op
    case PatchJob(patch, now) => Some(job.(fields := job.fields + patch + map["updatedAt" := now]))
    case AppendLog(line, now) =>
      Some(Job(job.fields + map["updatedAt" := now], LastN(job.recentLog + [line], RECENT_LOG_MAX)))
  }

  /** The strict job schema: among other things, no more than 200 log lines. */
  function Schema(wellTyped: map<string, string> -> bool): Job -> Option<Job>
  {
    (job: Job) =>
      if wellTyped(job.fields) && |job.recentLog| <= RECENT_LOG_MAX then Some(job) else None
  }

  function Lines(ops: seq<JobOp>): seq<string>
  {
    if ops == [] then []
    else
      var before := Lines(ops[..|ops| - 1]);
      var last := ops[|ops| - 1];
      if last.AppendLog? then before + [last.line] else before
  }

  /** A store of launch jobs, over any printer and parser that round-trip. */
  ghost predicate IsJobStore(cfg: Config<Job, JobOp>, wellTyped: map<string, string> -> bool)
  {
    cfg.schema == Schema(wellTyped) && cfg.mutate == Mutate && JsonRoundTrips(cfg)
  }

  lemma LastNAppend<T>(s: seq<T>, x: T, n: nat)
    requires n > 0
    ensures LastN(LastN(s, n) + [x], n) == LastN(s + [x], n)
  {
  }

  /** A committed job is read back as what the operation made of the job before. */
  lemma UpdateThenLoad(cfg: Config<Job, JobOp>, wellTyped: map<string, string> -> bool, text: string, op: JobOp)
    requires IsJobStore(cfg, wellTyped)
    requires Load(cfg, text).Some? && Update(cfg, text, op).Some?
    ensures Load(cfg, Update(cfg, text, op).value) == Mutate(op, Load(cfg, text).value)
  {
    var next := Mutate(op, Load(cfg, text).value).value;
    assert cfg.schema(next) == Some(next);
  }

  lemma LogGrows(log: seq<string>, ops: seq<JobOp>, op: JobOp, job: Job)
    requires job.recentLog == LastN(log + Lines(ops), RECENT_LOG_MAX)
    ensures Mutate(op, job).value.recentLog == LastN(log + Lines(ops + [op]), RECENT_LOG_MAX)
  {
    assert (ops + [op])[..|ops|] == ops;
    if op.AppendLog? {
      LastNAppend(log + Lines(ops), op.line, RECENT_LOG_MAX);
      AppendAssoc(log, Lines(ops), [op.line]);
    }
  }

  lemma {:induction false} FoldedLog(cfg: Config<Job, JobOp>, wellTyped: map<string, string> -> bool,
                                     base: string, start: Job, ops: seq<JobOp>)
    requires IsJobStore(cfg, wellTyped) && Load(cfg, base) == Some(start)
    requires Effective(cfg, base, ops)
    ensures Load(cfg, Fold(cfg, base, ops)).Some?
    ensures Load(cfg, Fold(cfg, base, ops)).value.recentLog == LastN(start.recentLog + Lines(ops), RECENT_LOG_MAX)
    decreases |ops|
  {
    if ops == [] {
      assert start.recentLog + [] == start.recentLog;
    } else {
      var before, op := ops[..|ops| - 1], ops[|ops| - 1];
      FoldedLog(cfg, wellTyped, base, start, before);
      UpdateThenLoad(cfg, wellTyped, Fold(cfg, base, before), op);
      LogGrows(start.recentLog, before, op, Load(cfg, Fold(cfg, base, before)).value);
      assert ops == before + [op];
    }
  }

  /** In every run of concurrent patchJob and appendLog calls, started from a
      stored job, the job on disk keeps exactly the last 200 lines among those
      it had and those committed since, in commit order. */
  lemma RecentLogIsLastCommittedLines(cfg: Config<Job, JobOp>, wellTyped: map<string, string> -> bool,
                                      base: string, start: Job, es: seq<Event<JobOp>>)
    requires IsJobStore(cfg, wellTyped) && Load(cfg, base) == Some(start)
    requires Reachable(cfg, base, es)
    ensures var s := After(cfg, base, es);
            && s.file.Some? && Load(cfg, s.file.value).Some?
            && Load(cfg, s.file.value).value.recentLog
               == LastN(start.recentLog + Lines(s.committed), RECENT_LOG_MAX)
  {
    NoLostUpdate(cfg, base, es);
    FoldedLog(cfg, wellTyped, base, start, After(cfg, base, es).committed);
  }

  /** No append is ever refused for the length of the log. */
  lemma AppendAlwaysFits(cfg: Config<Job, JobOp>, wellTyped: map<string, string> -> bool, job: Job, op: JobOp)
    requires IsJobStore(cfg, wellTyped) && cfg.schema(job) == Some(job)
    ensures var next := Mutate(op, job).value;
            Print(cfg, next).Some? <==> wellTyped(next.fields)
  {
  }

  // ---------------------------------------------------------------- the other fields

  /** What the last operation that writes a field has written there: every operation
      stamps the job, and a patch writes what it holds. */
  function Written(ops: seq<JobOp>, field: string): Option<string>
  {
    if ops == [] then None
    else
      var last := ops[|ops| - 1];
      if field == "updatedAt" then Some(last.now)
      else if last.PatchJob? && field in last.patch then Some(last.patch[field])
      else Written(ops[..|ops| - 1], field)
  }

  /** The field as it was written last, or as it was. */
  ghost predicate FieldFollows(start: Job, ops: seq<JobOp>, job: Job, field: string)
  {
    Get(job.fields, field) == if Written(ops, field).Some? then Written(ops, field) else Get(start.fields, field)
  }

  lemma FieldGrows(start: Job, ops: seq<JobOp>, op: JobOp, job: Job, field: string)
    requires FieldFollows(start, ops, job, field)
    ensures FieldFollows(start, ops + [op], Mutate(op, job).value, field)
  {
    assert (ops + [op])[..|ops|] == ops;
  }

  lemma {:induction false} FoldedFields(cfg: Config<Job, JobOp>, wellTyped: map<string, string> -> bool,
                                        base: string, start: Job, ops: seq<JobOp>, field: string)
    requires IsJobStore(cfg, wellTyped) && Load(cfg, base) == Some(start)
    requires Effective(cfg, base, ops)
    ensures Load(cfg, Fold(cfg, base, ops)).Some?
    ensures FieldFollows(start, ops, Load(cfg, Fold(cfg, base, ops)).value, field)
    decreases |ops|
  {
    if ops != [] {
      var before, op := ops[..|ops| - 1], ops[|ops| - 1];
      FoldedFields(cfg, wellTyped, base, start, before, field);
      UpdateThenLoad(cfg, wellTyped, Fold(cfg, base, before), op);
      FieldGrows(start, before, op, Load(cfg, Fold(cfg, base, before)).value, field);
      assert ops == before + [op];
    }
  }

  /** In every such run, each field of the job on disk is what the last committed
      operation that writes it has written, else what it was. */
  lemma LastPatchWins(cfg: Config<Job, JobOp>, wellTyped: map<string, string> -> bool,
                      base: string, start: Job, es: seq<Event<JobOp>>, field: string)
    requires IsJobStore(cfg, wellTyped) && Load(cfg, base) == Some(start)
    requires Reachable(cfg, base, es)
    ensures var s := After(cfg, base, es);
            && s.file.Some? && Load(cfg, s.file.value).Some?
            && FieldFollows(start, s.committed, Load(cfg, s.file.value).value, field)
  {
    NoLostUpdate(cfg, base, es);
    FoldedFields(cfg, wellTyped, base, start, After(cfg, base, es).committed, field);
  }
}
