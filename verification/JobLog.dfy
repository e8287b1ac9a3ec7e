// packages/flutter-ultra-build/src/runtime/jobs.ts
//
// The stdout log of a job: one file that is copied to `.old` and started again
// when the next chunk would take it over its limit.
module JobLog {
  import opened Collections

  const STDOUT_LOG_MAX := 4 * 1024 * 1024

  // The job's log file and its `.old` copy; None when the file does not exist.
  datatype Files = Files(current: Option<seq<Byte>>, older: Option<seq<Byte>>)

  // How the copy to `.old` went. Failures are ignored by the program: either the
  // copy never got as far as opening `.old`, or it emptied it and then wrote only
  // the first `written` bytes.
  datatype Copy = Copied | NotStarted | CutShort(written: nat)

  function Content(f: Option<seq<Byte>>): seq<Byte> { f.GetOr([]) }

  /** Old log followed by current log. */
  function Kept(f: Files): seq<Byte> { Content(f.older) + Content(f.current) }

  function Append(f: Files, chunk: seq<Byte>, copy: Copy): Files
  {
    if |Content(f.current)| + |chunk| > STDOUT_LOG_MAX then
      Files(Some(chunk),
            if f.current.None? then f.older else AfterCopy(f.older, f.current.value, copy))
    else Files(Some(Content(f.current) + chunk), f.older)
  }

  function AfterCopy(older: Option<seq<Byte>>, current: seq<Byte>, copy: Copy): Option<seq<Byte>>
  {
    match copy
    case Copied => Some(current)
    case NotStarted => older
    case CutShort(n) => Some(FirstN(current, n))
  }

  class StdoutLog {
    var current: Option<seq<Byte>>
    var older: Option<seq<Byte>>

    function View(): Files
      reads this
    {
      Files(current, older)
    }

    /** `size` is what becomes the record's stdoutTailBytes. */
    method AppendStdoutLog(chunk: seq<Byte>, copy: Copy) returns (size: nat)
      modifies this
      ensures View() == Append(old(View()), chunk, copy)
      ensures current.Some? && size == |current.value|
    {
      var curSize := 0;
      if current.Some? {
        curSize := |current.value|;
      }
      if curSize + |chunk| > STDOUT_LOG_MAX {
        if current.Some? {  // reading a missing file throws, and that is ignored
          older := AfterCopy(older, current.value, copy);
        }
        current := Some(chunk);
        return |chunk|;
      }
      current := Some(Content(current) + chunk);
      return curSize + |chunk|;
    }

    method ReadStdoutTail(maxBytes: nat) returns (tail: seq<Byte>)
      ensures tail == LastN(Content(current), maxBytes)
    {
      if current.None? { return []; }
      var size := |current.value|;
      if size <= maxBytes { return current.value; }
      tail := current.value[size - maxBytes..][..maxBytes];
    }
  }

  // ---------------------------------------------------------------- runs

  datatype Write = Write(chunk: seq<Byte>, copy: Copy)

  function Run(writes: seq<Write>): Files
  {
    if writes == [] then Files(None, None)
    else
      var w := writes[|writes| - 1];
      Append(Run(writes[..|writes| - 1]), w.chunk, w.copy)
  }

  function Output(writes: seq<Write>): seq<Byte>
  {
    if writes == [] then []
    else Output(writes[..|writes| - 1]) + writes[|writes| - 1].chunk
  }

  lemma SuffixGrows(a: seq<Byte>, all: seq<Byte>, chunk: seq<Byte>)
    requires IsSuffix(a, all)
    ensures IsSuffix(a + chunk, all + chunk)
  {
  }

  lemma OwnSuffix(all: seq<Byte>, chunk: seq<Byte>)
    ensures IsSuffix(chunk, all + chunk)
  {
  }

  lemma SuffixOfSuffix(a: seq<Byte>, b: seq<Byte>, c: seq<Byte>)
    requires IsSuffix(a, b) && IsSuffix(b, c)
    ensures IsSuffix(a, c)
  {
  }

  /** No chunk is split or dropped inside the current log: it is always the end of
      the output, and no larger than the limit or the one chunk it holds. */
  lemma {:induction false} CurrentIsSuffix(writes: seq<Write>)
    ensures var current := Content(Run(writes).current);
            && IsSuffix(current, Output(writes))
            && (|current| <= STDOUT_LOG_MAX || current == writes[|writes| - 1].chunk)
    decreases |writes|
  {
    if writes != [] {
      var before, w := writes[..|writes| - 1], writes[|writes| - 1];
      CurrentIsSuffix(before);
      OwnSuffix(Output(before), w.chunk);
      SuffixGrows(Content(Run(before).current), Output(before), w.chunk);
    }
  }

  lemma NotYetWritten(writes: seq<Write>)
    requires Run(writes).current.None?
    ensures writes == []
  {
  }

  predicate Rotates(f: Files, chunk: seq<Byte>)
  {
    f.current.Some? && |f.current.value| + |chunk| > STDOUT_LOG_MAX
  }

  /** The last rotation, if there was one, copied the whole log. */
  predicate LastCopied(writes: seq<Write>)
  {
    if writes == [] then true
    else
      var before, w := writes[..|writes| - 1], writes[|writes| - 1];
      if Rotates(Run(before), w.chunk) then w.copy.Copied? else LastCopied(before)
  }

  /** When the latest copy succeeded, whatever became of earlier ones, old log and
      current log together are the end of the output, and either all of it or more
      than the limit. */
  lemma {:induction false} KeptIsSuffix(writes: seq<Write>)
    requires LastCopied(writes)
    ensures var kept := Kept(Run(writes));
            && IsSuffix(kept, Output(writes))
            && (kept == Output(writes) || |kept| > STDOUT_LOG_MAX)
    decreases |writes|
  {
    if writes != [] {
      var before, w := writes[..|writes| - 1], writes[|writes| - 1];
      if Rotates(Run(before), w.chunk) {
        CurrentIsSuffix(before);
        SuffixGrows(Run(before).current.value, Output(before), w.chunk);
      } else {
        KeptIsSuffix(before);
        AppendKeeps(before, w);
      }
    }
  }

  /** Without a rotation, the pair grows by the chunk. */
  lemma AppendKeeps(before: seq<Write>, w: Write)
    requires !Rotates(Run(before), w.chunk) && IsSuffix(Kept(Run(before)), Output(before))
    ensures Kept(Append(Run(before), w.chunk, w.copy)) == Kept(Run(before)) + w.chunk
    ensures IsSuffix(Kept(Run(before)) + w.chunk, Output(before) + w.chunk)
  {
    var f := Run(before);
    SuffixGrows(Kept(f), Output(before), w.chunk);
    if f.current.None? {
      NotYetWritten(before);
    } else {
      AppendAssoc(Content(f.older), Content(f.current), w.chunk);
    }
  }

  /** As long as the whole output fits, there is one log, and it is the output. */
  lemma {:induction false} NoEarlyRotation(writes: seq<Write>)
    requires writes != [] && |Output(writes)| <= STDOUT_LOG_MAX
    ensures Run(writes) == Files(Some(Output(writes)), None)
    decreases |writes|
  {
    var before := writes[..|writes| - 1];
    if before != [] {
      NoEarlyRotation(before);
    }
  }

  /** The tail a reader gets is the end of the whole output: its last maxBytes
      bytes, or all that the current log still has. */
  lemma TailIsEndOfOutput(writes: seq<Write>, maxBytes: nat)
    ensures var tail := LastN(Content(Run(writes).current), maxBytes);
            && IsSuffix(tail, Output(writes))
            && (|Content(Run(writes).current)| >= maxBytes ==> tail == LastN(Output(writes), maxBytes))
  {
    CurrentIsSuffix(writes);
    SuffixOfSuffix(LastN(Content(Run(writes).current), maxBytes),
                   Content(Run(writes).current), Output(writes));
  }

  // ---------------------------------------------------------------- failed copies

  lemma SuffixShrinks(a: seq<Byte>, all: seq<Byte>, chunk: seq<Byte>)
    requires IsSuffix(a + chunk, all + chunk)
    ensures IsSuffix(a, all)
  {
    var d := |all| - |a|;
    forall i | 0 <= i < |a| ensures a[i] == all[d + i] {
      assert (a + chunk)[i] == (all + chunk)[d..][i];
    }
  }

  /** Given that the log and its copy met before the rotation, or that the copy is
      no longer than the log, whether a failed copy leaves the end of the output
      behind can be seen from the two files. */
  predicate CopyFits(older: seq<Byte>, current: seq<Byte>, copy: Copy)
  {
    match copy
    case Copied => true
    case NotStarted => IsSuffix(older, older + current)
    case CutShort(n) => FirstN(current, n) == LastN(current, n)
  }

  /** The latest rotation left behind, in `.old`, what the output then ended with. */
  predicate LastRotationSound(writes: seq<Write>)
    decreases |writes|, 0
  {
    if writes == [] then true
    else
      var before, w := writes[..|writes| - 1], writes[|writes| - 1];
      if Rotates(Run(before), w.chunk) then RotationSound(before, w.copy) else LastRotationSound(before)
  }

  /** Only when the two files did not meet before either, and the old one is the
      longer, does this take bytes that neither of them holds any more. */
  predicate RotationSound(before: seq<Write>, copy: Copy)
    decreases |before|, 2
  {
    var f := Run(before);
    if copy.NotStarted? && |Content(f.older)| > |Content(f.current)| && !LastRotationSound(before) then
      IsSuffix(Content(f.older), Output(before))
    else CopyFits(Content(f.older), Content(f.current), copy)
  }

  lemma SuffixWithin(o: seq<Byte>, s: seq<Byte>, all: seq<Byte>)
    requires IsSuffix(s, all) && |o| <= |s|
    ensures IsSuffix(o, all) <==> IsSuffix(o, s)
  {
    assert s[|s| - |o|..] == all[|all| - |o|..];
  }

  lemma CopyFitsIff(older: seq<Byte>, current: seq<Byte>, copy: Copy, all: seq<Byte>)
    requires IsSuffix(current, all)
    requires copy.NotStarted? ==> |older| <= |current| || IsSuffix(older + current, all)
    ensures IsSuffix(Content(AfterCopy(Some(older), current, copy)), all) <==> CopyFits(older, current, copy)
  {
    match copy
    case Copied =>
    case NotStarted =>
      OwnSuffix(older, current);
      if |older| <= |current| {
        SuffixWithin(older, current, all);
        SuffixWithin(older, current, older + current);
      } else {
        SuffixWithin(older, older + current, all);
      }
    case CutShort(n) =>
      SuffixWithin(FirstN(current, n), current, all);
  }

  /** One rotation: the pair that it leaves is the end of the output exactly when
      the copy, even a failed one, left what the output ended with. */
  lemma RotationIff(before: seq<Write>, w: Write)
    requires Rotates(Run(before), w.chunk)
    requires IsSuffix(Kept(Run(before)), Output(before)) <==> LastRotationSound(before)
    ensures IsSuffix(Kept(Append(Run(before), w.chunk, w.copy)), Output(before) + w.chunk)
       <==> RotationSound(before, w.copy)
  {
    var f, all := Run(before), Output(before);
    var left := Content(AfterCopy(f.older, f.current.value, w.copy));
    SuffixOverChunk(left, all, w.chunk);
    CurrentIsSuffix(before);
    if !(w.copy.NotStarted? && |Content(f.older)| > |f.current.value| && !LastRotationSound(before)) {
      CopyFitsIff(Content(f.older), f.current.value, w.copy, all);
    }
  }

  lemma SuffixOverChunk(a: seq<Byte>, all: seq<Byte>, chunk: seq<Byte>)
    ensures IsSuffix(a + chunk, all + chunk) <==> IsSuffix(a, all)
  {
    if IsSuffix(a + chunk, all + chunk) {
      SuffixShrinks(a, all, chunk);
    } else if IsSuffix(a, all) {
      SuffixGrows(a, all, chunk);
    }
  }

  /** Over every run, with any failures: old log and current log together are the
      end of the output exactly when the latest rotation was sound. */
  lemma {:induction false} PairIff(writes: seq<Write>)
    ensures IsSuffix(Kept(Run(writes)), Output(writes)) <==> LastRotationSound(writes)
    decreases |writes|
  {
    if writes != [] {
      var before, w := writes[..|writes| - 1], writes[|writes| - 1];
      var f := Run(before);
      PairIff(before);
      if Rotates(f, w.chunk) {
        RotationIff(before, w);
      } else if f.current.None? {
        NotYetWritten(before);
      } else {
        SuffixOverChunk(Kept(f), Output(before), w.chunk);
        AppendAssoc(Content(f.older), Content(f.current), w.chunk);
      }
    }
  }

  function Block(b: Byte): (s: seq<Byte>)
    ensures |s| == STDOUT_LOG_MAX && forall i :: 0 <= i < |s| ==> s[i] == b
  {
    seq(STDOUT_LOG_MAX, i => b)
  }

  /** It can go wrong: three full logs, the second copy not started. The log of the
      first stays in `.old`, and the second is lost between the two. */
  lemma StaleOldLog()
    ensures var writes := [Write(Block(0), Copied), Write(Block(1), Copied), Write(Block(2), NotStarted)];
            && Run(writes) == Files(Some(Block(2)), Some(Block(0)))
            && Output(writes) == Block(0) + Block(1) + Block(2)
            && !IsSuffix(Kept(Run(writes)), Output(writes))
  {
    var w0, w1, w2 := Write(Block(0), Copied), Write(Block(1), Copied), Write(Block(2), NotStarted);
    assert [w0, w1, w2][..2] == [w0, w1] && [w0, w1][..1] == [w0] && [w0][..0] == [];
    assert Output([w0]) == [] + Block(0) == Block(0);
    assert Run([w0]) == Files(Some([] + Block(0)), None);
    assert [] + Block(0) == Block(0);
    assert Run([w0, w1]) == Files(Some(Block(1)), Some(Block(0)));
    var kept, all := Block(0) + Block(2), Block(0) + Block(1) + Block(2);
    assert kept[0] == 0 && all[|all| - |kept|] == 1;
  }
}
