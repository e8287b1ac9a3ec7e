// packages/flutter-ultra-build/src/runtime/spawn.ts, .../jobs.ts
//
// Output of a child process kept up to a byte limit, as a list of buffers.
module Capture {
  import opened Collections

  /** The limit spawnCapture uses when its caller gives none. */
  const DEFAULT_MAX_BUFFER := 8 * 1024 * 1024
  const STDERR_BUFFER_MAX := 256 * 1024

  lemma FirstNFits<T>(all: seq<T>, chunk: seq<T>, n: nat)
    requires |all| + |chunk| <= n
    ensures FirstN(all + chunk, n) == FirstN(all, n) + chunk
  {
  }

  lemma FirstNCut<T>(all: seq<T>, chunk: seq<T>, n: nat)
    requires |all| <= n < |all| + |chunk|
    ensures FirstN(all + chunk, n) == all + chunk[..n - |all|]
  {
  }

  lemma FirstNFull<T>(all: seq<T>, chunk: seq<T>, n: nat)
    requires n <= |all|
    ensures FirstN(all + chunk, n) == FirstN(all, n)
  {
  }

  /** stdoutBuf, stdoutBytes and truncatedStdout of spawnCapture, or their
      counterparts for stderr. */
  class CappedOutput {
    const maxBuffer: nat
    var buf: seq<seq<Byte>>
    var bytes: nat
    var truncated: bool
    ghost var arrived: seq<Byte>

    /** What is kept is the first maxBuffer bytes, and truncated says whether
        there were more. */
    ghost predicate Valid()
      reads this
    {
      && Flatten(buf) == FirstN(arrived, maxBuffer)
      && bytes == |Flatten(buf)|
      && (truncated <==> |arrived| > maxBuffer)
    }

    constructor (maxBuffer: nat)
      ensures Valid() && arrived == [] && this.maxBuffer == maxBuffer
    {
      this.maxBuffer := maxBuffer;
      buf, bytes, truncated, arrived := [], 0, false, [];
    }

    method OnData(chunk: seq<Byte>)
      requires Valid()
      modifies this
      ensures Valid() && arrived == old(arrived) + chunk
    {
      if bytes + |chunk| <= maxBuffer {
        FlattenSnoc(buf, chunk);
        if truncated {
          assert chunk == [] && arrived + chunk == arrived;
        } else {
          FirstNFits(arrived, chunk, maxBuffer);
        }
        buf := buf + [chunk];
        bytes := bytes + |chunk|;
      } else if !truncated {
        truncated := true;
        var remaining := maxBuffer - bytes;
        FirstNCut(arrived, chunk, maxBuffer);
        if remaining > 0 {
          FlattenSnoc(buf, chunk[..remaining]);
          buf := buf + [chunk[..remaining]];
          bytes := bytes + remaining;
        }
      } else {
        FirstNFull(arrived, chunk, maxBuffer);
      }
      arrived := arrived + chunk;
    }
  }

  /** The entries of inflightStderr and inflightStderrSize for one job; both are
      deleted when the process fails to start or closes. */
  class JobStderr {
    var buf: Option<seq<seq<Byte>>>
    var size: nat
    ghost var arrived: seq<Byte>

    ghost predicate Valid()
      reads this
    {
      buf.Some? ==>
        && Flatten(buf.value) == FirstN(arrived, STDERR_BUFFER_MAX)
        && size == |Flatten(buf.value)|
    }

    constructor ()
      ensures Valid() && buf == Some([]) && arrived == []
    {
      buf, size, arrived := Some([]), 0, [];
    }

    method OnData(chunk: seq<Byte>)
      requires Valid()
      modifies this
      ensures Valid() && (buf.Some? <==> old(buf).Some?)
      ensures arrived == if old(buf).None? then old(arrived) else old(arrived) + chunk
    {
      if buf.None? { return; }
      if size + |chunk| <= STDERR_BUFFER_MAX {
        FlattenSnoc(buf.value, chunk);
        if size == STDERR_BUFFER_MAX {
          assert chunk == [] && arrived + chunk == arrived;
        } else {
          FirstNFits(arrived, chunk, STDERR_BUFFER_MAX);
        }
        buf := Some(buf.value + [chunk]);
        size := size + |chunk|;
      } else if size < STDERR_BUFFER_MAX {
        var remaining := STDERR_BUFFER_MAX - size;
        FirstNCut(arrived, chunk, STDERR_BUFFER_MAX);
        FlattenSnoc(buf.value, chunk[..remaining]);
        buf := Some(buf.value + [chunk[..remaining]]);
        size := STDERR_BUFFER_MAX;
      } else {
        FirstNFull(arrived, chunk, STDERR_BUFFER_MAX);
      }
      arrived := arrived + chunk;
    }

    /** The process failed to start or has closed. */
    method Delete() returns (stderr: seq<Byte>)
      requires Valid()
      modifies this
      ensures buf.None? && arrived == old(arrived)
      ensures stderr == if old(buf).None? then [] else FirstN(arrived, STDERR_BUFFER_MAX)
    {
      stderr := if buf.None? then [] else Flatten(buf.value);
      buf, size := None, 0;
    }
  }
}
