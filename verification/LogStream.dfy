// packages/flutter-ultra-native-mobile/src/logStream.ts
//
// Device logs: chunks of text become lines in a bounded buffer, and a client
// pages through the stream with absolute cursors while old lines are dropped.
module LogStream {
  import opened Collections
  import opened Lines

  function Max(a: int, b: int): int { if a < b then b else a }

  function Min(a: int, b: int): int { if a < b then a else b }

  /** The lines that are neither empty nor refused by grep. */
  function Kept(lines: seq<string>, keep: string -> bool): seq<string>
  {
    if lines == [] then []
    else if Last(lines) != "" && keep(Last(lines)) then Kept(Front(lines), keep) + [Last(lines)]
    else Kept(Front(lines), keep)
  }

  lemma {:induction false} KeptAppend(a: seq<string>, b: seq<string>, keep: string -> bool)
    ensures Kept(a + b, keep) == Kept(a, keep) + Kept(b, keep)
  {
    if b == [] {
      assert a + b == a;
    } else {
      FrontLastAppend(a, b);
      KeptAppend(a, Front(b), keep);
    }
  }

  function Wanted(lines: seq<string>, keep: string -> bool): set<nat>
  {
    set i | 0 <= i < |lines| && lines[i] != "" && keep(lines[i])
  }

  /** Exactly the lines that are not empty and that grep lets through are kept, each
      once and in order. */
  lemma {:induction false} KeepsWanted(lines: seq<string>, keep: string -> bool)
    ensures Selects(Kept(lines, keep), lines, Wanted(lines, keep))
  {
    if lines == [] {
      assert Wanted(lines, keep) == {};
    } else {
      var last := |lines| - 1;
      var wanted := lines[last] != "" && keep(lines[last]);
      KeepsWanted(Front(lines), keep);
      SelectsSnoc(Kept(Front(lines), keep), Front(lines), Wanted(Front(lines), keep), lines[last], wanted);
      assert lines == Front(lines) + [lines[last]];
      WantedSnoc(lines, keep);
    }
  }

  lemma WantedSnoc(lines: seq<string>, keep: string -> bool)
    requires lines != []
    ensures var before, wanted := Wanted(Front(lines), keep), Last(lines) != "" && keep(Last(lines));
            Wanted(lines, keep) == if wanted then before + {|lines| - 1} else before
  {
  }

  /** Everything accepted so far, and the unfinished line. */
  datatype Stream = Stream(accepted: seq<string>, leftover: string)

  function Arrive(s: Stream, chunk: string, keep: string -> bool): Stream
  {
    var parts := Split(s.leftover + chunk);
    Stream(s.accepted + Kept(Front(parts), keep), Last(parts))
  }

  function Dropped(s: Stream, cap: nat): nat
  {
    Max(0, |s.accepted| - cap)
  }

  // A page handed to a client: the accepted lines from..cursor.
  datatype Page = Page(from: nat, cursor: nat, lines: seq<string>)

  function PageOf(s: Stream, cap: nat, after: nat, maxLines: nat): Page
  {
    var from, total := Max(after, Dropped(s, cap)), |s.accepted|;
    if from <= total then
      var cursor := Min(total, from + maxLines);
      Page(from, cursor, s.accepted[from..cursor])
    else Page(from, total, [])
  }

  /** Array.prototype.slice for bounds that are not negative. */
  function Slice<T>(s: seq<T>, start: nat, end: nat): seq<T>
  {
    var to := Min(end, |s|);
    if start < to then s[start..to] else []
  }

  /** What poll slices out of the held lines is the page of the whole stream. */
  lemma HeldSlice(s: Stream, cap: nat, after: nat, maxLines: nat)
    ensures var held, start := LastN(s.accepted, cap), Max(after, Dropped(s, cap)) - Dropped(s, cap);
            Slice(held, start, Min(|held|, start + maxLines)) == PageOf(s, cap, after, maxLines).lines
  {
    var d, from := Dropped(s, cap), Max(after, Dropped(s, cap));
    assert LastN(s.accepted, cap) == s.accepted[d..];
    if from <= |s.accepted| {
      DropThenSlice(s.accepted, d, from, Min(|s.accepted|, from + maxLines));
    }
  }

  lemma DropThenSlice<T>(a: seq<T>, d: nat, i: nat, j: nat)
    requires d <= i <= j <= |a|
    ensures a[d..][i - d..j - d] == a[i..j]
  {
  }

  // How a stream reads its bytes: toString('utf8') on each chunk by itself, and the
  // lines it wants.
  datatype Source = Source(decode: seq<Byte> -> string, grep: string -> bool)

  class DeviceLogStream {
    const bufferLines: nat
    const source: Source
    var lines: seq<string>
    var dropped: nat
    var truncated: bool
    var leftover: string
    ghost var accepted: seq<string>

    ghost function View(): Stream
      reads this
    {
      Stream(accepted, leftover)
    }

    ghost predicate Valid()
      reads this
    {
      && lines == LastN(accepted, bufferLines)
      && dropped == Dropped(View(), bufferLines)
      && (truncated <==> dropped > 0)
    }

    constructor (bufferLines: nat, source: Source)
      ensures Valid() && View() == Stream([], "")
      ensures this.bufferLines == bufferLines && this.source == source
    {
      this.bufferLines, this.source := bufferLines, source;
      lines, dropped, truncated, leftover := [], 0, false, "";
      accepted := [];
    }

    /** One accepted line: lines.push, then lines.shift when there are too many. */
    method Keep(line: string)
      requires Valid()
      modifies `lines, `dropped, `truncated, `accepted
      ensures Valid() && accepted == old(accepted) + [line]
    {
      lines := lines + [line];
      accepted := accepted + [line];
      if |lines| > bufferLines {
        lines := lines[1..];
        dropped := dropped + 1;
        truncated := true;
      }
    }

    method Consume(chunk: seq<Byte>)
      requires Valid()
      modifies this
      ensures Valid() && View() == Arrive(old(View()), source.decode(chunk), source.grep)
    {
      var text := leftover + source.decode(chunk);
      var parts := Split(text);
      leftover := Last(parts);
      parts := Front(parts);
      for i := 0 to |parts|
        invariant Valid() && leftover == Last(Split(text))
        invariant accepted == old(accepted) + Kept(parts[..i], source.grep)
      {
        PrefixSnoc(parts, i);
        assert Front(parts[..i + 1]) == parts[..i];
        if parts[i] != "" && source.grep(parts[i]) {
          Keep(parts[i]);
        }
      }
      PrefixAll(parts);
    }

    method Poll(afterCursor: nat, maxLines: nat)
      returns (cursor: nat, page: seq<string>, totalLines: nat, lost: nat)
      requires Valid()
      ensures var p := PageOf(View(), bufferLines, afterCursor, maxLines);
              cursor == p.cursor && page == p.lines
      ensures totalLines == |accepted| && lost == Dropped(View(), bufferLines)
    {
      totalLines := |lines| + dropped;
      var effective := Max(afterCursor, dropped);
      var startIdx := effective - dropped;
      var sliceEnd := Min(|lines|, startIdx + maxLines);
      page := Slice(lines, startIdx, sliceEnd);
      cursor := dropped + sliceEnd;
      lost := dropped;
      HeldSlice(View(), bufferLines, afterCursor, maxLines);
    }
  }

  /** A poll moves the cursor back exactly when the client asks for a position
      the stream has not reached. */
  lemma PollCursorIff(s: Stream, cap: nat, after: nat, maxLines: nat)
    ensures after <= PageOf(s, cap, after, maxLines).cursor <==> after <= |s.accepted|
  {
  }

  // ---------------------------------------------------------------- runs

  datatype Event = Chunk(bytes: seq<Byte>) | Polled(maxLines: nat)

  // A page with the number of lines already dropped when it was read.
  datatype Read = Read(page: Page, gone: nat)

  // A client that polls from cursor 0 and passes each cursor on.
  datatype Client = Client(stream: Stream, cursor: nat, history: seq<Read>)

  function Start(): Client { Client(Stream([], ""), 0, []) }

  function Step(c: Client, e: Event, cap: nat, source: Source): Client
  {
    match e
    case Chunk(bytes) => c.(stream := Arrive(c.stream, source.decode(bytes), source.grep))
    case Polled(maxLines) =>
      var p := PageOf(c.stream, cap, c.cursor, maxLines);
      Client(c.stream, p.cursor, c.history + [Read(p, Dropped(c.stream, cap))])
  }

  function Run(events: seq<Event>, cap: nat, source: Source): Client
  {
    if events == [] then Start() else Step(Run(Front(events), cap, source), Last(events), cap, source)
  }

  function CursorBefore(rs: seq<Read>, k: nat): nat
    requires k <= |rs|
  {
    if k == 0 then 0 else rs[k - 1].page.cursor
  }

  /** Page k starts where page k-1 ended, or where the buffer now begins, and
      holds the accepted lines from there to its cursor. */
  ghost predicate ReadFits(c: Client, k: nat)
    requires k < |c.history|
  {
    var r := c.history[k];
    var p := r.page;
    && p.from == Max(CursorBefore(c.history, k), r.gone)
    && p.from <= p.cursor <= |c.stream.accepted|
    && p.lines == c.stream.accepted[p.from..p.cursor]
  }

  ghost predicate Chained(c: Client)
  {
    && (forall k :: 0 <= k < |c.history| ==> ReadFits(c, k))
    && c.cursor == CursorBefore(c.history, |c.history|)
    && c.cursor <= |c.stream.accepted|
  }

  lemma GrowthKeepsReads(c: Client, bytes: seq<Byte>, cap: nat, source: Source)
    requires Chained(c)
    ensures Chained(Step(c, Chunk(bytes), cap, source))
  {
    var d := Step(c, Chunk(bytes), cap, source);
    var text := source.decode(bytes);
    forall k | 0 <= k < |d.history| ensures ReadFits(d, k) {
      assert ReadFits(c, k);
      var p := c.history[k].page;
      SliceOfAppend(c.stream.accepted, Kept(Front(Split(c.stream.leftover + text)), source.grep), p.from, p.cursor);
    }
  }

  lemma SliceOfAppend<T>(a: seq<T>, b: seq<T>, i: nat, j: nat)
    requires i <= j <= |a|
    ensures (a + b)[i..j] == a[i..j]
  {
  }

  lemma PollExtendsChain(c: Client, maxLines: nat, cap: nat, source: Source)
    requires Chained(c)
    ensures Chained(Step(c, Polled(maxLines), cap, source))
  {
    var d := Step(c, Polled(maxLines), cap, source);
    forall k | 0 <= k < |d.history| ensures ReadFits(d, k) {
      if k < |c.history| {
        assert ReadFits(c, k) && CursorBefore(d.history, k) == CursorBefore(c.history, k);
      } else {
        assert CursorBefore(d.history, k) == c.cursor;
      }
    }
  }

  /** Whatever arrives between polls, the pages follow each other through the one
      accepted stream and skip only lines the buffer had dropped by then. */
  lemma {:induction false} PagesChain(events: seq<Event>, cap: nat, source: Source)
    ensures Chained(Run(events, cap, source))
  {
    if events != [] {
      PagesChain(Front(events), cap, source);
      var c := Run(Front(events), cap, source);
      match Last(events)
      case Chunk(bytes) => GrowthKeepsReads(c, bytes, cap, source);
      case Polled(maxLines) => PollExtendsChain(c, maxLines, cap, source);
    }
  }

  predicate Delivers(r: Read, i: nat) { r.page.from <= i < r.page.cursor }

  /** Read k passed line i by: the line lies between the cursors, but was dropped. */
  predicate Misses(rs: seq<Read>, k: nat, i: nat)
    requires k < |rs|
  {
    CursorBefore(rs, k) <= i < rs[k].page.from
  }

  lemma {:induction false} CursorsAscend(c: Client, j: nat, k: nat)
    requires Chained(c) && j <= k <= |c.history|
    ensures CursorBefore(c.history, j) <= CursorBefore(c.history, k)
    decreases k
  {
    if j < k {
      CursorsAscend(c, j, k - 1);
      assert ReadFits(c, k - 1);
    }
  }

  /** Read k took the client's cursor past line i. */
  predicate Passes(rs: seq<Read>, k: nat, i: nat)
    requires k < |rs|
  {
    CursorBefore(rs, k) <= i < rs[k].page.cursor
  }

  lemma PassingRead(c: Client, i: nat) returns (k: nat)
    requires Chained(c) && i < c.cursor
    ensures k < |c.history| && Passes(c.history, k, i)
  {
    k := 0;
    while c.history[k].page.cursor <= i
      invariant k < |c.history| && CursorBefore(c.history, k) <= i
      decreases |c.history| - k
    {
      k := k + 1;
    }
  }

  lemma OnePassingRead(c: Client, i: nat, j: nat, k: nat)
    requires Chained(c) && j < k < |c.history|
    ensures !(Passes(c.history, j, i) && Passes(c.history, k, i))
  {
    CursorsAscend(c, j + 1, k);
  }

  /** Every line before the cursor was handed out by exactly one page, word for
      word, or was dropped before the one page that would have held it. */
  lemma EachLineOnceOrDropped(c: Client, i: nat) returns (k: nat)
    requires Chained(c) && i < c.cursor
    ensures k < |c.history| && ReadFits(c, k)
    ensures Delivers(c.history[k], i) || Misses(c.history, k, i)
    ensures Delivers(c.history[k], i) ==>
              c.history[k].page.lines[i - c.history[k].page.from] == c.stream.accepted[i]
    ensures Misses(c.history, k, i) ==> i < c.history[k].gone
    ensures forall j :: 0 <= j < |c.history| && j != k ==> !Delivers(c.history[j], i)
  {
    k := PassingRead(c, i);
    assert ReadFits(c, k);
    forall j | 0 <= j < |c.history| && j != k
      ensures !Delivers(c.history[j], i)
    {
      assert ReadFits(c, j);
      if j < k {
        OnePassingRead(c, i, j, k);
      } else {
        OnePassingRead(c, i, k, j);
      }
    }
  }

  function Pages(rs: seq<Read>): seq<seq<string>>
  {
    if rs == [] then [] else Pages(Front(rs)) + [Last(rs).page.lines]
  }

  /** No read came after a drop it had not already passed. */
  ghost predicate NoGap(c: Client)
  {
    forall k :: 0 <= k < |c.history| ==> Joins(c, k)
  }

  /** The pages laid end to end are the accepted stream up to the cursor exactly
      when the client polled often enough. */
  lemma {:induction false} CompleteIff(c: Client)
    requires Chained(c)
    ensures Flatten(Pages(c.history)) == c.stream.accepted[..c.cursor] <==> NoGap(c)
  {
    PagesLength(c);
    if NoGap(c) {
      PagesTile(c);
    }
  }

  function Undo(c: Client): Client
    requires c.history != []
  {
    Client(c.stream, CursorBefore(c.history, |c.history| - 1), Front(c.history))
  }

  lemma UndoFits(c: Client, k: nat)
    requires Chained(c) && k < |c.history| - 1
    ensures ReadFits(Undo(c), k) && CursorBefore(Undo(c).history, k) == CursorBefore(c.history, k)
  {
    assert ReadFits(c, k);
  }

  lemma UndoChained(c: Client)
    requires Chained(c) && c.history != []
    ensures Chained(Undo(c))
    ensures Undo(c).cursor <= Last(c.history).page.from
  {
    forall k | 0 <= k < |c.history| - 1 ensures ReadFits(Undo(c), k) {
      UndoFits(c, k);
    }
    assert ReadFits(c, |c.history| - 1);
  }

  /** Read k missed nothing. */
  ghost predicate Joins(c: Client, k: nat)
    requires k < |c.history|
  {
    c.history[k].gone <= CursorBefore(c.history, k)
  }

  lemma UndoNoGap(c: Client)
    requires Chained(c) && c.history != []
    ensures NoGap(c) <==> NoGap(Undo(c)) && Undo(c).cursor == Last(c.history).page.from
  {
    var b, n := Undo(c), |c.history| - 1;
    assert ReadFits(c, n);
    assert Joins(c, n) <==> b.cursor == Last(c.history).page.from;
    forall k | 0 <= k < n ensures Joins(c, k) <==> Joins(b, k) {
      UndoFits(c, k);
    }
    assert NoGap(c) <==> (forall k :: 0 <= k < n ==> Joins(c, k)) && Joins(c, n);
  }

  lemma {:induction false} PagesLength(c: Client)
    requires Chained(c)
    ensures |Flatten(Pages(c.history))| <= c.cursor
    ensures |Flatten(Pages(c.history))| == c.cursor ==> NoGap(c)
    decreases |c.history|
  {
    if c.history != [] {
      UndoChained(c);
      UndoNoGap(c);
      PagesLength(Undo(c));
      FlattenSnoc(Pages(Front(c.history)), Last(c.history).page.lines);
      assert ReadFits(c, |c.history| - 1);
    }
  }

  lemma SliceJoin<T>(a: seq<T>, i: nat, j: nat)
    requires i <= j <= |a|
    ensures a[..i] + a[i..j] == a[..j]
  {
  }

  lemma {:induction false} PagesTile(c: Client)
    requires Chained(c) && NoGap(c)
    ensures Flatten(Pages(c.history)) == c.stream.accepted[..c.cursor]
    decreases |c.history|
  {
    if c.history != [] {
      UndoChained(c);
      UndoNoGap(c);
      PagesTile(Undo(c));
      FlattenSnoc(Pages(Front(c.history)), Last(c.history).page.lines);
      assert ReadFits(c, |c.history| - 1);
      SliceJoin(c.stream.accepted, Undo(c).cursor, c.cursor);
    }
  }

  // ---------------------------------------------------------------- the whole text

  function Chunks(events: seq<Event>): seq<seq<Byte>>
  {
    if events == [] then []
    else if Last(events).Chunk? then Chunks(Front(events)) + [Last(events).bytes]
    else Chunks(Front(events))
  }

  /** The chunks decoded one by one, laid end to end. */
  function ChunkText(chunks: seq<seq<Byte>>, decode: seq<Byte> -> string): string
  {
    if chunks == [] then "" else ChunkText(Front(chunks), decode) + decode(Last(chunks))
  }

  /** The accepted stream is the text of the chunks cut into lines, less the empty
      and the refused ones, wherever the text was cut. */
  lemma {:induction false} AcceptedIsChunkText(events: seq<Event>, cap: nat, source: Source)
    ensures var parts := Split(ChunkText(Chunks(events), source.decode));
            Run(events, cap, source).stream == Stream(Kept(Front(parts), source.grep), Last(parts))
  {
    if events != [] {
      AcceptedIsChunkText(Front(events), cap, source);
      if Last(events).Chunk? {
        var bytes, chunks := Last(events).bytes, Chunks(Front(events));
        FrontLastAppend(chunks, [bytes]);
        assert chunks + Front([bytes]) == chunks;
        var text, before := source.decode(bytes), ChunkText(chunks, source.decode);
        SplitConcat(before, text);
        var parts := Split(Last(Split(before)) + text);
        FrontLastAppend(Front(Split(before)), parts);
        KeptAppend(Front(Split(before)), Front(parts), source.grep);
      }
    }
  }

  /** No chunk boundary changes what the bytes decode to. */
  predicate DecodesApart(chunks: seq<seq<Byte>>, decode: seq<Byte> -> string)
  {
    ChunkText(chunks, decode) == decode(Flatten(chunks))
  }

  /** Where that is so, the accepted stream depends on the bytes alone, however they
      were cut into chunks. */
  lemma AcceptedIsWholeText(events: seq<Event>, cap: nat, source: Source)
    requires DecodesApart(Chunks(events), source.decode)
    ensures var parts := Split(source.decode(Flatten(Chunks(events))));
            Run(events, cap, source).stream == Stream(Kept(Front(parts), source.grep), Last(parts))
  {
    AcceptedIsChunkText(events, cap, source);
  }

  predicate AllAscii(bytes: seq<Byte>) { forall b :: b in bytes ==> b < 128 }

  function AsciiText(bytes: seq<Byte>): string
  {
    seq(|bytes|, i requires 0 <= i < |bytes| => bytes[i] as int as char)
  }

  /** As UTF-8 does: ASCII bytes stand for themselves. */
  ghost predicate ReadsAscii(decode: seq<Byte> -> string)
  {
    forall bytes :: AllAscii(bytes) ==> decode(bytes) == AsciiText(bytes)
  }

  /** ASCII logs are such a case, for every chunking. */
  lemma {:induction false} AsciiDecodesApart(chunks: seq<seq<Byte>>, decode: seq<Byte> -> string)
    requires ReadsAscii(decode) && AllAscii(Flatten(chunks))
    ensures DecodesApart(chunks, decode)
  {
    if chunks == [] {
      assert AsciiText([]) == "";
    } else {
      var before, last := Front(chunks), Last(chunks);
      assert chunks == before + [last];
      FlattenSnoc(before, last);
      AsciiParts(Flatten(before), last);
      AsciiDecodesApart(before, decode);
    }
  }

  lemma AsciiParts(a: seq<Byte>, b: seq<Byte>)
    requires AllAscii(a + b)
    ensures AllAscii(a) && AllAscii(b) && AsciiText(a + b) == AsciiText(a) + AsciiText(b)
  {
    assert forall x :: x in a || x in b ==> x in a + b;
  }

  /** But a boundary inside a character changes the line: two bytes that decode to
      one character together, and to a replacement character each. */
  lemma CutCharacter(decode: seq<Byte> -> string, cap: nat)
    requires decode([0xC3, 0xA9, 10]) == "\U{E9}\n"
    requires decode([0xC3]) == "\U{FFFD}" && decode([0xA9, 10]) == "\U{FFFD}\n"
    ensures var source := Source(decode, (line: string) => true);
            && Run([Chunk([0xC3, 0xA9, 10])], cap, source).stream.accepted == ["\U{E9}"]
            && Run([Chunk([0xC3]), Chunk([0xA9, 10])], cap, source).stream.accepted == ["\U{FFFD}\U{FFFD}"]
  {
    var source := Source(decode, (line: string) => true);
    OneLineText("\U{E9}", [Chunk([0xC3, 0xA9, 10])], cap, source);
    OneLineText("\U{FFFD}\U{FFFD}", [Chunk([0xC3]), Chunk([0xA9, 10])], cap, source);
  }

  lemma OneLineText(line: string, events: seq<Event>, cap: nat, source: Source)
    requires line != "" && NoLf(line) && Last(line) != '\r' && source.grep(line)
    requires events != []
    requires ChunkText(Chunks(events), source.decode) == line + "\n"
    ensures Run(events, cap, source).stream.accepted == [line]
  {
    AcceptedIsChunkText(events, cap, source);
    SplitLine(line, Lf, "");
    assert line + EndingText(Lf) + "" == line + "\n";
    assert Split("") == [""];
    assert Front([line] + [""]) == [line];
  }
}
