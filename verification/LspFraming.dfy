// packages/flutter-ultra-build/src/tools/lsp.ts
//
// Content-Length framing over a byte stream that arrives in arbitrary chunks.
module LspFraming {
  import opened Collections
  import opened Decimals
  import opened LspHeader

  // ---------------------------------------------------------------- text

  /** Buffer.from(s, 'ascii'): the low byte of every character. */
  function Ascii(s: string): (b: seq<Byte>)
    ensures |b| == |s|
  {
    seq(|s|, i requires 0 <= i < |s| => (s[i] as int % 256) as Byte)
  }

  /** Buffer.toString('utf8'). Up to its first non-ASCII byte a buffer decodes
      byte by byte; what the rest decodes to is left to `decode`. */
  function Text(buf: seq<Byte>, decode: seq<Byte> -> string): string
  {
    if buf == [] then ""
    else if buf[0] < 128 then [buf[0] as char] + Text(buf[1..], decode)
    else decode(buf)
  }

  // ---------------------------------------------------------------- messages

  function EncodeMessage(json: seq<Byte>): seq<Byte>
  {
    Ascii(EncodedHeader(json) + CRLF2) + json
  }

  function EncodedHeader(json: seq<Byte>): (h: string)
    ensures IsAscii(h)
  {
    "Content-Length: " + Decimal(|json|)
  }

  // The foreign engines: UTF-8 decoding behind the first byte that is not ASCII,
  // and whether JSON.parse accepts a body.
  datatype Engine = Engine(decode: seq<Byte> -> string, parses: seq<Byte> -> bool)

  // What is at the head of the buffer. The body stands for the message JSON.parse
  // makes of it; Malformed is where JSON.parse throws.
  datatype Reply = Incomplete | Malformed | Message(body: seq<Byte>, consumed: nat)

  function TryParseMessage(buf: seq<Byte>, engine: Engine): (r: Reply)
    ensures r.Message? ==> 0 < r.consumed <= |buf|
  {
    var str := Text(buf, engine.decode);
    match IndexOf(str, CRLF2)
    case None => Incomplete
    case Some(headerEnd) =>
      match ContentLength(str[..headerEnd])
      case None => Incomplete
      case Some(length) =>
        var bodyStart := headerEnd + 4;
        var bodyEnd := bodyStart + length;
        if |buf| < bodyEnd then Incomplete
        else if !engine.parses(buf[bodyStart..bodyEnd]) then Malformed
        else Message(buf[bodyStart..bodyEnd], bodyEnd)
  }

  datatype Drained = Drained(bodies: seq<seq<Byte>>, rest: seq<Byte>)

  function Drain(buf: seq<Byte>, engine: Engine): Drained
    decreases |buf|
  {
    var r := TryParseMessage(buf, engine);
    if r.Message? then Prepend([r.body], Drain(buf[r.consumed..], engine)) else Drained([], buf)
  }

  /** Messages already handled, in front of what a drain yields. */
  function Prepend(done: seq<seq<Byte>>, d: Drained): Drained
  {
    Drained(done + d.bodies, d.rest)
  }

  lemma DrainOne(done: seq<seq<Byte>>, buf: seq<Byte>, engine: Engine)
    ensures var r := TryParseMessage(buf, engine);
            Prepend(done, Drain(buf, engine))
            == if r.Message? then Prepend(done + [r.body], Drain(buf[r.consumed..], engine))
               else Drained(done, buf)
  {
    var r := TryParseMessage(buf, engine);
    if r.Message? {
      AppendAssoc(done, [r.body], Drain(buf[r.consumed..], engine).bodies);
    }
  }

  class DartAnalysisServer {
    const engine: Engine
    var rawBuf: seq<Byte>
    var handled: seq<seq<Byte>>  // the messages passed to _handleMessage

    constructor (engine: Engine)
      ensures this.engine == engine && rawBuf == [] && handled == []
    {
      this.engine, rawBuf, handled := engine, [], [];
    }

    /** `threw` is whether JSON.parse let its exception out of the handler. */
    method OnData(chunk: seq<Byte>) returns (threw: bool)
      modifies this
      ensures Drained(handled, rawBuf) == Prepend(old(handled), Drain(old(rawBuf) + chunk, engine))
      ensures threw <==> TryParseMessage(rawBuf, engine).Malformed?
    {
      rawBuf := rawBuf + chunk;
      threw := DrainBuffer();
    }

    method DrainBuffer() returns (threw: bool)
      modifies this
      ensures Drained(handled, rawBuf) == Prepend(old(handled), Drain(old(rawBuf), engine))
      ensures threw <==> TryParseMessage(rawBuf, engine).Malformed?
    {
      while true
        invariant Prepend(handled, Drain(rawBuf, engine)) == old(Prepend(handled, Drain(rawBuf, engine)))
        decreases |rawBuf|
      {
        DrainOne(handled, rawBuf, engine);
        var result := TryParseMessage(rawBuf, engine);
        if !result.Message? {
          return result.Malformed?;
        }
        rawBuf := rawBuf[result.consumed..];
        handled := handled + [result.body];
      }
    }
  }

  // ---------------------------------------------------------------- frames

  // A header block and a body, as LSP 3.17's base protocol lays them out; the
  // header may hold further fields.
  datatype Frame = Frame(header: string, body: seq<Byte>)

  ghost predicate WellFormed(f: Frame)
  {
    && IsAscii(f.header)
    && IndexOf(f.header + CRLF2, CRLF2) == Some(|f.header|)
    && ContentLength(f.header) == Some(|f.body|)
  }

  ghost predicate AllWellFormed(fs: seq<Frame>)
  {
    forall i {:trigger WellFormed(fs[i])} :: 0 <= i < |fs| ==> WellFormed(fs[i])
  }

  function Bytes(f: Frame): seq<Byte>
  {
    Ascii(f.header + CRLF2) + f.body
  }

  function Stream(fs: seq<Frame>): seq<Byte>
  {
    if fs == [] then [] else Bytes(fs[0]) + Stream(fs[1..])
  }

  function Bodies(fs: seq<Frame>): seq<seq<Byte>>
  {
    if fs == [] then [] else [fs[0].body] + Bodies(fs[1..])
  }

  /** The bytes of a frame still under way: the next frame, but not all of it. */
  ghost predicate Partial(fs: seq<Frame>, tail: seq<Byte>)
  {
    if fs == [] then tail == [] else |tail| < |Bytes(fs[0])| && tail == Bytes(fs[0])[..|tail|]
  }

  /** A complete frame whose body JSON.parse refuses, and whatever came after it. */
  ghost predicate Blocked(fs: seq<Frame>, tail: seq<Byte>, engine: Engine)
  {
    fs != [] && !engine.parses(fs[0].body) && Bytes(fs[0]) <= tail
  }

  ghost predicate Stopped(fs: seq<Frame>, tail: seq<Byte>, engine: Engine)
  {
    Partial(fs, tail) || Blocked(fs, tail, engine)
  }

  ghost predicate AllParse(fs: seq<Frame>, engine: Engine)
  {
    forall f :: f in fs ==> engine.parses(f.body)
  }

  /** The first k frames have been handled, and the rest of what arrived is kept. */
  ghost predicate Reassembled(fs: seq<Frame>, arrived: seq<Byte>, d: Drained, k: nat, engine: Engine)
    requires k <= |fs|
  {
    && d.bodies == Bodies(fs[..k])
    && arrived == Stream(fs[..k]) + d.rest
    && AllParse(fs[..k], engine)
    && Stopped(fs[k..], d.rest, engine)
  }

  lemma {:induction false} TextOfAscii(s: string, tail: seq<Byte>, decode: seq<Byte> -> string)
    requires IsAscii(s)
    ensures Text(Ascii(s) + tail, decode) == s + Text(tail, decode)
  {
    if s == "" {
      assert Ascii(s) + tail == tail;
    } else {
      assert (Ascii(s) + tail)[1..] == Ascii(s[1..]) + tail;
      TextOfAscii(s[1..], tail, decode);
    }
  }

  /** Text after the first occurrence does not move it. */
  lemma {:induction false} IndexOfExtends(s: string, pattern: string, more: string)
    requires IndexOf(s, pattern).Some?
    ensures IndexOf(s + more, pattern) == IndexOf(s, pattern)
  {
    assert (s + more)[..|pattern|] == s[..|pattern|];
    if s[..|pattern|] != pattern {
      assert (s + more)[1..] == s[1..] + more;
      IndexOfExtends(s[1..], pattern, more);
    }
  }

  /** A prefix too short to hold the first occurrence holds none. */
  lemma {:induction false} IndexOfShort(s: string, pattern: string, n: nat)
    requires n <= |s| && pattern != ""
    requires IndexOf(s, pattern).Some? && n < IndexOf(s, pattern).value + |pattern|
    ensures IndexOf(s[..n], pattern) == None
  {
    if IndexOf(s[..n], pattern).Some? {
      assert s == s[..n] + s[n..];
      IndexOfExtends(s[..n], pattern, s[n..]);
    }
  }

  /** The header of a frame is found whatever follows. */
  lemma FindHeader(f: Frame, rest: seq<Byte>, decode: seq<Byte> -> string)
    requires WellFormed(f)
    ensures var str := Text(Ascii(f.header + CRLF2) + rest, decode);
            && IndexOf(str, CRLF2) == Some(|f.header|)
            && |f.header| <= |str| && str[..|f.header|] == f.header
  {
    var h := f.header + CRLF2;
    TextOfAscii(h, rest, decode);
    var more := Text(rest, decode);
    IndexOfExtends(h, CRLF2, more);
    AppendAssoc(f.header, CRLF2, more);
    AppendParts(f.header, CRLF2 + more);
  }

  lemma ParseFrame(f: Frame, tail: seq<Byte>, engine: Engine)
    requires WellFormed(f)
    ensures TryParseMessage(Bytes(f) + tail, engine)
         == if engine.parses(f.body) then Message(f.body, |Bytes(f)|) else Malformed
  {
    var h := f.header + CRLF2;
    AppendAssoc(Ascii(h), f.body, tail);
    FindHeader(f, f.body + tail, engine.decode);
    assert (Bytes(f) + tail)[|h|..|Bytes(f)|] == f.body;
  }

  lemma ParseIncomplete(f: Frame, n: nat, engine: Engine)
    requires WellFormed(f) && n < |Bytes(f)|
    ensures TryParseMessage(Bytes(f)[..n], engine) == Incomplete
  {
    var h := f.header + CRLF2;
    var buf := Bytes(f)[..n];
    if n < |h| {
      assert buf == Ascii(h[..n]) + [];
      TextOfAscii(h[..n], [], engine.decode);
      IndexOfShort(h, CRLF2, n);
      assert h[..n] + "" == h[..n];
    } else {
      var part := f.body[..n - |h|];
      assert buf == Ascii(h) + part;
      FindHeader(f, part, engine.decode);
    }
  }

  lemma BlockedIsMalformed(f: Frame, tail: seq<Byte>, engine: Engine)
    requires WellFormed(f) && !engine.parses(f.body) && Bytes(f) <= tail
    ensures TryParseMessage(tail, engine) == Malformed
  {
    var n := |Bytes(f)|;
    assert tail == Bytes(f) + tail[n..];
    ParseFrame(f, tail[n..], engine);
  }

  lemma NothingToDrain(fs: seq<Frame>, tail: seq<Byte>, engine: Engine)
    requires AllWellFormed(fs) && Stopped(fs, tail, engine)
    ensures !TryParseMessage(tail, engine).Message?
  {
    if fs != [] {
      assert WellFormed(fs[0]);
      if Partial(fs, tail) {
        ParseIncomplete(fs[0], |tail|, engine);
        assert tail == Bytes(fs[0])[..|tail|];
      } else {
        BlockedIsMalformed(fs[0], tail, engine);
      }
    } else {
      EmptyIsIncomplete(engine);
      assert tail == [];
    }
  }

  lemma EmptyIsIncomplete(engine: Engine)
    ensures TryParseMessage([], engine) == Incomplete
  {
    assert Text([], engine.decode) == "" && IndexOf("", CRLF2) == None;
  }

  // ---------------------------------------------------------------- reassembly

  /** Draining complete frames followed by one that stops it handles the former and
      keeps the latter. */
  lemma {:induction false} DrainFrames(done: seq<Frame>, rest: seq<Frame>, tail: seq<Byte>, engine: Engine)
    requires AllWellFormed(done) && AllParse(done, engine)
    requires AllWellFormed(rest) && Stopped(rest, tail, engine)
    ensures Drain(Stream(done) + tail, engine) == Drained(Bodies(done), tail)
    decreases |done|
  {
    if done == [] {
      assert [] + tail == tail;
      NothingToDrain(rest, tail, engine);
    } else {
      assert WellFormed(done[0]);
      var after := Stream(done[1..]) + tail;
      AppendAssoc(Bytes(done[0]), Stream(done[1..]), tail);
      ParseFrame(done[0], after, engine);
      AppendParts(Bytes(done[0]), after);
      DrainFrames(done[1..], rest, tail, engine);
    }
  }

  lemma {:induction false} StreamConcat(a: seq<Frame>, b: seq<Frame>)
    ensures Stream(a + b) == Stream(a) + Stream(b)
    ensures Bodies(a + b) == Bodies(a) + Bodies(b)
  {
    if a == [] {
      assert a + b == b;
    } else {
      assert (a + b)[1..] == a[1..] + b;
      StreamConcat(a[1..], b);
      AppendAssoc(Bytes(a[0]), Stream(a[1..]), Stream(b));
    }
  }

  /** Any prefix of a stream is some complete frames that parse, and a piece of the
      next frame or one that does not parse. */
  lemma {:induction false} CutStream(fs: seq<Frame>, arrived: seq<Byte>, engine: Engine)
    returns (k: nat, tail: seq<Byte>)
    requires arrived <= Stream(fs)
    ensures k <= |fs| && arrived == Stream(fs[..k]) + tail
    ensures AllParse(fs[..k], engine) && Stopped(fs[k..], tail, engine)
    decreases |fs|
  {
    if fs == [] || |arrived| < |Bytes(fs[0])| || !engine.parses(fs[0].body) {
      k, tail := 0, arrived;
      StopsAtOnce(fs, arrived, engine);
    } else {
      var n := |Bytes(fs[0])|;
      FirstFrame(fs, arrived);
      var more;
      more, tail := CutStream(fs[1..], arrived[n..], engine);
      k := more + 1;
      OneMoreFrame(fs, arrived, more, k, tail, engine);
    }
  }

  lemma FirstFrame(fs: seq<Frame>, arrived: seq<Byte>)
    requires fs != [] && |Bytes(fs[0])| <= |arrived| && arrived <= Stream(fs)
    ensures var n := |Bytes(fs[0])|;
            arrived == Bytes(fs[0]) + arrived[n..] && arrived[n..] <= Stream(fs[1..])
  {
    SplitAt(arrived, |Bytes(fs[0])|);
    AppendParts(Bytes(fs[0]), Stream(fs[1..]));
  }

  lemma OneMoreFrame(fs: seq<Frame>, arrived: seq<Byte>, more: nat, k: nat, tail: seq<Byte>, engine: Engine)
    requires k == more + 1 <= |fs| && engine.parses(fs[0].body) && |Bytes(fs[0])| <= |arrived|
    requires arrived == Bytes(fs[0]) + arrived[|Bytes(fs[0])|..]
    requires arrived[|Bytes(fs[0])|..] == Stream(fs[1..][..more]) + tail
    requires AllParse(fs[1..][..more], engine) && Stopped(fs[1..][more..], tail, engine)
    ensures arrived == Stream(fs[..k]) + tail
    ensures AllParse(fs[..k], engine) && Stopped(fs[k..], tail, engine)
  {
    assert fs[..k][1..] == fs[1..][..more] && fs[..k] == [fs[0]] + fs[1..][..more];
    assert fs[1..][more..] == fs[k..];
    AppendAssoc(Bytes(fs[0]), Stream(fs[1..][..more]), tail);
  }

  lemma StopsAtOnce(fs: seq<Frame>, arrived: seq<Byte>, engine: Engine)
    requires arrived <= Stream(fs)
    requires fs == [] || |arrived| < |Bytes(fs[0])| || !engine.parses(fs[0].body)
    ensures arrived == Stream(fs[..0]) + arrived && AllParse(fs[..0], engine) && Stopped(fs[0..], arrived, engine)
  {
    assert Stream(fs[..0]) == [] && fs[0..] == fs;
    if fs != [] {
      AppendParts(Bytes(fs[0]), Stream(fs[1..]));
    }
  }

  /** What OnData leaves after a list of chunks, by its contract. */
  function Feed(chunks: seq<seq<Byte>>, engine: Engine): Drained
  {
    if chunks == [] then Drained([], [])
    else
      var before := Feed(chunks[..|chunks| - 1], engine);
      Prepend(before.bodies, Drain(before.rest + chunks[|chunks| - 1], engine))
  }

  lemma PrefixOfRest(a: seq<Byte>, b: seq<Byte>, c: seq<Byte>)
    requires a + b <= a + c
    ensures b <= c
  {
    assert (a + b)[|a|..] == b && (a + c)[|a|..] == c;
  }

  /** Frames up to i, then j more of the rest, make the frames up to i + j. */
  lemma MoreFrames(fs: seq<Frame>, i: nat, j: nat, tail: seq<Byte>)
    requires i + j <= |fs|
    ensures var more := fs[i..][..j];
            && Bodies(fs[..i]) + Bodies(more) == Bodies(fs[..i + j])
            && Stream(fs[..i]) + (Stream(more) + tail) == Stream(fs[..i + j]) + tail
            && fs[i..][j..] == fs[i + j..]
  {
    TakeOfDrop(fs, i, j);
    StreamConcat(fs[..i], fs[i..][..j]);
    AppendAssoc(Stream(fs[..i]), Stream(fs[i..][..j]), tail);
  }

  lemma RestOfStream(fs: seq<Frame>, i: nat, arrived: seq<Byte>, kept: seq<Byte>, chunk: seq<Byte>)
    requires i <= |fs| && arrived == Stream(fs[..i]) + kept && arrived + chunk <= Stream(fs)
    ensures kept + chunk <= Stream(fs[i..])
  {
    SplitAt(fs, i);
    StreamConcat(fs[..i], fs[i..]);
    AppendAssoc(Stream(fs[..i]), kept, chunk);
    PrefixOfRest(Stream(fs[..i]), kept + chunk, Stream(fs[i..]));
  }

  lemma DrainPrefix(fs: seq<Frame>, arrived: seq<Byte>, engine: Engine)
    returns (k: nat, tail: seq<Byte>)
    requires AllWellFormed(fs) && arrived <= Stream(fs)
    ensures k <= |fs| && arrived == Stream(fs[..k]) + tail
    ensures AllParse(fs[..k], engine) && Stopped(fs[k..], tail, engine)
    ensures Drain(arrived, engine) == Drained(Bodies(fs[..k]), tail)
  {
    k, tail := CutStream(fs, arrived, engine);
    AllOfParts(fs, k);
    DrainFrames(fs[..k], fs[k..], tail, engine);
  }

  lemma JoinPieces(arrived: seq<Byte>, done: seq<Byte>, kept: seq<Byte>, chunk: seq<Byte>,
                   more: seq<Byte>, tail: seq<Byte>, all: seq<Byte>)
    requires arrived == done + kept && kept + chunk == more + tail && done + (more + tail) == all + tail
    ensures arrived + chunk == all + tail
  {
    AppendAssoc(done, kept, chunk);
  }

  lemma StillReassembled(fs: seq<Frame>, arrived: seq<Byte>, d: Drained, i: nat, chunk: seq<Byte>,
                         j: nat, tail: seq<Byte>, arrived': seq<Byte>, d': Drained, k: nat, engine: Engine)
    requires k == i + j <= |fs| && Reassembled(fs, arrived, d, i, engine)
    requires d.rest + chunk == Stream(fs[i..][..j]) + tail
    requires AllParse(fs[i..][..j], engine) && Stopped(fs[i..][j..], tail, engine)
    requires arrived' == arrived + chunk
    requires d' == Prepend(d.bodies, Drained(Bodies(fs[i..][..j]), tail))
    ensures Reassembled(fs, arrived', d', k, engine)
  {
    TakeOfDrop(fs, i, j);
    MoreFrames(fs, i, j, tail);
    JoinPieces(arrived, Stream(fs[..i]), d.rest, chunk, Stream(fs[i..][..j]), tail, Stream(fs[..i + j]));
  }

  lemma NothingYet(fs: seq<Frame>, engine: Engine)
    ensures Reassembled(fs, [], Drained([], []), 0, engine)
  {
    assert fs[..0] == [] && fs[0..] == fs;
  }

  lemma AllOfParts(fs: seq<Frame>, j: nat)
    requires AllWellFormed(fs) && j <= |fs|
    ensures AllWellFormed(fs[..j]) && AllWellFormed(fs[j..])
  {
  }

  lemma NextPieces(fs: seq<Frame>, arrived: seq<Byte>, kept: seq<Byte>, i: nat, chunk: seq<Byte>,
                   engine: Engine) returns (j: nat, tail: seq<Byte>)
    requires AllWellFormed(fs) && i <= |fs|
    requires arrived == Stream(fs[..i]) + kept && arrived + chunk <= Stream(fs)
    ensures i + j <= |fs| && kept + chunk == Stream(fs[i..][..j]) + tail
    ensures AllParse(fs[i..][..j], engine) && Stopped(fs[i..][j..], tail, engine)
    ensures Drain(kept + chunk, engine) == Drained(Bodies(fs[i..][..j]), tail)
  {
    RestOfStream(fs, i, arrived, kept, chunk);
    AllOfParts(fs, i);
    j, tail := DrainPrefix(fs[i..], kept + chunk, engine);
  }

  /** However the bytes of a stream of frames are cut into chunks, and wherever
      they stop so far: exactly the complete messages have been handled, in order,
      and exactly the bytes of the incomplete one are left; or a body that JSON.parse
      refuses has come up, and nothing from there on is ever handled. */
  lemma {:induction false} Reassembly(fs: seq<Frame>, chunks: seq<seq<Byte>>, engine: Engine)
    returns (k: nat)
    requires AllWellFormed(fs) && Flatten(chunks) <= Stream(fs)
    ensures k <= |fs| && Reassembled(fs, Flatten(chunks), Feed(chunks, engine), k, engine)
    decreases |chunks|
  {
    if chunks == [] {
      k := 0;
      NothingYet(fs, engine);
    } else {
      var before, last := chunks[..|chunks| - 1], chunks[|chunks| - 1];
      FlattenLast(chunks);
      var i := Reassembly(fs, before, engine);
      k := StepReassembly(fs, Flatten(before), Feed(before, engine), i, last, engine,
                          Flatten(chunks), Feed(chunks, engine));
    }
  }

  lemma FlattenLast(chunks: seq<seq<Byte>>)
    requires chunks != []
    ensures Flatten(chunks) == Flatten(chunks[..|chunks| - 1]) + chunks[|chunks| - 1]
  {
    assert chunks == chunks[..|chunks| - 1] + [chunks[|chunks| - 1]];
    FlattenSnoc(chunks[..|chunks| - 1], chunks[|chunks| - 1]);
  }

  lemma StepReassembly(fs: seq<Frame>, arrived: seq<Byte>, d: Drained, i: nat, chunk: seq<Byte>,
                       engine: Engine, arrived': seq<Byte>, d': Drained) returns (k: nat)
    requires AllWellFormed(fs) && arrived' <= Stream(fs)
    requires i <= |fs| && Reassembled(fs, arrived, d, i, engine)
    requires arrived' == arrived + chunk && d' == Prepend(d.bodies, Drain(d.rest + chunk, engine))
    ensures k <= |fs| && Reassembled(fs, arrived', d', k, engine)
  {
    var j, tail := NextPieces(fs, arrived, d.rest, i, chunk, engine);
    k := i + j;
    StillReassembled(fs, arrived, d, i, chunk, j, tail, arrived', d', k, engine);
  }

  // ---------------------------------------------------------------- real headers

  /** Every header of fields that gives the length of the body heads a well-formed
      frame. */
  lemma HeadersAreWellFormed(h: Header, body: seq<Byte>)
    requires IsHeader(h) && ParseDecimal(h.length.number) == |body|
    ensures WellFormed(Frame(JoinLines(HeaderLines(h)), body))
  {
    HeaderIsRead(h);
  }

  // A message as a server lays it out: header fields, and a body.
  datatype LaidOut = LaidOut(header: Header, body: seq<Byte>)

  ghost predicate AllLaidOut(ms: seq<LaidOut>)
  {
    forall i :: 0 <= i < |ms| ==> IsHeader(ms[i].header) && ParseDecimal(ms[i].header.length.number) == |ms[i].body|
  }

  function LaidOutFrames(ms: seq<LaidOut>): (fs: seq<Frame>)
    ensures |fs| == |ms|
  {
    seq(|ms|, i requires 0 <= i < |ms| => Frame(JoinLines(HeaderLines(ms[i].header)), ms[i].body))
  }

  /** So messages with any such header fields survive any chunking. */
  lemma LaidOutReassembly(ms: seq<LaidOut>, chunks: seq<seq<Byte>>, engine: Engine) returns (k: nat)
    requires AllLaidOut(ms) && Flatten(chunks) <= Stream(LaidOutFrames(ms))
    ensures k <= |ms| && Reassembled(LaidOutFrames(ms), Flatten(chunks), Feed(chunks, engine), k, engine)
  {
    forall i | 0 <= i < |ms| ensures WellFormed(LaidOutFrames(ms)[i]) {
      HeadersAreWellFormed(ms[i].header, ms[i].body);
    }
    k := Reassembly(LaidOutFrames(ms), chunks, engine);
  }

  /** encodeMessage produces well-formed frames, for every body. */
  lemma EncodedIsWellFormed(json: seq<Byte>)
    ensures WellFormed(Frame(EncodedHeader(json), json))
    ensures Bytes(Frame(EncodedHeader(json), json)) == EncodeMessage(json)
  {
    var number := Decimal(|json|);
    var f := LengthField("Content-Length:", " ", number, "");
    var h := Header([], f, []);
    assert LengthLine(f) == EncodedHeader(json) && HeaderLines(h) == [EncodedHeader(json)];
    DecimalRoundTrip(|json|);
    EncodedLineHasNoCr(number);
    assert LowerAll(f.name) == CONTENT_LENGTH;
    NameIff(f.name);
    HeadersAreWellFormed(h, json);
  }

  lemma EncodedLineHasNoCr(number: string)
    requires AllDigits(number)
    ensures IsLine("Content-Length: " + number)
  {
    var h := "Content-Length: " + number;
    forall i | 0 <= i < |h| ensures h[i] != '\r' && h[i] as int < 128 {
      if i >= 16 { assert h[i] == number[i - 16]; }
    }
  }

  function EncodeAll(messages: seq<seq<Byte>>): seq<Byte>
  {
    if messages == [] then [] else EncodeMessage(messages[0]) + EncodeAll(messages[1..])
  }

  function Frames(messages: seq<seq<Byte>>): (fs: seq<Frame>)
    ensures |fs| == |messages|
  {
    seq(|messages|, i requires 0 <= i < |messages| => Frame(EncodedHeader(messages[i]), messages[i]))
  }

  lemma {:induction false} EncodeAllIsStream(messages: seq<seq<Byte>>)
    ensures AllWellFormed(Frames(messages)) && Stream(Frames(messages)) == EncodeAll(messages)
  {
    forall i | 0 <= i < |messages| ensures WellFormed(Frames(messages)[i]) {
      EncodedIsWellFormed(messages[i]);
    }
    if messages != [] {
      EncodedIsWellFormed(messages[0]);
      assert Frames(messages)[1..] == Frames(messages[1..]);
      EncodeAllIsStream(messages[1..]);
    }
  }

  ghost predicate AllBodiesParse(messages: seq<seq<Byte>>, engine: Engine)
  {
    forall m :: m in messages ==> engine.parses(m)
  }

  lemma NothingPartial(fs: seq<Frame>, tail: seq<Byte>, engine: Engine)
    requires Stopped(fs, tail, engine) && AllParse(fs, engine) && |tail| == |Stream(fs)|
    ensures fs == [] && tail == []
  {
  }

  lemma {:induction false} BodiesLength(fs: seq<Frame>)
    ensures |Bodies(fs)| == |fs|
  {
    if fs != [] { BodiesLength(fs[1..]); }
  }

  /** Round trip: messages encoded, laid end to end and cut anywhere come back one
      for one, with nothing left over, if and only if JSON.parse accepts them all. */
  lemma EncodeFeedRoundTrip(messages: seq<seq<Byte>>, chunks: seq<seq<Byte>>, engine: Engine)
    requires Flatten(chunks) == EncodeAll(messages)
    ensures Feed(chunks, engine) == Drained(messages, []) <==> AllBodiesParse(messages, engine)
  {
    var fs := Frames(messages);
    EncodeAllIsStream(messages);
    var k := Reassembly(fs, chunks, engine);
    BodiesOfFrames(messages);
    BodiesLength(fs[..k]);
    if k == |fs| {
      PrefixAll(fs);
      AllHandled(messages, chunks, engine);
    } else if AllBodiesParse(messages, engine) {
      var rest := Feed(chunks, engine).rest;
      SplitAt(fs, k);
      StreamConcat(fs[..k], fs[k..]);
      assert |rest| == |Stream(fs[k..])|;
      NothingPartial(fs[k..], rest, engine);
    }
  }

  lemma AllHandled(messages: seq<seq<Byte>>, chunks: seq<seq<Byte>>, engine: Engine)
    requires Flatten(chunks) == EncodeAll(messages) == Stream(Frames(messages))
    requires Bodies(Frames(messages)) == messages
    requires Reassembled(Frames(messages), Flatten(chunks), Feed(chunks, engine), |messages|, engine)
    ensures Feed(chunks, engine) == Drained(messages, []) && AllBodiesParse(messages, engine)
  {
    var fs := Frames(messages);
    PrefixAll(fs);
    forall m | m in messages ensures engine.parses(m) {
      var i :| 0 <= i < |messages| && messages[i] == m;
      assert fs[i] in fs[..|fs|];
    }
  }

  lemma {:induction false} BodiesOfFrames(messages: seq<seq<Byte>>)
    ensures Bodies(Frames(messages)) == messages
  {
    if messages != [] {
      assert Frames(messages)[1..] == Frames(messages[1..]);
      BodiesOfFrames(messages[1..]);
    }
  }
}
