// packages/flutter-ultra-build/src/runtime/spawn.ts
//
// Splitting text that arrives in chunks into lines ended by LF or CR LF.
module Lines {
  import opened Collections

  /** s.split(/\r?\n/) */
  function Split(s: string): (parts: seq<string>)
    ensures |parts| >= 1
  {
    if s == "" then [""]
    else if s[0] == '\n' then [""] + Split(s[1..])
    else if s[0] == '\r' && |s| > 1 && s[1] == '\n' then [""] + Split(s[2..])
    else
      var rest := Split(s[1..]);
      [[s[0]] + rest[0]] + rest[1..]
  }

  function Front<T>(s: seq<T>): seq<T>
    requires s != []
  {
    s[..|s| - 1]
  }

  function Last<T>(s: seq<T>): T
    requires s != []
  {
    s[|s| - 1]
  }

  class LineSplitter {
    var remainder: string
    var emitted: seq<string>  // the lines passed to the callback

    constructor ()
      ensures remainder == "" && emitted == []
    {
      remainder, emitted := "", [];
    }

    method Push(chunk: string)
      modifies this
      ensures emitted == old(emitted) + Front(Split(old(remainder) + chunk))
      ensures remainder == Last(Split(old(remainder) + chunk))
    {
      var lines := Split(remainder + chunk);
      remainder := Last(lines);
      lines := Front(lines);
      for i := 0 to |lines|
        invariant emitted == old(emitted) + lines[..i]
        invariant remainder == Last(Split(old(remainder) + chunk))
      {
        emitted := emitted + [lines[i]];
      }
    }

    method Flush()
      modifies this
      ensures emitted == old(emitted) + if old(remainder) == "" then [] else [old(remainder)]
      ensures remainder == ""
    {
      if |remainder| > 0 {
        emitted := emitted + [remainder];
        remainder := "";
      }
    }
  }

  // ---------------------------------------------------------------- what the lines are

  // Lines with their endings, and the text behind the last one.
  datatype Ending = Lf | CrLf

  function EndingText(e: Ending): string { if e == Lf then "\n" else "\r\n" }

  function Join(lines: seq<string>, endings: seq<Ending>, last: string): string
    requires |lines| == |endings|
  {
    if lines == [] then last
    else lines[0] + EndingText(endings[0]) + Join(lines[1..], endings[1..], last)
  }

  predicate NoLf(s: string) { '\n' !in s }

  /** A line as it stands before its ending: no LF inside, and no CR that a bare
      LF would take for its own. */
  predicate IsLine(s: string, e: Ending)
  {
    NoLf(s) && (e == Lf ==> s == "" || s[|s| - 1] != '\r')
  }

  ghost predicate AllLines(lines: seq<string>, endings: seq<Ending>)
    requires |lines| == |endings|
  {
    forall i :: 0 <= i < |lines| ==> IsLine(lines[i], endings[i])
  }

  lemma {:induction false} SplitLine(line: string, e: Ending, rest: string)
    requires IsLine(line, e)
    ensures Split(line + EndingText(e) + rest) == [line] + Split(rest)
    decreases |line|
  {
    var s := line + EndingText(e) + rest;
    if line == "" {
      assert s == EndingText(e) + rest;
      assert s[|EndingText(e)|..] == rest;
    } else {
      assert s[1..] == line[1..] + EndingText(e) + rest;
      SplitLine(line[1..], e, rest);
      assert [line[0]] + line[1..] == line;
    }
  }

  lemma {:induction false} SplitLast(last: string)
    requires NoLf(last)
    ensures Split(last) == [last]
  {
    if last != "" {
      SplitLast(last[1..]);
      assert [last[0]] + last[1..] == last;
    }
  }

  /** Splitting undoes joining, whatever the mix of endings. */
  lemma {:induction false} SplitJoin(lines: seq<string>, endings: seq<Ending>, last: string)
    requires |lines| == |endings| && AllLines(lines, endings) && NoLf(last)
    ensures Split(Join(lines, endings, last)) == lines + [last]
    decreases |lines|
  {
    if lines == [] {
      SplitLast(last);
    } else {
      SplitLine(lines[0], endings[0], Join(lines[1..], endings[1..], last));
      SplitJoin(lines[1..], endings[1..], last);
    }
  }

  lemma FrontLastCons<T>(x: T, parts: seq<T>)
    requires parts != []
    ensures Front([x] + parts) == [x] + Front(parts) && Last([x] + parts) == Last(parts)
  {
  }

  lemma FrontLastAppend<T>(a: seq<T>, parts: seq<T>)
    requires parts != []
    ensures Front(a + parts) == a + Front(parts) && Last(a + parts) == Last(parts)
  {
  }

  lemma FrontLastHead<T>(x: T, parts: seq<T>)
    requires |parts| > 1
    ensures Front([x] + parts[1..]) == [x] + Front(parts)[1..]
    ensures Last([x] + parts[1..]) == Last(parts)
  {
  }

  lemma JoinCons(line: string, e: Ending, lines: seq<string>, endings: seq<Ending>, last: string)
    requires |lines| == |endings|
    ensures Join([line] + lines, [e] + endings, last) == line + EndingText(e) + Join(lines, endings, last)
    ensures IsLine(line, e) && AllLines(lines, endings) ==> AllLines([line] + lines, [e] + endings)
  {
    assert ([line] + lines)[1..] == lines && ([e] + endings)[1..] == endings;
  }

  /** Lines, endings and last part of s, put side by side. */
  ghost predicate Parts(s: string, parts: seq<string>, endings: seq<Ending>)
  {
    && |parts| == |endings| + 1
    && AllLines(Front(parts), endings)
    && NoLf(Last(parts))
    && Join(Front(parts), endings, Last(parts)) == s
  }

  lemma EndedLine(s: string, e: Ending, rest: seq<string>, endings: seq<Ending>)
    requires Parts(s, rest, endings)
    ensures Parts(EndingText(e) + s, [""] + rest, [e] + endings)
  {
    FrontLastCons("", rest);
    JoinCons("", e, Front(rest), endings, Last(rest));
    assert "" + EndingText(e) + s == EndingText(e) + s;
  }

  lemma LongerLine(c: char, s: string, rest: seq<string>, endings: seq<Ending>)
    requires Parts(s, rest, endings) && c != '\n'
    requires c == '\r' ==> s == "" || s[0] != '\n'
    ensures Parts([c] + s, [[c] + rest[0]] + rest[1..], endings)
  {
    var line := [c] + rest[0];
    if |rest| == 1 {
      assert [line] + rest[1..] == [line] && Front([line]) == Front(rest) == [];
    } else {
      FrontLastHead(line, rest);
      var lines, es := Front(rest)[1..], endings[1..];
      assert Front(rest) == [rest[0]] + lines && endings == [endings[0]] + es;
      JoinCons(rest[0], endings[0], lines, es, Last(rest));
      JoinCons(line, endings[0], lines, es, Last(rest));
      assert IsLine(Front(rest)[0], endings[0]);
      assert AllLines(lines, es) by {
        forall i | 0 <= i < |lines| ensures IsLine(lines[i], es[i]) {
          assert IsLine(Front(rest)[i + 1], endings[i + 1]);
        }
      }
      LineStarts(c, rest[0], endings[0], Join(lines, es, Last(rest)));
    }
  }

  lemma LineStarts(c: char, line: string, e: Ending, rest: string)
    requires IsLine(line, e) && c != '\n'
    requires c == '\r' ==> (line + EndingText(e) + rest)[0] != '\n'
    ensures IsLine([c] + line, e)
    ensures [c] + line + EndingText(e) + rest == [c] + (line + EndingText(e) + rest)
  {
    if line == "" && e == Lf {
      assert (line + EndingText(e) + rest)[0] == '\n';
    }
  }

  /** And joining undoes splitting: every text is its lines, joined. */
  lemma {:induction false} JoinSplit(s: string) returns (endings: seq<Ending>)
    ensures Parts(s, Split(s), endings)
    decreases |s|
  {
    if s == "" {
      endings := [];
    } else if s[0] == '\n' {
      endings := JoinSplit(s[1..]);
      EndedLine(s[1..], Lf, Split(s[1..]), endings);
      assert "\n" + s[1..] == s;
      endings := [Lf] + endings;
    } else if s[0] == '\r' && |s| > 1 && s[1] == '\n' {
      endings := JoinSplit(s[2..]);
      EndedLine(s[2..], CrLf, Split(s[2..]), endings);
      assert "\r\n" + s[2..] == s;
      endings := [CrLf] + endings;
    } else {
      endings := JoinSplit(s[1..]);
      LongerLine(s[0], s[1..], Split(s[1..]), endings);
      assert [s[0]] + s[1..] == s;
    }
  }

  // ---------------------------------------------------------------- chunks

  /** What is split off a first piece of text stays split, and the rest goes on
      from its unfinished line, even between a CR and its LF. */
  lemma {:induction false} SplitConcat(a: string, b: string)
    ensures Split(a + b) == Front(Split(a)) + Split(Last(Split(a)) + b)
    decreases |a|
  {
    if a == "" {
      assert a + b == b;
    } else if a[0] == '\n' {
      assert (a + b)[1..] == a[1..] + b;
      SplitConcat(a[1..], b);
      FrontLastCons("", Split(a[1..]));
    } else if a[0] == '\r' && |a| > 1 && a[1] == '\n' {
      assert (a + b)[2..] == a[2..] + b;
      SplitConcat(a[2..], b);
      FrontLastCons("", Split(a[2..]));
    } else if |a| == 1 {
      OneCharacter(a);
    } else {
      InsideLine(a, b);
      SplitConcat(a[1..], b);
      MovesIntoLine(a, b);
    }
  }

  lemma OneCharacter(a: string)
    requires |a| == 1 && a[0] != '\n'
    ensures Split(a) == [a]
  {
    assert a[1..] == "" && [a[0]] + "" == a;
  }

  /** s does not begin with a line ending, and one more character cannot make it. */
  predicate Inside(s: string)
  {
    |s| > 1 && s[0] != '\n' && !(s[0] == '\r' && s[1] == '\n')
  }

  lemma InsideLine(a: string, b: string)
    requires Inside(a)
    ensures (a + b)[1..] == a[1..] + b && (a + b)[0] == a[0] && Inside(a + b)
  {
  }

  lemma SplitInside(s: string)
    requires Inside(s)
    ensures var rest := Split(s[1..]); Split(s) == [[s[0]] + rest[0]] + rest[1..]
  {
  }

  lemma MovesIntoLine(a: string, b: string)
    requires Inside(a)
    requires Split(a[1..] + b) == Front(Split(a[1..])) + Split(Last(Split(a[1..])) + b)
    ensures Split(a + b) == Front(Split(a)) + Split(Last(Split(a)) + b)
  {
    InsideLine(a, b);
    SplitInside(a);
    SplitInside(a + b);
    var rest := Split(a[1..]);
    if |rest| == 1 {
      OneLine(a[1..]);
      assert [a[0]] + a[1..] == a;
      assert Split(a) == [a] && Front([a]) == [] && Last([a]) == a;
    } else {
      FrontLastHead([a[0]] + rest[0], rest);
      HeadOfAppend([a[0]] + rest[0], Front(rest), Split(Last(rest) + b));
    }
  }

  lemma HeadOfAppend<T>(x: T, a: seq<T>, b: seq<T>)
    requires a != []
    ensures (a + b)[0] == a[0] && [x] + (a + b)[1..] == [x] + a[1..] + b
  {
  }

  lemma {:induction false} OneLine(s: string)
    requires |Split(s)| == 1
    ensures Split(s) == [s]
  {
    if s != "" {
      OneLine(s[1..]);
      assert [s[0]] + s[1..] == s;
    }
  }

  datatype Fed = Fed(emitted: seq<string>, remainder: string)

  /** What Push leaves after a list of chunks, by its contract. */
  function Feed(chunks: seq<string>): Fed
  {
    if chunks == [] then Fed([], "")
    else
      var before := Feed(Front(chunks));
      var parts := Split(before.remainder + Last(chunks));
      Fed(before.emitted + Front(parts), Last(parts))
  }

  /** The lines emitted and the remainder depend only on the whole text, not on
      where it was cut. */
  lemma {:induction false} ChunkIndependence(chunks: seq<string>)
    ensures var parts := Split(Flatten(chunks));
            Feed(chunks) == Fed(Front(parts), Last(parts))
    decreases |chunks|
  {
    if chunks != [] {
      ChunkIndependence(Front(chunks));
      FlattenLast(chunks);
      var before := Flatten(Front(chunks));
      SplitConcat(before, Last(chunks));
      FrontLastAppend(Front(Split(before)), Split(Last(Split(before)) + Last(chunks)));
    }
  }

  lemma FlattenLast(chunks: seq<string>)
    requires chunks != []
    ensures Flatten(chunks) == Flatten(Front(chunks)) + Last(chunks)
  {
    assert chunks == Front(chunks) + [Last(chunks)];
    FlattenSnoc(Front(chunks), Last(chunks));
  }
}
