// packages/flutter-ultra-build/src/tools/lsp.ts:35-42
//
// The header part of a message, as the regular expression of the framer reads it,
// and as LSP 3.17's base protocol lays it out: lines of fields.
module LspHeader {
  import opened Collections
  import opened Decimals

  const CRLF := "\r\n"
  const CRLF2 := "\r\n\r\n"
  const CONTENT_LENGTH := "content-length:"

  predicate IsAscii(s: string) { forall i :: 0 <= i < |s| ==> s[i] as int < 128 }

  function IndexOf(s: string, pattern: string): (r: Option<nat>)
    ensures r.Some? ==> r.value + |pattern| <= |s|
  {
    if |s| < |pattern| then None
    else if s[..|pattern|] == pattern then Some(0)
    else if s == "" then None
    else
      match IndexOf(s[1..], pattern)
      case None => None
      case Some(i) => Some(i + 1)
  }

  /** The white space that the regular expression class \s matches. */
  predicate IsSpace(c: char)
  {
    || '\t' <= c <= '\r' || c == ' ' || c == '\U{00A0}' || c == '\U{1680}' || '\U{2000}' <= c <= '\U{200A}'
    || c == '\U{2028}' || c == '\U{2029}' || c == '\U{202F}' || c == '\U{205F}' || c == '\U{3000}' || c == '\U{FEFF}'
  }

  function Lower(c: char): char
  {
    if 'A' <= c <= 'Z' then (c as int + 32) as char else c
  }

  function LowerAll(s: string): (r: string)
    ensures |r| == |s|
  {
    seq(|s|, i requires 0 <= i < |s| => Lower(s[i]))
  }

  function SkipSpaces(s: string): string
  {
    if s != "" && IsSpace(s[0]) then SkipSpaces(s[1..]) else s
  }

  function LeadingDigits(s: string): (r: string)
    ensures AllDigits(r)
  {
    if s != "" && IsDigit(s[0]) then [s[0]] + LeadingDigits(s[1..]) else ""
  }

  /** /Content-Length:\s*(\d+)/i, anywhere in the header; the captured number. */
  function ContentLength(header: string): Option<nat>
  {
    match LengthHere(header)
    case Some(n) => Some(n)
    case None => if header == "" then None else ContentLength(header[1..])
  }

  function LengthHere(s: string): Option<nat>
  {
    var k := |CONTENT_LENGTH|;
    if |s| < k || LowerAll(s[..k]) != CONTENT_LENGTH then None
    else
      var digits := LeadingDigits(SkipSpaces(s[k..]));
      if digits == "" then None else Some(ParseDecimal(digits))
  }

  // ---------------------------------------------------------------- fields

  // The length field: its name, the white space and the number behind it, and the
  // rest of the line.
  datatype LengthField = LengthField(name: string, space: string, number: string, rest: string)

  function LengthLine(f: LengthField): string { f.name + f.space + f.number + f.rest }

  // Header lines: fields before the length, the length, fields behind it.
  datatype Header = Header(before: seq<string>, length: LengthField, behind: seq<string>)

  function HeaderLines(h: Header): seq<string>
  {
    h.before + [LengthLine(h.length)] + h.behind
  }

  /** The lines of a header, joined by CR LF. */
  function JoinLines(lines: seq<string>): string
  {
    if lines == [] then ""
    else if |lines| == 1 then lines[0]
    else lines[0] + CRLF + JoinLines(lines[1..])
  }

  /** ASCII without a CR, and not empty. */
  predicate IsLine(s: string)
  {
    s != "" && IsAscii(s) && forall i :: 0 <= i < |s| ==> s[i] != '\r'
  }

  const UPPER_NAME := "CONTENT-LENGTH:"

  /** Content-Length with its colon, in any case. */
  predicate IsName(s: string)
  {
    |s| == |CONTENT_LENGTH| && forall i :: 0 <= i < |s| ==> s[i] == CONTENT_LENGTH[i] || s[i] == UPPER_NAME[i]
  }

  /** It is somewhere in the line. */
  predicate Mentions(s: string)
  {
    exists i :: 0 <= i <= |s| - |CONTENT_LENGTH| && MentionsAt(s, i)
  }

  predicate MentionsAt(s: string, i: nat)
    requires i + |CONTENT_LENGTH| <= |s|
  {
    IsName(s[i..i + |CONTENT_LENGTH|])
  }

  // The white space of ASCII, but for CR, which ends a line.
  const BLANKS := {' ', '\t', '\n', '\U{0B}', '\U{0C}'}

  predicate IsLengthField(f: LengthField)
  {
    && IsName(f.name)
    && (forall i :: 0 <= i < |f.space| ==> f.space[i] in BLANKS)
    && f.number != "" && AllDigits(f.number)
    && (f.rest == "" || !IsDigit(f.rest[0]))
  }

  /** The first line that mentions Content-Length is the length field. */
  predicate IsHeader(h: Header)
  {
    && (forall i :: 0 <= i < |HeaderLines(h)| ==> IsLine(HeaderLines(h)[i]))
    && (forall i :: 0 <= i < |h.before| ==> !Mentions(h.before[i]))
    && IsLengthField(h.length)
  }

  // ---------------------------------------------------------------- where it ends

  predicate StartsLine(s: string) { s != "" && s[0] != '\r' }

  /** Up to the end of a line, no blank line begins. */
  lemma {:induction false} SkipLine(line: string, more: string)
    requires forall i :: 0 <= i < |line| ==> line[i] != '\r'
    requires StartsLine(more)
    ensures IndexOf(line + CRLF + more, CRLF2)
         == match IndexOf(more, CRLF2) case None => None case Some(i) => Some(|line| + 2 + i)
  {
    var s := line + CRLF + more;
    if line == "" {
      assert s[2] == more[0];
      assert |s| >= 4 ==> s[..4][2] == s[2];
      assert s[1..] == "\n" + more && s[1..][1..] == more;
      assert |s| >= 5 ==> s[1..][..4][0] == '\n';
    } else {
      assert |s| >= 4 ==> s[..4][0] == line[0];
      assert s[1..] == line[1..] + CRLF + more;
      SkipLine(line[1..], more);
    }
  }

  lemma {:induction false} LastLine(line: string)
    requires forall i :: 0 <= i < |line| ==> line[i] != '\r'
    ensures IndexOf(line + CRLF2, CRLF2) == Some(|line|)
  {
    if line != "" {
      assert (line + CRLF2)[..4][0] == line[0];
      assert (line + CRLF2)[1..] == line[1..] + CRLF2;
      LastLine(line[1..]);
    } else {
      assert line + CRLF2 == CRLF2;
    }
  }

  ghost predicate AreLines(lines: seq<string>)
  {
    forall i :: 0 <= i < |lines| ==> IsLine(lines[i])
  }

  lemma JoinFirst(lines: seq<string>)
    requires |lines| > 1
    ensures JoinLines(lines) + CRLF2 == lines[0] + CRLF + (JoinLines(lines[1..]) + CRLF2)
  {
    AppendAssoc(lines[0] + CRLF, JoinLines(lines[1..]), CRLF2);
  }

  lemma {:induction false} HeaderEnds(lines: seq<string>)
    requires lines != [] && AreLines(lines)
    ensures IsAscii(JoinLines(lines)) && StartsLine(JoinLines(lines))
    ensures IndexOf(JoinLines(lines) + CRLF2, CRLF2) == Some(|JoinLines(lines)|)
  {
    if |lines| == 1 {
      LastLine(lines[0]);
    } else {
      HeaderEnds(lines[1..]);
      JoinFirst(lines);
      SkipLine(lines[0], JoinLines(lines[1..]) + CRLF2);
    }
  }

  // ---------------------------------------------------------------- the length

  lemma NameHasNoBreak(i: nat)
    requires i < |CONTENT_LENGTH|
    ensures CONTENT_LENGTH[i] != '\r' && CONTENT_LENGTH[i] != '\n'
  {
    assert i == 0 || i == 1 || i == 2 || i == 3 || i == 4 || i == 5 || i == 6 || i == 7
        || i == 8 || i == 9 || i == 10 || i == 11 || i == 12 || i == 13 || i == 14;
  }

  lemma OneLetter(c: char, i: nat)
    requires i < |CONTENT_LENGTH|
    ensures Lower(c) == CONTENT_LENGTH[i] <==> c == CONTENT_LENGTH[i] || c == UPPER_NAME[i]
  {
    assert i == 0 || i == 1 || i == 2 || i == 3 || i == 4 || i == 5 || i == 6 || i == 7
        || i == 8 || i == 9 || i == 10 || i == 11 || i == 12 || i == 13 || i == 14;
  }

  lemma NameIff(s: string)
    ensures LowerAll(s) == CONTENT_LENGTH <==> IsName(s)
  {
    if |s| == |CONTENT_LENGTH| {
      forall i | 0 <= i < |s|
        ensures LowerAll(s)[i] == CONTENT_LENGTH[i] <==> s[i] == CONTENT_LENGTH[i] || s[i] == UPPER_NAME[i]
      {
        OneLetter(s[i], i);
      }
    }
  }

  lemma NotHere(s: string, i: nat)
    requires i < |s| && i < |CONTENT_LENGTH| && (s[i] == '\r' || s[i] == '\n')
    ensures LengthHere(s).None?
  {
    NameHasNoBreak(i);
    if |s| >= |CONTENT_LENGTH| {
      assert LowerAll(s[..|CONTENT_LENGTH|])[i] == s[i];
    }
  }

  /** A line that does not mention it is passed over. */
  lemma {:induction false} SkipOther(line: string, more: string)
    requires !Mentions(line)
    ensures ContentLength(line + CRLF + more) == ContentLength(more)
  {
    var s := line + CRLF + more;
    var k := |CONTENT_LENGTH|;
    if line == "" {
      NotHere(s, 0);
      assert s[1..] == "\n" + more && s[1..][1..] == more;
      NotHere(s[1..], 0);
    } else {
      assert s[1..] == line[1..] + CRLF + more;
      if |line| < k {
        NotHere(s, |line|);
      } else {
        assert !MentionsAt(line, 0) && s[..k] == line[0..0 + k];
        NameIff(s[..k]);
      }
      ShorterLine(line);
      SkipOther(line[1..], more);
    }
  }

  lemma ShorterLine(line: string)
    requires line != "" && !Mentions(line)
    ensures !Mentions(line[1..])
  {
    var k, rest := |CONTENT_LENGTH|, line[1..];
    forall i | 0 <= i <= |rest| - k ensures !MentionsAt(rest, i) {
      assert !MentionsAt(line, i + 1) && rest[i..i + k] == line[i + 1..i + 1 + k];
    }
  }

  lemma {:induction false} SkipSpacesAll(space: string, more: string)
    requires forall i :: 0 <= i < |space| ==> IsSpace(space[i])
    requires more != "" && !IsSpace(more[0])
    ensures SkipSpaces(space + more) == more
  {
    if space == "" {
      assert space + more == more;
    } else {
      assert (space + more)[1..] == space[1..] + more;
      SkipSpacesAll(space[1..], more);
    }
  }

  lemma {:induction false} LeadingDigitsAll(number: string, more: string)
    requires AllDigits(number) && (more == "" || !IsDigit(more[0]))
    ensures LeadingDigits(number + more) == number
  {
    if number == "" {
      assert number + more == more;
    } else {
      assert (number + more)[1..] == number[1..] + more;
      LeadingDigitsAll(number[1..], more);
    }
  }

  lemma LineParts(f: LengthField, more: string)
    ensures var s, k := LengthLine(f) + more, |f.name|;
            k <= |s| && s[..k] == f.name && s[k..] == f.space + (f.number + (f.rest + more))
  {
  }

  lemma ReadDigits(space: string, number: string, more: string)
    requires forall i :: 0 <= i < |space| ==> space[i] in BLANKS
    requires number != "" && AllDigits(number) && (more == "" || !IsDigit(more[0]))
    ensures LeadingDigits(SkipSpaces(space + (number + more))) == number
  {
    SkipSpacesAll(space, number + more);
    LeadingDigitsAll(number, more);
  }

  lemma ReadLength(f: LengthField, more: string)
    requires IsLengthField(f) && (more == "" || more[0] == '\r')
    ensures ContentLength(LengthLine(f) + more) == Some(ParseDecimal(f.number))
  {
    NameIff(f.name);
    LineParts(f, more);
    ReadDigits(f.space, f.number, f.rest + more);
    assert LengthHere(LengthLine(f) + more) == Some(ParseDecimal(f.number));
  }

  lemma {:induction false} LengthIsFound(before: seq<string>, f: LengthField, behind: seq<string>)
    requires IsLengthField(f) && forall i :: 0 <= i < |before| ==> !Mentions(before[i])
    ensures ContentLength(JoinLines(before + [LengthLine(f)] + behind)) == Some(ParseDecimal(f.number))
    decreases |before|
  {
    var lines := before + [LengthLine(f)] + behind;
    if before == [] {
      var more := if behind == [] then "" else CRLF + JoinLines(behind);
      assert lines[1..] == behind;
      assert JoinLines(lines) == LengthLine(f) + more;
      ReadLength(f, more);
    } else {
      assert lines[1..] == before[1..] + [LengthLine(f)] + behind;
      LengthIsFound(before[1..], f, behind);
      SkipOther(before[0], JoinLines(lines[1..]));
    }
  }

  /** Whatever fields stand before and behind it, the length is read as the number in
      its field, and the header ends where its last line does. */
  lemma HeaderIsRead(h: Header)
    requires IsHeader(h)
    ensures var text := JoinLines(HeaderLines(h));
            && IsAscii(text) && IndexOf(text + CRLF2, CRLF2) == Some(|text|)
            && ContentLength(text) == Some(ParseDecimal(h.length.number))
  {
    HeaderEnds(HeaderLines(h));
    LengthIsFound(h.before, h.length, h.behind);
  }
}
