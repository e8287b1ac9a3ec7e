// packages/flutter-ultra-native-mobile/src/ssh.ts
//
// The command line an argv is printed to for a remote POSIX shell, and the
// shell's own reading of it (POSIX.1-2017, Shell Command Language).
module ShellQuoting {
  import opened Collections

  // ---------------------------------------------------------------- printing

  const ESCAPED_QUOTE := "'\\''"

  /** s.replace(/'/g, "'\\''") */
  function EscapeQuotes(s: string): string
  {
    if s == "" then ""
    else (if s[0] == '\'' then ESCAPED_QUOTE else [s[0]]) + EscapeQuotes(s[1..])
  }

  function ShellQuote(s: string): string
  {
    "'" + EscapeQuotes(s) + "'"
  }

  predicate IsNameStart(c: char) { 'A' <= c <= 'Z' || 'a' <= c <= 'z' || c == '_' }

  predicate IsNameChar(c: char) { IsNameStart(c) || '0' <= c <= '9' }

  /** /^[A-Za-z_][A-Za-z0-9_]*$/ */
  predicate IsName(s: string)
  {
    s != "" && IsNameStart(s[0]) && forall i :: 0 <= i < |s| ==> IsNameChar(s[i])
  }

  function Join(parts: seq<string>): string
  {
    if parts == [] then ""
    else if |parts| == 1 then parts[0]
    else parts[0] + " " + Join(parts[1..])
  }

  function QuoteAll(argv: seq<string>): seq<string>
  {
    if argv == [] then [] else [ShellQuote(argv[0])] + QuoteAll(argv[1..])
  }

  function Assignments(env: seq<(string, string)>): seq<string>
  {
    if env == [] then [] else [env[0].0 + "=" + ShellQuote(env[0].1)] + Assignments(env[1..])
  }

  datatype EnvError = InvalidEnvName(name: string)

  /** The first name the check rejects, in entry order. */
  function FirstBadName(env: seq<(string, string)>): (r: Option<string>)
    ensures r.None? <==> forall i :: 0 <= i < |env| ==> IsName(env[i].0)
  {
    if env == [] then None
    else if !IsName(env[0].0) then Some(env[0].0)
    else FirstBadName(env[1..])
  }

  /** `env` lists the entries of the record in order; None when it is not given. */
  function BuildShellCommand(argv: seq<string>, env: Option<seq<(string, string)>>): Result<string, EnvError>
  {
    if argv == [] then Ok("")
    else
      var command := Join(QuoteAll(argv));
      match env
      case None => Ok(command)
      case Some(entries) =>
        match FirstBadName(entries)
        case Some(name) => Err(InvalidEnvName(name))
        case None => Ok(Join(Assignments(entries)) + " " + command)
  }

  // ---------------------------------------------------------------- the shell

  // A character of a word, with whether some quoting protected it.
  datatype Mark = Mark(c: char, quoted: bool)
  type Word = seq<Mark>

  predicate IsBlank(c: char) { c == ' ' || c == '\t' }

  /** Unquoted, these end a word, start an expansion or open another kind of
      quoting (section 2.2): the tokeniser below does not go on past them. */
  predicate IsSpecial(c: char)
  {
    c in "|&;<>()$`\"*?[#~%!{}" || c == '\n'
  }

  // Section 2.3: `words` are complete, `word` is being built, if one is, and
  // `quoting` says that a single quote is open.
  datatype Scan = Scan(words: seq<Word>, word: Option<Word>, quoting: bool)

  /** The words of a command line (section 2.3), with single quotes (2.2.2) and
      backslashes (2.2.1) taken off. None when it is no sequence of plain words:
      an unterminated quote, an unquoted special character, or a NUL, where the
      command line would end. */
  function Tokenise(s: string, scan: Scan): Option<seq<Word>>
    decreases |s|
  {
    if s == "" then
      if scan.quoting then None else Some(EndWord(scan).words)
    else if s[0] == '\0' then None
    else if scan.quoting then
      if s[0] == '\'' then Tokenise(s[1..], scan.(quoting := false))
      else Tokenise(s[1..], Grow(scan, [Mark(s[0], true)]))
    else if IsBlank(s[0]) then Tokenise(s[1..], EndWord(scan))
    else if s[0] == '\'' then Tokenise(s[1..], Grow(scan, []).(quoting := true))
    else if s[0] == '\\' then
      if |s| == 1 || s[1] == '\0' then None
      else if s[1] == '\n' then Tokenise(s[2..], scan)
      else Tokenise(s[2..], Grow(scan, [Mark(s[1], true)]))
    else if IsSpecial(s[0]) then None
    else Tokenise(s[1..], Grow(scan, [Mark(s[0], false)]))
  }

  function Grow(scan: Scan, more: Word): Scan
  {
    scan.(word := Some(scan.word.GetOr([]) + more))
  }

  function EndWord(scan: Scan): Scan
  {
    if scan.word.None? then scan else Scan(scan.words + [scan.word.value], None, scan.quoting)
  }

  function Marks(s: string, quoted: bool): (w: Word)
    ensures |w| == |s|
  {
    seq(|s|, i requires 0 <= i < |s| => Mark(s[i], quoted))
  }

  /** Quote removal (section 2.6.7). */
  function Unquote(w: Word): (s: string)
    ensures |s| == |w|
  {
    seq(|w|, i requires 0 <= i < |w| => w[i].c)
  }

  /** A word that is an assignment in front of a command (section 2.9.1): an
      unquoted name, then an unquoted equals sign. */
  predicate IsAssignment(w: Word)
  {
    exists k :: 0 < k < |w| && w[k] == Mark('=', false) && UnquotedName(w[..k])
  }

  predicate UnquotedName(w: Word)
  {
    IsName(Unquote(w)) && forall i :: 0 <= i < |w| ==> !w[i].quoted
  }

  // What the shell is asked to run: the leading assignments, then the command.
  datatype Command = Command(assignments: seq<string>, argv: seq<string>)

  function Classify(words: seq<Word>): Command
  {
    if words == [] then Command([], [])
    else if IsAssignment(words[0]) then
      var rest := Classify(words[1..]);
      Command([Unquote(words[0])] + rest.assignments, rest.argv)
    else Command([], UnquoteAll(words))
  }

  function UnquoteAll(words: seq<Word>): seq<string>
  {
    if words == [] then [] else [Unquote(words[0])] + UnquoteAll(words[1..])
  }

  function ShellReads(line: string): Option<Command>
  {
    match Tokenise(line, Scan([], None, false))
    case None => None
    case Some(words) => Some(Classify(words))
  }

  // ---------------------------------------------------------------- one quoted word

  predicate NulFree(s: string) { forall i :: 0 <= i < |s| ==> s[i] != '\0' }

  ghost predicate AllNulFree(ss: seq<string>) { forall i :: 0 <= i < |ss| ==> NulFree(ss[i]) }

  lemma GrowLaws(scan: Scan, a: Word, b: Word)
    ensures Grow(Grow(scan, a), b) == Grow(scan, a + b)
    ensures scan.word.Some? ==> Grow(scan, []) == scan
    ensures scan.word.None? ==> Grow(scan, a).word == Some(a)
  {
    AppendAssoc(scan.word.GetOr([]), a, b);
    if scan.word.Some? {
      assert scan.word.value + [] == scan.word.value;
    } else {
      assert [] + a == a;
    }
  }

  lemma TokeniseQuotedChar(c: char, rest: string, scan: Scan)
    requires scan.quoting && c != '\'' && c != '\0'
    ensures Tokenise([c] + rest, scan) == Tokenise(rest, Grow(scan, [Mark(c, true)]))
  {
    assert ([c] + rest)[1..] == rest;
  }

  /** Inside a quote, an escaped quote closes it, adds itself and opens it again. */
  lemma TokeniseEscapedQuote(rest: string, scan: Scan)
    requires scan.quoting && scan.word.Some?
    ensures Tokenise(ESCAPED_QUOTE + rest, scan) == Tokenise(rest, Grow(scan, [Mark('\'', true)]))
  {
    var line := ESCAPED_QUOTE + rest;
    var closed := scan.(quoting := false);
    var grown := Grow(closed, [Mark('\'', true)]);
    assert Tokenise(line, scan) == Tokenise(line[1..], closed);
    assert line[1..][2..] == "'" + rest;
    assert Tokenise(line[1..], closed) == Tokenise("'" + rest, grown);
    assert ("'" + rest)[1..] == rest;
    GrowLaws(Grow(scan.(quoting := false), [Mark('\'', true)]), [], []);
  }

  /** Inside a quote, the escaped form of s reads back as s, all of it quoted. */
  lemma {:induction false} ReadEscaped(s: string, rest: string, scan: Scan)
    requires NulFree(s) && scan.quoting && scan.word.Some?
    ensures Tokenise(EscapeQuotes(s) + rest, scan) == Tokenise(rest, Grow(scan, Marks(s, true)))
    decreases |s|
  {
    if s == "" {
      assert "" + rest == rest;
      GrowLaws(scan, [], []);
    } else {
      var first := if s[0] == '\'' then ESCAPED_QUOTE else [s[0]];
      var grown := Grow(scan, [Mark(s[0], true)]);
      AppendAssoc(first, EscapeQuotes(s[1..]), rest);
      if s[0] == '\'' {
        TokeniseEscapedQuote(EscapeQuotes(s[1..]) + rest, scan);
      } else {
        TokeniseQuotedChar(s[0], EscapeQuotes(s[1..]) + rest, scan);
      }
      ReadEscaped(s[1..], rest, grown);
      assert [Mark(s[0], true)] + Marks(s[1..], true) == Marks(s, true);
      GrowLaws(scan, [Mark(s[0], true)], Marks(s[1..], true));
    }
  }

  /** A quoted string, wherever it starts, adds exactly its characters to the word. */
  lemma ReadQuoted(s: string, rest: string, scan: Scan)
    requires NulFree(s) && !scan.quoting
    ensures Tokenise(ShellQuote(s) + rest, scan) == Tokenise(rest, Grow(scan, Marks(s, true)))
  {
    var line := ShellQuote(s) + rest;
    assert line[1..] == EscapeQuotes(s) + ("'" + rest);
    var inside := Grow(scan, []).(quoting := true);
    ReadEscaped(s, "'" + rest, inside);
    assert ("'" + rest)[1..] == rest;
    GrowLaws(scan, [], Marks(s, true));
    assert [] + Marks(s, true) == Marks(s, true);
  }

  /** A NUL among the characters stops the shell there. */
  lemma {:induction false} NulStops(s: string, scan: Scan)
    requires '\0' in s
    ensures Tokenise(s, scan) == None
    decreases |s|
  {
    if s[0] != '\0' {
      assert '\0' in s[1..];
      if |s| > 1 && s[1] != '\0' {
        assert '\0' in s[2..];
      }
      forall t: Scan ensures Tokenise(s[1..], t) == None { NulStops(s[1..], t); }
      if |s| > 1 && s[1] != '\0' {
        forall t: Scan ensures Tokenise(s[2..], t) == None { NulStops(s[2..], t); }
      }
    }
  }

  // ---------------------------------------------------------------- the command line

  function QuotedWords(ss: seq<string>): (ws: seq<Word>)
    ensures |ws| == |ss|
  {
    if ss == [] then [] else [Marks(ss[0], true)] + QuotedWords(ss[1..])
  }

  lemma TokeniseBlank(rest: string, scan: Scan)
    requires !scan.quoting
    ensures Tokenise(" " + rest, scan) == Tokenise(rest, EndWord(scan))
  {
    assert (" " + rest)[1..] == rest;
  }

  lemma {:induction false} ReadArgv(argv: seq<string>, words: seq<Word>)
    requires AllNulFree(argv) && argv != []
    ensures Tokenise(Join(QuoteAll(argv)), Scan(words, None, false)) == Some(words + QuotedWords(argv))
    decreases |argv|
  {
    var scan := Scan(words, None, false);
    var one := Grow(scan, Marks(argv[0], true));
    GrowLaws(scan, Marks(argv[0], true), []);
    if |argv| == 1 {
      assert QuoteAll(argv) == [ShellQuote(argv[0])];
      ReadQuoted(argv[0], "", scan);
      assert ShellQuote(argv[0]) + "" == ShellQuote(argv[0]);
      assert QuotedWords(argv) == [Marks(argv[0], true)];
    } else {
      var tail := Join(QuoteAll(argv[1..]));
      assert QuoteAll(argv)[1..] == QuoteAll(argv[1..]);
      AppendAssoc(ShellQuote(argv[0]), " ", tail);
      ReadQuoted(argv[0], " " + tail, scan);
      TokeniseBlank(tail, one);
      ReadArgv(argv[1..], words + [Marks(argv[0], true)]);
      AppendAssoc(words, [Marks(argv[0], true)], QuotedWords(argv[1..]));
    }
  }

  lemma {:induction false} ClassifyQuoted(ss: seq<string>)
    ensures Classify(QuotedWords(ss)) == Command([], ss)
  {
    if ss != [] {
      assert !IsAssignment(Marks(ss[0], true));
      UnquoteQuoted(ss);
    }
  }

  lemma {:induction false} UnquoteQuoted(ss: seq<string>)
    ensures UnquoteAll(QuotedWords(ss)) == ss
  {
    if ss != [] {
      assert Unquote(Marks(ss[0], true)) == ss[0];
      UnquoteQuoted(ss[1..]);
    }
  }

  // ---------------------------------------------------------------- assignments

  function AssignmentWord(e: (string, string)): Word
  {
    Marks(e.0, false) + [Mark('=', false)] + Marks(e.1, true)
  }

  function AssignmentWords(env: seq<(string, string)>): seq<Word>
  {
    if env == [] then [] else [AssignmentWord(env[0])] + AssignmentWords(env[1..])
  }

  function PlainAssignments(env: seq<(string, string)>): seq<string>
  {
    if env == [] then [] else [env[0].0 + "=" + env[0].1] + PlainAssignments(env[1..])
  }

  lemma {:induction false} ReadPlain(s: string, rest: string, scan: Scan)
    requires !scan.quoting && scan.word.Some?
    requires forall i :: 0 <= i < |s| ==> IsNameChar(s[i]) || s[i] == '='
    ensures Tokenise(s + rest, scan) == Tokenise(rest, Grow(scan, Marks(s, false)))
    decreases |s|
  {
    if s == "" {
      assert "" + rest == rest;
      GrowLaws(scan, [], []);
    } else {
      assert (s + rest)[1..] == s[1..] + rest;
      ReadPlain(s[1..], rest, Grow(scan, [Mark(s[0], false)]));
      assert [Mark(s[0], false)] + Marks(s[1..], false) == Marks(s, false);
      GrowLaws(scan, [Mark(s[0], false)], Marks(s[1..], false));
    }
  }

  lemma ReadAssignment(e: (string, string), rest: string, words: seq<Word>)
    requires IsName(e.0) && NulFree(e.1)
    ensures Tokenise(e.0 + "=" + ShellQuote(e.1) + rest, Scan(words, None, false))
         == Tokenise(rest, Scan(words, Some(AssignmentWord(e)), false))
  {
    var name := e.0 + "=";
    var line := name + (ShellQuote(e.1) + rest);
    AppendAssoc(name, ShellQuote(e.1), rest);
    var first := Scan(words, Some([Mark(e.0[0], false)]), false);
    assert line[1..] == name[1..] + (ShellQuote(e.1) + rest);
    GrowLaws(Scan(words, None, false), [Mark(e.0[0], false)], []);
    ReadPlain(name[1..], ShellQuote(e.1) + rest, first);
    assert [Mark(e.0[0], false)] + Marks(name[1..], false) == Marks(e.0, false) + [Mark('=', false)];
    ReadQuoted(e.1, rest, Scan(words, Some(Marks(e.0, false) + [Mark('=', false)]), false));
  }

  ghost predicate GoodEnv(env: seq<(string, string)>)
  {
    forall i :: 0 <= i < |env| ==> IsName(env[i].0) && NulFree(env[i].1)
  }

  /** The printed assignments, a blank, and whatever follows. */
  lemma {:induction false} ReadAssignments(env: seq<(string, string)>, rest: string, words: seq<Word>)
    requires GoodEnv(env)
    ensures Tokenise(Join(Assignments(env)) + " " + rest, Scan(words, None, false))
         == Tokenise(rest, Scan(words + AssignmentWords(env), None, false))
    decreases |env|
  {
    var start := Scan(words, None, false);
    if env == [] {
      assert "" + " " + rest == " " + rest;
      assert words + [] == words;
      TokeniseBlank(rest, start);
    } else {
      var e := env[0];
      var printed := e.0 + "=" + ShellQuote(e.1);
      var next := Scan(words + [AssignmentWord(e)], None, false);
      if |env| == 1 {
        assert Assignments(env) == [printed];
        AppendAssoc(printed, " ", rest);
        ReadAssignment(e, " " + rest, words);
        TokeniseBlank(rest, Scan(words, Some(AssignmentWord(e)), false));
        assert AssignmentWords(env) == [AssignmentWord(e)];
      } else {
        var tail := Join(Assignments(env[1..])) + " " + rest;
        assert Assignments(env)[1..] == Assignments(env[1..]);
        assert Join(Assignments(env)) + " " + rest == printed + (" " + tail);
        ReadAssignment(e, " " + tail, words);
        TokeniseBlank(tail, Scan(words, Some(AssignmentWord(e)), false));
        ReadAssignments(env[1..], rest, words + [AssignmentWord(e)]);
        AppendAssoc(words, [AssignmentWord(e)], AssignmentWords(env[1..]));
      }
    }
  }

  lemma AssignmentIsAssignment(e: (string, string))
    requires IsName(e.0)
    ensures IsAssignment(AssignmentWord(e)) && Unquote(AssignmentWord(e)) == e.0 + "=" + e.1
  {
    var w := AssignmentWord(e);
    var k := |e.0|;
    assert w[..k] == Marks(e.0, false) && Unquote(w[..k]) == e.0;
    assert 0 < k < |w| && w[k] == Mark('=', false) && UnquotedName(w[..k]);
  }

  lemma {:induction false} ClassifyAssignments(env: seq<(string, string)>, ss: seq<string>)
    requires GoodEnv(env)
    ensures Classify(AssignmentWords(env) + QuotedWords(ss)) == Command(PlainAssignments(env), ss)
    decreases |env|
  {
    if env == [] {
      assert [] + QuotedWords(ss) == QuotedWords(ss);
      ClassifyQuoted(ss);
    } else {
      AssignmentIsAssignment(env[0]);
      assert (AssignmentWords(env) + QuotedWords(ss))[1..] == AssignmentWords(env[1..]) + QuotedWords(ss);
      ClassifyAssignments(env[1..], ss);
    }
  }

  // ---------------------------------------------------------------- round trip

  /** What the caller asked for; with an empty argv the environment is dropped. */
  function Asked(argv: seq<string>, env: Option<seq<(string, string)>>): Command
  {
    Command(if argv == [] then [] else PlainAssignments(env.GetOr([])), argv)
  }

  lemma RoundTrip(argv: seq<string>, env: Option<seq<(string, string)>>)
    requires AllNulFree(argv) && GoodEnv(env.GetOr([]))
    ensures BuildShellCommand(argv, env).Ok?
    ensures ShellReads(BuildShellCommand(argv, env).value) == Some(Asked(argv, env))
  {
    if argv != [] {
      if env.None? {
        ReadArgv(argv, []);
        assert [] + QuotedWords(argv) == QuotedWords(argv);
        ClassifyQuoted(argv);
      } else {
        ReadAssignments(env.value, Join(QuoteAll(argv)), []);
        assert [] + AssignmentWords(env.value) == AssignmentWords(env.value);
        ReadArgv(argv, AssignmentWords(env.value));
        ClassifyAssignments(env.value, argv);
      }
    }
  }

  lemma {:induction false} NulSurvivesEscape(s: string)
    requires !NulFree(s)
    ensures '\0' in EscapeQuotes(s)
  {
    if s[0] != '\0' {
      NulSurvivesEscape(s[1..]);
    }
  }

  lemma {:induction false} NulSurvivesJoin(parts: seq<string>, i: nat)
    requires i < |parts| && '\0' in parts[i]
    ensures '\0' in Join(parts)
    decreases |parts|
  {
    if i > 0 {
      NulSurvivesJoin(parts[1..], i - 1);
    }
  }

  lemma {:induction false} QuoteAllAt(argv: seq<string>, i: nat)
    requires i < |argv|
    ensures i < |QuoteAll(argv)| && QuoteAll(argv)[i] == ShellQuote(argv[i])
  {
    if i > 0 {
      QuoteAllAt(argv[1..], i - 1);
    }
  }

  lemma {:induction false} AssignmentsAt(env: seq<(string, string)>, i: nat)
    requires i < |env|
    ensures i < |Assignments(env)| && Assignments(env)[i] == env[i].0 + "=" + ShellQuote(env[i].1)
  {
    if i > 0 {
      AssignmentsAt(env[1..], i - 1);
    }
  }

  /** Whenever a command is built, the shell reads back exactly what was asked,
      empty strings and embedded quotes included, if and only if no argument and
      no value holds a NUL. */
  lemma RoundTripIff(argv: seq<string>, env: Option<seq<(string, string)>>)
    requires BuildShellCommand(argv, env).Ok?
    ensures ShellReads(BuildShellCommand(argv, env).value) == Some(Asked(argv, env))
       <==> argv == [] || (AllNulFree(argv) && GoodEnv(env.GetOr([])))
  {
    var line := BuildShellCommand(argv, env).value;
    if argv == [] || (AllNulFree(argv) && GoodEnv(env.GetOr([]))) {
      if argv != [] {
        RoundTrip(argv, env);
      }
    } else if !AllNulFree(argv) {
      var i :| 0 <= i < |argv| && !NulFree(argv[i]);
      NulSurvivesEscape(argv[i]);
      QuoteAllAt(argv, i);
      NulSurvivesJoin(QuoteAll(argv), i);
      NulStops(line, Scan([], None, false));
    } else {
      var i :| 0 <= i < |env.value| && !NulFree(env.value[i].1);
      NulSurvivesEscape(env.value[i].1);
      AssignmentsAt(env.value, i);
      NulSurvivesJoin(Assignments(env.value), i);
      NulStops(line, Scan([], None, false));
    }
  }

  /** The environment is refused exactly when one of its names is no shell name,
      and there is a command to prefix; the error names the first of them. */
  lemma {:induction false} RefusedIff(argv: seq<string>, env: seq<(string, string)>)
    ensures var r := BuildShellCommand(argv, Some(env));
            && (r.Err? <==> argv != [] && exists i :: 0 <= i < |env| && !IsName(env[i].0))
            && (r.Err? ==> exists i :: 0 <= i < |env| && FirstBadAt(env, i) && r.error.name == env[i].0)
    ensures BuildShellCommand([], Some(env)) == BuildShellCommand([], None) == Ok("")
  {
    if argv != [] && FirstBadName(env).Some? {
      var i := BadNameAt(env);
    }
  }

  predicate FirstBadAt(env: seq<(string, string)>, i: nat)
    requires i < |env|
  {
    !IsName(env[i].0) && forall j :: 0 <= j < i ==> IsName(env[j].0)
  }

  lemma {:induction false} BadNameAt(env: seq<(string, string)>) returns (i: nat)
    requires FirstBadName(env).Some?
    ensures i < |env| && FirstBadAt(env, i) && FirstBadName(env) == Some(env[i].0)
  {
    if !IsName(env[0].0) {
      i := 0;
    } else {
      i := BadNameAt(env[1..]);
      assert env[1..][i] == env[i + 1];
      i := i + 1;
      assert forall j :: 1 <= j < i ==> env[j] == env[1..][j - 1];
    }
  }

  const UPPER := "ABCDEFGHIJKLMNOPQRSTUVWXYZ"
  const LOWER := "abcdefghijklmnopqrstuvwxyz"
  const DIGITS := "0123456789"

  /** A shell name: letters, digits and underscores, and no digit in front. */
  lemma NameIff(s: string)
    ensures IsName(s)
       <==> && s != "" && s[0] !in DIGITS
            && forall i :: 0 <= i < |s| ==> s[i] in UPPER || s[i] in LOWER || s[i] in DIGITS || s[i] == '_'
  {
    forall c ensures 'A' <= c <= 'Z' <==> c in UPPER { UpperIff(c); }
    forall c ensures 'a' <= c <= 'z' <==> c in LOWER { LowerIff(c); }
    forall c ensures '0' <= c <= '9' <==> c in DIGITS { DigitIff(c); }
  }

  lemma UpperIff(c: char)
    ensures 'A' <= c <= 'Z' <==> c in UPPER
  {
    if 'A' <= c <= 'Z' { assert UPPER[c as int - 'A' as int] == c; }
  }

  lemma LowerIff(c: char)
    ensures 'a' <= c <= 'z' <==> c in LOWER
  {
    if 'a' <= c <= 'z' { assert LOWER[c as int - 'a' as int] == c; }
  }

  lemma DigitIff(c: char)
    ensures '0' <= c <= '9' <==> c in DIGITS
  {
    if '0' <= c <= '9' { assert DIGITS[c as int - '0' as int] == c; }
  }
}
