// packages/flutter-ultra-runtime/src/launchApp.ts:260-300
//
// The command line of a launch, read as a command-line parser reads it: options
// with their texts.
module LaunchArgs {
  import opened Collections
  import opened DartDefines
  import opened Decimals

  // An option and the text it was given.
  datatype Setting = Setting(name: string, text: string)

  // A command-line parser: which options take the next argument as their text, and
  // what an argument says by itself.
  datatype Parser = Parser(takesNext: string -> bool, inline: string -> seq<Setting>)

  /** The settings that arguments make, in order. */
  function Settings(args: seq<string>, p: Parser): seq<Setting>
  {
    if args == [] then []
    else if p.takesNext(args[0]) && |args| > 1 then [Setting(args[0], args[1])] + Settings(args[2..], p)
    else p.inline(args[0]) + Settings(args[1..], p)
  }

  /** No option is left without its text at the end. */
  predicate Complete(args: seq<string>, p: Parser)
  {
    if args == [] then true
    else if p.takesNext(args[0]) then |args| > 1 && Complete(args[2..], p)
    else Complete(args[1..], p)
  }

  ghost predicate Reads(args: seq<string>, p: Parser, settings: seq<Setting>)
  {
    Complete(args, p) && Settings(args, p) == settings
  }

  lemma {:induction false} SettingsAppend(a: seq<string>, b: seq<string>, p: Parser, s: seq<Setting>, t: seq<Setting>)
    requires Reads(a, p, s) && Reads(b, p, t)
    ensures Reads(a + b, p, s + t)
    decreases |a|
  {
    if a == [] {
      assert a + b == b && s + t == t;
    } else if p.takesNext(a[0]) {
      assert (a + b)[0] == a[0] && (a + b)[1] == a[1] && (a + b)[2..] == a[2..] + b;
      SettingsAppend(a[2..], b, p, Settings(a[2..], p), t);
      AppendAssoc([Setting(a[0], a[1])], Settings(a[2..], p), t);
    } else {
      assert (a + b)[0] == a[0] && (a + b)[1..] == a[1..] + b;
      SettingsAppend(a[1..], b, p, Settings(a[1..], p), t);
      AppendAssoc(p.inline(a[0]), Settings(a[1..], p), t);
    }
  }

  /** An argument that says something by itself. */
  predicate Says(a: string, p: Parser, s: Setting) { !p.takesNext(a) && p.inline(a) == [s] }

  lemma ReadsOne(a: string, p: Parser, s: Setting)
    requires Says(a, p, s)
    ensures Reads([a], p, [s])
  {
    assert [a][1..] == [] && [s] + [] == [s];
  }

  function If(present: bool, s: Setting): seq<Setting>
  {
    if present then [s] else []
  }

  /** One more argument, if it is there. */
  lemma ReadsWith(args: seq<string>, p: Parser, before: seq<Setting>, present: bool, a: string, s: Setting)
    requires Reads(args, p, before) && Says(a, p, s)
    ensures Reads(With(args, present, a), p, before + If(present, s))
  {
    if present {
      ReadsOne(a, p, s);
      SettingsAppend(args, [a], p, before, [s]);
    } else {
      assert before + [] == before;
    }
  }

  lemma ReadsPair(flag: string, text: string, p: Parser)
    requires p.takesNext(flag)
    ensures Reads([flag, text], p, [Setting(flag, text)])
  {
    assert [flag, text][2..] == [];
  }

  function BrowserFlag(flag: string): Setting { Setting("--web-browser-flag", flag) }

  function BrowserFlags(flags: seq<string>): seq<Setting>
  {
    seq(|flags|, i requires 0 <= i < |flags| => BrowserFlag(flags[i]))
  }

  lemma {:induction false} ReadsFlags(args: seq<string>, p: Parser, before: seq<Setting>, flags: seq<string>)
    requires Reads(args, p, before)
    requires forall f :: Says("--web-browser-flag=" + f, p, BrowserFlag(f))
    ensures Reads(WithBrowserFlags(args, flags), p, before + BrowserFlags(flags))
    decreases |flags|
  {
    if flags == [] {
      assert before + [] == before;
    } else {
      var front, last := flags[..|flags| - 1], flags[|flags| - 1];
      ReadsFlags(args, p, before, front);
      ReadsWith(WithBrowserFlags(args, front), p, before + BrowserFlags(front), true,
                "--web-browser-flag=" + last, BrowserFlag(last));
      assert before + BrowserFlags(flags) == (before + BrowserFlags(front)) + If(true, BrowserFlag(last));
    }
  }

  function DefineSetting(key: string, text: string): Setting { Setting(DART_DEFINE, key + "=" + text) }

  function Defines(keys: seq<string>, m: map<string, string>): seq<Setting>
    requires forall k :: k in keys ==> k in m
  {
    seq(|keys|, i requires 0 <= i < |keys| => DefineSetting(keys[i], m[keys[i]]))
  }

  lemma {:induction false} ReadsDefines(keys: seq<string>, m: map<string, string>, p: Parser)
    requires forall k :: k in keys ==> k in m
    requires forall key, text :: Says(DefineArg(key, text), p, DefineSetting(key, text))
    ensures Reads(DefineArgs(keys, m), p, Defines(keys, m))
    decreases |keys|
  {
    if keys != [] {
      var front, k := keys[..|keys| - 1], keys[|keys| - 1];
      ReadsDefines(front, m, p);
      ReadsOne(DefineArg(k, m[k]), p, DefineSetting(k, m[k]));
      SettingsAppend(DefineArgs(front, m), [DefineArg(k, m[k])], p, Defines(front, m), [DefineSetting(k, m[k])]);
      assert Defines(keys, m) == Defines(front, m) + [DefineSetting(k, m[k])];
    }
  }

  // ---------------------------------------------------------------- the parser of flutter run

  predicate TakesNext(a: string) { a == "-t" || a == "-d" || a == "--flavor" }

  /** An argument of the form name=text. */
  function Inline(a: string): seq<Setting>
  {
    var i := IndexOf(a, '=');
    if i < |a| then [Setting(a[..i], a[i + 1..])] else []
  }

  function InlineArg(name: string, text: string): string { name + "=" + text }

  lemma InlineOf(name: string, text: string)
    requires '=' !in name
    ensures Inline(InlineArg(name, text)) == [Setting(name, text)]
  {
    IndexOfFirst(name, text, '=');
    var a := InlineArg(name, text);
    assert a == name + ['='] + text;
    assert a[|name|] == '=' && a[..|name|] == name && a[|name| + 1..] == text;
  }

  // Reading these is all that matters of the parser.
  ghost predicate Understands(p: Parser)
  {
    && p.takesNext("-t") && p.takesNext("-d") && p.takesNext("--flavor")
    && !p.takesNext("run") && p.inline("run") == [] && !p.takesNext("--machine") && p.inline("--machine") == []
    && forall name, text {:trigger InlineArg(name, text)} ::
         '=' !in name ==> Says(InlineArg(name, text), p, Setting(name, text))
  }

  lemma FlutterUnderstands()
    ensures Understands(Parser(TakesNext, Inline))
  {
    forall name, text | '=' !in name
      ensures Says(InlineArg(name, text), Parser(TakesNext, Inline), Setting(name, text))
    {
      InlineOf(name, text);
      assert InlineArg(name, text)[|name|] == '=';
      HasNoEquals();
    }
  }

  lemma HasNoEquals()
    ensures forall a :: TakesNext(a) ==> '=' !in a
  {
  }

  /** A port is printed as its decimal number. */
  lemma PortIsRead(port: int)
    ensures port >= 0 ==> AllDigits(IntText(port)) && ParseDecimal(IntText(port)) == port
    ensures port < 0 ==> IntText(port) == "-" + IntText(-port)
  {
    DecimalRoundTrip(if port < 0 then -port else port);
  }

  // ---------------------------------------------------------------- the options of a launch

  predicate NotEmpty(text: Option<string>) { text.Some? && text.value != "" }

  /** The device is the web server where that is the mode, the flavor the explicit
      one, else the configuration's. */
  function RunSettings(input: LaunchAppInput, cfg: Option<VscodeLaunchConfig>): seq<Setting>
  {
    var device := if input.webLaunchMode == Some(WebServer) then "web-server" else input.device;
    var flavor := if NotEmpty(input.flavor) || cfg.None? then input.flavor else cfg.value.flavor;
    [Setting("-t", input.target)] + [Setting("-d", device)]
    + If(NotEmpty(flavor), Setting("--flavor", flavor.GetOr("")))
  }

  /** Headless, if Chrome's usual mode is asked of a browser and nothing speaks
      against it. */
  predicate Headless(input: LaunchAppInput)
  {
    && (input.webLaunchMode.Some? ==> input.webLaunchMode.value == Chrome)
    && (input.headless.Some? ==> input.headless.value)
    && (IsDevice(input.device, "chrome") || IsDevice(input.device, "edge") || IsDevice(input.device, "web-server"))
    && forall i :: 0 <= i < |input.webBrowserFlags.GetOr([])| ==>
         !MentionsHeadless(input.webBrowserFlags.GetOr([])[i])
  }

  predicate IsDevice(device: string, name: string)
  {
    |device| == |name| && IgnoringCaseAt(device, name, 0)
  }

  /** A letter or its capital; anything else only itself. */
  predicate SameLetter(c: char, lower: char)
  {
    c == lower || ('a' <= lower <= 'z' && c as int + 32 == lower as int)
  }

  predicate MentionsHeadless(flag: string)
  {
    exists i :: 0 <= i <= |flag| - |"headless"| && IgnoringCaseAt(flag, "headless", i)
  }

  predicate IgnoringCaseAt(s: string, lower: string, i: nat)
    requires i + |lower| <= |s|
  {
    forall k :: 0 <= k < |lower| ==> SameLetter(s[i + k], lower[k])
  }

  function FrontSettings(input: LaunchAppInput): seq<Setting>
  {
    If(NotEmpty(input.webRenderer), Setting("--web-renderer", input.webRenderer.GetOr("")))
    + If(input.webPort.Some?, Setting("--web-port", IntText(input.webPort.GetOr(0))))
    + If(NotEmpty(input.webHostname), Setting("--web-hostname", input.webHostname.GetOr("")))
  }

  function BackSettings(input: LaunchAppInput): seq<Setting>
  {
    If(Headless(input), BrowserFlag("--headless=new"))
    + BrowserFlags(input.webBrowserFlags.GetOr([]))
    + If(NotEmpty(input.splitDebugInfo), Setting("--split-debug-info", input.splitDebugInfo.GetOr("")))
  }

  function AllSettings(input: LaunchAppInput, cfg: Option<VscodeLaunchConfig>): seq<Setting>
  {
    RunSettings(input, cfg) + FrontSettings(input) + BackSettings(input)
  }

  predicate NoCapitals(s: string) { forall i :: 0 <= i < |s| ==> !('A' <= s[i] <= 'Z') }

  lemma EqualsIff(s: string, lower: string)
    requires NoCapitals(lower)
    ensures EqualsIgnoreCase(s, lower) <==> IsDevice(s, lower)
  {
    if |s| == |lower| {
      forall i | 0 <= i < |s| ensures LowerChar(s[i]) == lower[i] <==> SameLetter(s[i + 0], lower[i]) {
        assert !('A' <= lower[i] <= 'Z');
      }
    }
  }

  lemma {:induction false} ContainsIff(s: string, lower: string)
    requires NoCapitals(lower)
    ensures ContainsIgnoreCase(s, lower) <==> exists i :: 0 <= i <= |s| - |lower| && IgnoringCaseAt(s, lower, i)
  {
    if |s| >= |lower| {
      EqualsIff(s[..|lower|], lower);
      assert IgnoringCaseAt(s[..|lower|], lower, 0) <==> IgnoringCaseAt(s, lower, 0);
      if s != "" {
        ContainsIff(s[1..], lower);
        assert forall i :: 0 <= i <= |s| - 1 - |lower| ==>
            (IgnoringCaseAt(s[1..], lower, i) <==> IgnoringCaseAt(s, lower, i + 1));
        assert forall i :: 1 <= i <= |s| - |lower| ==>
            (IgnoringCaseAt(s[1..], lower, i - 1) <==> IgnoringCaseAt(s, lower, i));
      }
    }
  }

  lemma HeadlessIff(input: LaunchAppInput)
    ensures AddsHeadless(input) <==> Headless(input)
  {
    var flags := input.webBrowserFlags.GetOr([]);
    assert NoCapitals("chrome") && NoCapitals("edge") && NoCapitals("web-server") && NoCapitals("headless");
    EqualsIff(input.device, "chrome");
    EqualsIff(input.device, "edge");
    EqualsIff(input.device, "web-server");
    forall f ensures ContainsIgnoreCase(f, "headless") <==> MentionsHeadless(f) {
      ContainsIff(f, "headless");
    }
    assert forall i :: 0 <= i < |flags| ==> flags[i] in flags;
  }

  lemma ReadsRun(input: LaunchAppInput, cfg: Option<VscodeLaunchConfig>, p: Parser)
    requires Understands(p)
    ensures Reads(RunArgs(input, cfg), p, RunSettings(input, cfg))
  {
    var device, flavor := EffectiveDevice(input), EffectiveFlavor(input, cfg);
    var t, d := [Setting("-t", input.target)], [Setting("-d", device)];
    ReadsCommand(p);
    ReadsPair("-t", input.target, p);
    ReadsPair("-d", device, p);
    SettingsAppend(["run", "--machine"], ["-t", input.target], p, [], t);
    SettingsAppend(["run", "--machine"] + ["-t", input.target], ["-d", device], p, [] + t, d);
    assert [] + t + d == t + d;
    if flavor.Some? {
      ReadsPair("--flavor", flavor.value, p);
      SettingsAppend(["run", "--machine"] + ["-t", input.target] + ["-d", device], ["--flavor", flavor.value], p,
                     t + d, [Setting("--flavor", flavor.value)]);
    }
  }

  lemma ReadsCommand(p: Parser)
    requires Understands(p)
    ensures Reads(["run", "--machine"], p, [])
  {
    ReadsWord("run", p);
    ReadsWord("--machine", p);
    SettingsAppend(["run"], ["--machine"], p, [], []);
    assert ["run"] + ["--machine"] == ["run", "--machine"];
  }

  lemma ReadsWord(a: string, p: Parser)
    requires !p.takesNext(a) && p.inline(a) == []
    ensures Reads([a], p, [])
  {
    assert [a][1..] == [];
  }

  lemma SaysArg(literal: string, name: string, text: string, p: Parser)
    requires Understands(p) && literal == name + "=" && '=' !in name
    ensures Says(literal + text, p, Setting(name, text))
  {
    AppendAssoc(name, "=", text);
    assert literal + text == InlineArg(name, text);
  }

  lemma SaysWeb(renderer: string, port: string, host: string, split: string, p: Parser)
    requires Understands(p)
    ensures Says("--web-renderer=" + renderer, p, Setting("--web-renderer", renderer))
    ensures Says("--web-port=" + port, p, Setting("--web-port", port))
    ensures Says("--web-hostname=" + host, p, Setting("--web-hostname", host))
    ensures Says("--web-browser-flag=--headless=new", p, BrowserFlag("--headless=new"))
    ensures Says("--split-debug-info=" + split, p, Setting("--split-debug-info", split))
    ensures forall f :: Says("--web-browser-flag=" + f, p, BrowserFlag(f))
  {
    SaysArg("--web-renderer=", "--web-renderer", renderer, p);
    SaysArg("--web-port=", "--web-port", port, p);
    SaysArg("--web-hostname=", "--web-hostname", host, p);
    SaysArg("--web-browser-flag=", "--web-browser-flag", "--headless=new", p);
    assert "--web-browser-flag=" + "--headless=new" == "--web-browser-flag=--headless=new";
    SaysArg("--split-debug-info=", "--split-debug-info", split, p);
    forall f ensures Says("--web-browser-flag=" + f, p, BrowserFlag(f)) {
      SaysArg("--web-browser-flag=", "--web-browser-flag", f, p);
    }
  }

  lemma SaysDefines(p: Parser)
    requires Understands(p)
    ensures forall key, text :: Says(DefineArg(key, text), p, DefineSetting(key, text))
  {
    forall key, text ensures Says(DefineArg(key, text), p, DefineSetting(key, text)) {
      assert DefineArg(key, text) == InlineArg(DART_DEFINE, key + "=" + text);
    }
  }

  function FrontArgs(args: seq<string>, input: LaunchAppInput): seq<string>
  {
    var r := With(args, Truthy(input.webRenderer), "--web-renderer=" + input.webRenderer.GetOr(""));
    var q := With(r, input.webPort.Some?, "--web-port=" + IntText(input.webPort.GetOr(0)));
    With(q, Truthy(input.webHostname), "--web-hostname=" + input.webHostname.GetOr(""))
  }

  function BackArgs(args: seq<string>, input: LaunchAppInput): seq<string>
  {
    var n := With(args, AddsHeadless(input), "--web-browser-flag=--headless=new");
    var b := WithBrowserFlags(n, input.webBrowserFlags.GetOr([]));
    With(b, Truthy(input.splitDebugInfo), "--split-debug-info=" + input.splitDebugInfo.GetOr(""))
  }

  lemma ReadsFront(args: seq<string>, p: Parser, before: seq<Setting>, input: LaunchAppInput)
    requires Reads(args, p, before) && Understands(p)
    ensures Reads(FrontArgs(args, input), p, before + FrontSettings(input))
  {
    var renderer, port := input.webRenderer.GetOr(""), IntText(input.webPort.GetOr(0));
    var host := input.webHostname.GetOr("");
    SaysWeb(renderer, port, host, "", p);
    var r := With(args, Truthy(input.webRenderer), "--web-renderer=" + renderer);
    var s1 := before + If(Truthy(input.webRenderer), Setting("--web-renderer", renderer));
    ReadsWith(args, p, before, Truthy(input.webRenderer), "--web-renderer=" + renderer,
              Setting("--web-renderer", renderer));
    var q := With(r, input.webPort.Some?, "--web-port=" + port);
    var s2 := s1 + If(input.webPort.Some?, Setting("--web-port", port));
    ReadsWith(r, p, s1, input.webPort.Some?, "--web-port=" + port, Setting("--web-port", port));
    ReadsWith(q, p, s2, Truthy(input.webHostname), "--web-hostname=" + host, Setting("--web-hostname", host));
    AppendAll(before, If(Truthy(input.webRenderer), Setting("--web-renderer", renderer)),
              If(input.webPort.Some?, Setting("--web-port", port)),
              If(Truthy(input.webHostname), Setting("--web-hostname", host)));
  }

  lemma ReadsBackParts(args: seq<string>, p: Parser, before: seq<Setting>,
                       headless: bool, flags: seq<string>, present: bool, split: string)
    requires Reads(args, p, before) && Understands(p)
    ensures var n := With(args, headless, "--web-browser-flag=--headless=new");
            Reads(With(WithBrowserFlags(n, flags), present, "--split-debug-info=" + split), p,
                  before + If(headless, BrowserFlag("--headless=new")) + BrowserFlags(flags)
                  + If(present, Setting("--split-debug-info", split)))
  {
    SaysWeb("", "", "", split, p);
    var n := With(args, headless, "--web-browser-flag=--headless=new");
    var s1 := before + If(headless, BrowserFlag("--headless=new"));
    ReadsWith(args, p, before, headless, "--web-browser-flag=--headless=new", BrowserFlag("--headless=new"));
    ReadsFlags(n, p, s1, flags);
    ReadsWith(WithBrowserFlags(n, flags), p, s1 + BrowserFlags(flags), present, "--split-debug-info=" + split,
              Setting("--split-debug-info", split));
  }

  lemma ReadsBack(args: seq<string>, p: Parser, before: seq<Setting>, input: LaunchAppInput)
    requires Reads(args, p, before) && Understands(p)
    ensures Reads(BackArgs(args, input), p, before + BackSettings(input))
  {
    HeadlessIff(input);
    var present, split := Truthy(input.splitDebugInfo), input.splitDebugInfo.GetOr("");
    var flags := input.webBrowserFlags.GetOr([]);
    ReadsBackParts(args, p, before, AddsHeadless(input), flags, present, split);
    AppendAll(before, If(Headless(input), BrowserFlag("--headless=new")), BrowserFlags(flags),
              If(present, Setting("--split-debug-info", split)));
  }

  lemma AppendAll<T>(a: seq<T>, b: seq<T>, c: seq<T>, d: seq<T>)
    ensures a + b + c + d == a + (b + c + d)
  {
  }

  lemma WebArgsParts(args: seq<string>, input: LaunchAppInput)
    ensures WithWebArgs(args, input) == BackArgs(FrontArgs(args, input), input)
  {
  }

  /** Whatever the texts hold, a command-line parser reads every option with the text
      meant for it, and nothing else: the run options, the web options, and one
      define for each merged key. */
  lemma LineIsRead(input: LaunchAppInput, cfg: Option<VscodeLaunchConfig>, args: seq<string>, p: Parser)
    returns (keys: seq<string>)
    requires CommandLine(input, cfg, args) && Understands(p)
    ensures Lists(keys, Merged(input, cfg))
    ensures Settings(args, p) == AllSettings(input, cfg) + Defines(keys, Merged(input, cfg))
  {
    keys := LineParts(input, cfg, args);
    ReadsFixed(input, cfg, p);
    ReadsLine(args, FixedArgs(input, cfg), keys, Merged(input, cfg), p, AllSettings(input, cfg));
  }

  lemma LineParts(input: LaunchAppInput, cfg: Option<VscodeLaunchConfig>, args: seq<string>) returns (keys: seq<string>)
    requires CommandLine(input, cfg, args)
    ensures Lists(keys, Merged(input, cfg))
    ensures args == FixedArgs(input, cfg) + DefineArgs(keys, Merged(input, cfg))
  {
    keys := PartsOf(args, FixedArgs(input, cfg), Merged(input, cfg));
  }

  lemma PartsOf(args: seq<string>, fixed: seq<string>, m: map<string, string>) returns (keys: seq<string>)
    requires fixed <= args && PrintsDefines(args[|fixed|..], m)
    ensures Lists(keys, m) && args == fixed + DefineArgs(keys, m)
  {
    keys :| Lists(keys, m) && args[|fixed|..] == DefineArgs(keys, m);
    SplitAt(args, |fixed|);
  }

  lemma ReadsLine(args: seq<string>, fixed: seq<string>, keys: seq<string>, m: map<string, string>, p: Parser,
                  s: seq<Setting>)
    requires Understands(p) && Reads(fixed, p, s) && Lists(keys, m) && args == fixed + DefineArgs(keys, m)
    ensures Settings(args, p) == s + Defines(keys, m)
  {
    SaysDefines(p);
    ReadsDefines(keys, m, p);
    ReadsBoth(args, fixed, DefineArgs(keys, m), p, s, Defines(keys, m));
  }

  lemma ReadsBoth(args: seq<string>, a: seq<string>, b: seq<string>, p: Parser, s: seq<Setting>, t: seq<Setting>)
    requires args == a + b && Reads(a, p, s) && Reads(b, p, t)
    ensures Settings(args, p) == s + t
  {
    SettingsAppend(a, b, p, s, t);
  }

  lemma ReadsFixed(input: LaunchAppInput, cfg: Option<VscodeLaunchConfig>, p: Parser)
    requires Understands(p)
    ensures Reads(FixedArgs(input, cfg), p, AllSettings(input, cfg))
  {
    var run, s := RunArgs(input, cfg), RunSettings(input, cfg);
    ReadsRun(input, cfg, p);
    ReadsFront(run, p, s, input);
    ReadsBack(FrontArgs(run, input), p, s + FrontSettings(input), input);
    WebArgsParts(run, input);
  }
}
