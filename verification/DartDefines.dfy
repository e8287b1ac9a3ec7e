// packages/flutter-ultra-runtime/src/launchApp.ts
//
// `--dart-define` arguments: parsed from a VS Code configuration, merged with the
// explicit ones and printed on the `flutter run` command line.
module DartDefines {
  import opened Collections
  import opened Decimals

  const DART_DEFINE := "--dart-define"
  const DART_DEFINES := "--dart-defines"

  // ---------------------------------------------------------------- parsing

  datatype Define = Define(key: string, text: string)

  predicate IsLineTerminator(c: char)
  {
    c == '\n' || c == '\r' || c == '\U{2028}' || c == '\U{2029}'
  }

  predicate OneLine(s: string) { forall c :: c in s ==> !IsLineTerminator(c) }

  /** A key that survives printing: not empty and without '='. */
  predicate PlainKey(s: string) { s != "" && '=' !in s }

  function IndexOf(s: string, c: char): (i: nat)
    ensures i <= |s| && c !in s[..i] && (i < |s| ==> s[i] == c)
  {
    if s == "" || s[0] == c then 0 else 1 + IndexOf(s[1..], c)
  }

  /** s.match(/^([^=]+)=(.*)$/): `.` does not match a line terminator. */
  function KeyValue(s: string): Option<Define>
  {
    var i := IndexOf(s, '=');
    if 0 < i < |s| && OneLine(s[i + 1..]) then Some(Define(s[..i], s[i + 1..])) else None
  }

  /** a.match(/^--dart-defines?=([^=]+)=(.*)$/) */
  function Combined(a: string): Option<Define>
  {
    if DART_DEFINE + "=" <= a then KeyValue(a[|DART_DEFINE| + 1..])
    else if DART_DEFINES + "=" <= a then KeyValue(a[|DART_DEFINES| + 1..])
    else None
  }

  predicate IsFlag(a: string) { a == DART_DEFINE || a == DART_DEFINES }

  // What stands at the head of an argument list, and how many arguments it takes.
  datatype Head = Head(define: Option<Define>, used: nat)

  function ReadHead(args: seq<string>): (h: Head)
    requires args != []
    ensures 0 < h.used <= |args|
  {
    if Combined(args[0]).Some? then Head(Combined(args[0]), 1)
    else if IsFlag(args[0]) && |args| > 1 && KeyValue(args[1]).Some? then Head(KeyValue(args[1]), 2)
    else Head(None, 1)
  }

  function Found(d: Option<Define>): seq<Define> { if d.Some? then [d.value] else [] }

  /** The definitions that an argument list holds, in order. */
  function Definitions(args: seq<string>): seq<Define>
  {
    if args == [] then []
    else Found(ReadHead(args).define) + Definitions(args[ReadHead(args).used..])
  }

  /** `out[key] = value` on an object literal: setting `__proto__` to a string
      does nothing. */
  function Assign(out: map<string, string>, d: Define): map<string, string>
  {
    if d.key == "__proto__" then out else out[d.key := d.text]
  }

  function Apply(out: map<string, string>, ds: seq<Define>): map<string, string>
    decreases |ds|
  {
    if ds == [] then out else Apply(Assign(out, ds[0]), ds[1..])
  }

  function Parse(args: seq<string>): map<string, string> { Apply(map[], Definitions(args)) }

  method ParseDartDefinesFromArgs(args: seq<string>, initial: map<string, string>)
    returns (out: map<string, string>)
    ensures out == Apply(initial, Definitions(args))
  {
    out := initial;
    var i := 0;
    while i < |args|
      invariant i <= |args|
      invariant Apply(out, Definitions(args[i..])) == Apply(initial, Definitions(args))
    {
      NextHead(args, i, out);
      var combined := Combined(args[i]);
      if combined.Some? {
        HeadCombined(args, i);
        out := Assign(out, combined.value);
        i := i + 1;
        continue;
      }
      HeadNotCombined(args, i);
      if IsFlag(args[i]) && i + 1 < |args| {
        var kv := KeyValue(args[i + 1]);
        if kv.Some? {
          out := Assign(out, kv.value);
          i := i + 1;
        }
      }
      i := i + 1;
    }
  }

  /** Reading on from index i: the define at the head is assigned, and what it took
      is behind. */
  lemma NextHead(args: seq<string>, i: nat, out: map<string, string>)
    requires i < |args|
    ensures i + HeadAt(args, i).used <= |args|
    ensures Apply(out, Definitions(args[i..]))
         == Apply(AssignIf(out, HeadAt(args, i).define), Definitions(args[i + HeadAt(args, i).used..]))
  {
    var h := HeadAt(args, i);
    assert args[i..][h.used..] == args[i + h.used..];
    if h.define.Some? {
      ApplyFirst(h.define.value, Definitions(args[i + h.used..]));
    } else {
      assert [] + Definitions(args[i + h.used..]) == Definitions(args[i + h.used..]);
    }
  }

  function HeadAt(args: seq<string>, i: nat): Head
    requires i < |args|
  {
    ReadHead(args[i..])
  }

  function AssignIf(out: map<string, string>, d: Option<Define>): map<string, string>
  {
    if d.Some? then Assign(out, d.value) else out
  }

  lemma HeadCombined(args: seq<string>, i: nat)
    requires i < |args| && Combined(args[i]).Some?
    ensures HeadAt(args, i) == Head(Combined(args[i]), 1)
  {
  }

  lemma HeadNotCombined(args: seq<string>, i: nat)
    requires i < |args| && Combined(args[i]).None?
    ensures IsFlag(args[i]) && i + 1 < |args| && KeyValue(args[i + 1]).Some? ==>
              HeadAt(args, i) == Head(KeyValue(args[i + 1]), 2)
    ensures !(IsFlag(args[i]) && i + 1 < |args| && KeyValue(args[i + 1]).Some?) ==>
              HeadAt(args, i) == Head(None, 1)
  {
  }

  lemma ApplyFirst(d: Define, ds: seq<Define>)
    ensures forall out :: Apply(out, [d] + ds) == Apply(Assign(out, d), ds)
  {
    assert ([d] + ds)[1..] == ds;
  }

  /** The last definition of a key wins. */
  function LastValue(ds: seq<Define>, key: string): Option<string>
  {
    if ds == [] then None
    else if ds[|ds| - 1].key == key then Some(ds[|ds| - 1].text)
    else LastValue(ds[..|ds| - 1], key)
  }

  lemma {:induction false} ApplyAppend(out: map<string, string>, a: seq<Define>, b: seq<Define>)
    ensures Apply(out, a + b) == Apply(Apply(out, a), b)
    decreases |a|
  {
    if a == [] {
      assert a + b == b;
    } else {
      assert (a + b)[1..] == a[1..] + b;
      ApplyAppend(Assign(out, a[0]), a[1..], b);
    }
  }

  lemma {:induction false} LastDefinitionWins(out: map<string, string>, ds: seq<Define>, key: string)
    ensures Get(Apply(out, ds), key)
         == if key == "__proto__" || LastValue(ds, key).None? then Get(out, key) else LastValue(ds, key)
    decreases |ds|
  {
    if ds != [] {
      var k := |ds| - 1;
      assert ds == ds[..k] + [ds[k]];
      ApplyAppend(out, ds[..k], [ds[k]]);
      assert [ds[k]][1..] == [];
      LastDefinitionWins(out, ds[..k], key);
    }
  }

  /** Every key and value that parsing yields could have been printed. */
  predicate Printable(d: Define) { PlainKey(d.key) && OneLine(d.text) }

  lemma {:induction false} ParsedIsPrintable(args: seq<string>)
    ensures forall d :: d in Definitions(args) ==> Printable(d)
    decreases |args|
  {
    if args != [] {
      ParsedIsPrintable(args[ReadHead(args).used..]);
    }
  }

  // ---------------------------------------------------------------- the command line

  datatype WebLaunchMode = Chrome | ChromeHeaded | WebServer

  datatype LaunchAppInput = LaunchAppInput(
    target: string,
    device: string,
    flavor: Option<string>,
    dartDefines: Option<map<string, string>>,
    webRenderer: Option<string>,
    webPort: Option<int>,
    webHostname: Option<string>,
    webBrowserFlags: Option<seq<string>>,
    splitDebugInfo: Option<string>,
    headless: Option<bool>,
    webLaunchMode: Option<WebLaunchMode>)

  datatype VscodeLaunchConfig = VscodeLaunchConfig(
    flavor: Option<string>,
    args: Option<seq<string>>,
    toolArgs: Option<seq<string>>)

  /** A string JavaScript takes for true. */
  predicate Truthy(s: Option<string>) { s.Some? && s.value != "" }

  function IntText(n: int): string { if n < 0 then "-" + Decimal(-n) else Decimal(n) }

  function LowerChar(c: char): char
  {
    if 'A' <= c <= 'Z' then (c as int + 32) as char else c
  }

  predicate EqualsIgnoreCase(s: string, lower: string)
  {
    |s| == |lower| && forall i :: 0 <= i < |s| ==> LowerChar(s[i]) == lower[i]
  }

  predicate ContainsIgnoreCase(s: string, lower: string)
  {
    if |s| < |lower| then false
    else EqualsIgnoreCase(s[..|lower|], lower) || ContainsIgnoreCase(s[1..], lower)
  }

  function EffectiveDevice(input: LaunchAppInput): string
  {
    if input.webLaunchMode == Some(WebServer) then "web-server" else input.device
  }

  function EffectiveFlavor(input: LaunchAppInput, cfg: Option<VscodeLaunchConfig>): Option<string>
  {
    if Truthy(input.flavor) then input.flavor
    else if cfg.Some? && Truthy(cfg.value.flavor) then cfg.value.flavor
    else None
  }

  predicate AddsHeadless(input: LaunchAppInput)
  {
    && input.webLaunchMode.GetOr(Chrome) == Chrome
    && input.headless != Some(false)
    && (|| EqualsIgnoreCase(input.device, "chrome") || EqualsIgnoreCase(input.device, "edge")
        || EqualsIgnoreCase(input.device, "web-server"))
    && forall f :: f in input.webBrowserFlags.GetOr([]) ==> !ContainsIgnoreCase(f, "headless")
  }

  /** if (present) args.push(arg) */
  function With(args: seq<string>, present: bool, arg: string): seq<string>
  {
    if present then args + [arg] else args
  }

  function WithBrowserFlags(args: seq<string>, flags: seq<string>): seq<string>
  {
    if flags == [] then args
    else WithBrowserFlags(args, flags[..|flags| - 1]) + ["--web-browser-flag=" + flags[|flags| - 1]]
  }

  /** The arguments in front of the defines. */
  function FixedArgs(input: LaunchAppInput, cfg: Option<VscodeLaunchConfig>): seq<string>
  {
    WithWebArgs(RunArgs(input, cfg), input)
  }

  function RunArgs(input: LaunchAppInput, cfg: Option<VscodeLaunchConfig>): seq<string>
  {
    var args := ["run", "--machine"] + ["-t", input.target] + ["-d", EffectiveDevice(input)];
    match EffectiveFlavor(input, cfg)
    case Some(f) => args + ["--flavor", f]
    case None => args
  }

  function WithWebArgs(args: seq<string>, input: LaunchAppInput): seq<string>
  {
    var r := With(args, Truthy(input.webRenderer), "--web-renderer=" + input.webRenderer.GetOr(""));
    var p := With(r, input.webPort.Some?, "--web-port=" + IntText(input.webPort.GetOr(0)));
    var h := With(p, Truthy(input.webHostname), "--web-hostname=" + input.webHostname.GetOr(""));
    var n := With(h, AddsHeadless(input), "--web-browser-flag=--headless=new");
    var b := WithBrowserFlags(n, input.webBrowserFlags.GetOr([]));
    With(b, Truthy(input.splitDebugInfo), "--split-debug-info=" + input.splitDebugInfo.GetOr(""))
  }

  function ConfigArgs(cfg: Option<VscodeLaunchConfig>): seq<string>
  {
    if cfg.Some? then cfg.value.toolArgs.GetOr([]) + cfg.value.args.GetOr([]) else []
  }

  /** The defines of the VS Code configuration, overridden by the explicit ones. */
  function Merged(input: LaunchAppInput, cfg: Option<VscodeLaunchConfig>): map<string, string>
  {
    Parse(ConfigArgs(cfg)) + (input.dartDefines.GetOr(map[]) - {"__proto__"})
  }

  function DefineArg(key: string, text: string): string { DART_DEFINE + "=" + key + "=" + text }

  function DefineArgs(keys: seq<string>, m: map<string, string>): seq<string>
    requires forall k :: k in keys ==> k in m
  {
    if keys == [] then []
    else DefineArgs(keys[..|keys| - 1], m) + [DefineArg(keys[|keys| - 1], m[keys[|keys| - 1]])]
  }

  /** The keys of m, each once. */
  ghost predicate Lists(keys: seq<string>, m: map<string, string>)
  {
    Distinct(keys) && forall k :: k in keys <==> k in m
  }

  /** Object.assign(m, defines) */
  method ObjectAssign(m: map<string, string>, defines: map<string, string>) returns (r: map<string, string>)
    ensures r == m + (defines - {"__proto__"})
  {
    r := m;
    var left := defines.Keys;
    while left != {}
      invariant left <= defines.Keys
      invariant r == m + (defines - {"__proto__"} - left)
    {
      var k :| k in left;
      r := Assign(r, Define(k, defines[k]));
      left := left - {k};
    }
  }

  /** One argument for each define of m, in some order. */
  ghost predicate PrintsDefines(args: seq<string>, m: map<string, string>)
  {
    exists keys :: Lists(keys, m) && args == DefineArgs(keys, m)
  }

  ghost predicate CommandLine(input: LaunchAppInput, cfg: Option<VscodeLaunchConfig>, args: seq<string>)
  {
    && FixedArgs(input, cfg) <= args
    && PrintsDefines(args[|FixedArgs(input, cfg)|..], Merged(input, cfg))
  }

  /** The order in which Object.entries lists the defines is left open. */
  method BuildCliArgs(input: LaunchAppInput, cfg: Option<VscodeLaunchConfig>) returns (args: seq<string>)
    ensures CommandLine(input, cfg, args)
  {
    var mode := input.webLaunchMode.GetOr(Chrome);
    var effectiveDevice := if mode == WebServer then "web-server" else input.device;
    args := ["run", "--machine"];
    args := args + ["-t", input.target];
    args := args + ["-d", effectiveDevice];
    if Truthy(input.flavor) {
      args := args + ["--flavor", input.flavor.value];
    } else if cfg.Some? && Truthy(cfg.value.flavor) {
      args := args + ["--flavor", cfg.value.flavor.value];
    }
    args := BuildWebArgs(args, input, mode, effectiveDevice);

    var merged: map<string, string> := map[];
    if cfg.Some? {
      var allArgs := cfg.value.toolArgs.GetOr([]) + cfg.value.args.GetOr([]);
      merged := ParseDartDefinesFromArgs(allArgs, merged);
    }
    merged := ObjectAssign(merged, input.dartDefines.GetOr(map[]));
    var defines := PrintDefines(merged);
    AppendParts(args, defines);
    args := args + defines;
  }

  method BuildWebArgs(start: seq<string>, input: LaunchAppInput, mode: WebLaunchMode, effectiveDevice: string)
    returns (args: seq<string>)
    requires mode == input.webLaunchMode.GetOr(Chrome)
    requires effectiveDevice == EffectiveDevice(input)
    ensures args == WithWebArgs(start, input)
  {
    var isWebDevice :=
      || EqualsIgnoreCase(effectiveDevice, "chrome")
      || EqualsIgnoreCase(effectiveDevice, "edge")
      || EqualsIgnoreCase(effectiveDevice, "web-server");
    var isWebServer := mode == WebServer;
    args := start;
    if Truthy(input.webRenderer) { args := args + ["--web-renderer=" + input.webRenderer.value]; }
    if input.webPort.Some? { args := args + ["--web-port=" + IntText(input.webPort.value)]; }
    if Truthy(input.webHostname) { args := args + ["--web-hostname=" + input.webHostname.value]; }
    var userFlags := input.webBrowserFlags.GetOr([]);
    if !isWebServer {
      var hasHeadlessFlag := exists f :: f in userFlags && ContainsIgnoreCase(f, "headless");
      var wantHeadless := mode == Chrome && input.headless != Some(false);
      if isWebDevice && wantHeadless && !hasHeadlessFlag {
        args := args + ["--web-browser-flag=--headless=new"];
      }
    }
    ghost var before := args;
    for i := 0 to |userFlags|
      invariant args == WithBrowserFlags(before, userFlags[..i])
    {
      assert userFlags[..i + 1][..i] == userFlags[..i];
      args := args + ["--web-browser-flag=" + userFlags[i]];
    }
    PrefixAll(userFlags);
    if Truthy(input.splitDebugInfo) {
      args := args + ["--split-debug-info=" + input.splitDebugInfo.value];
    }
  }

  method PrintDefines(m: map<string, string>) returns (args: seq<string>)
    ensures PrintsDefines(args, m)
  {
    ghost var keys: seq<string> := [];
    args := [];
    var left := m.Keys;
    while left != {}
      invariant left <= m.Keys && Distinct(keys)
      invariant forall k :: k in keys <==> k in m && k !in left
      invariant args == DefineArgs(keys, m)
    {
      var k :| k in left;
      args := args + [DefineArg(k, m[k])];
      assert (keys + [k])[..|keys|] == keys;
      keys := keys + [k];
      left := left - {k};
    }
  }

  // ---------------------------------------------------------------- round trip

  /** A flag at the end would take the first printed define for its value. */
  predicate EndsInFlag(args: seq<string>) { args != [] && IsFlag(args[|args| - 1]) }

  /** The head depends on the first two arguments only. */
  lemma HeadOfAppend(a: seq<string>, b: seq<string>)
    requires a != []
    requires |a| == 1 && IsFlag(a[0]) ==> b == [] || KeyValue(b[0]).None?
    ensures ReadHead(a + b) == ReadHead(a)
  {
    assert (a + b)[0] == a[0];
    if |a| > 1 {
      assert (a + b)[1] == a[1];
    } else if b != [] {
      assert (a + b)[1] == b[0];
    }
  }

  lemma DropOfAppend<T>(a: seq<T>, b: seq<T>, n: nat)
    requires n <= |a|
    ensures (a + b)[n..] == a[n..] + b
  {
  }

  lemma {:induction false} DefinitionsAppend(a: seq<string>, b: seq<string>)
    requires EndsInFlag(a) ==> b == [] || KeyValue(b[0]).None?
    ensures Definitions(a + b) == Definitions(a) + Definitions(b)
    decreases |a|
  {
    if a == [] {
      assert a + b == b;
    } else {
      var h := ReadHead(a);
      HeadOfAppend(a, b);
      DropOfAppend(a, b, h.used);
      DefinitionsAppend(a[h.used..], b);
      AppendAssoc(Found(h.define), Definitions(a[h.used..]), Definitions(b));
    }
  }

  lemma {:induction false} FlagTakesNext(a: seq<string>, next: string, rest: seq<string>)
    requires EndsInFlag(a) && KeyValue(next).Some?
    ensures Definitions(a + ([next] + rest)) == Definitions(a) + ([KeyValue(next).value] + Definitions(rest))
    decreases |a|
  {
    if |a| == 1 {
      FlagAlone(a, next, rest);
    } else {
      var h := ReadHead(a);
      HeadOfAppend(a, [next] + rest);
      DropOfAppend(a, [next] + rest, h.used);
      HeadLeavesFlag(a);
      FlagTakesNext(a[h.used..], next, rest);
      AppendAssoc(Found(h.define), Definitions(a[h.used..]), [KeyValue(next).value] + Definitions(rest));
    }
  }

  lemma HeadLeavesFlag(a: seq<string>)
    requires |a| > 1 && EndsInFlag(a)
    ensures ReadHead(a).used < |a| && EndsInFlag(a[ReadHead(a).used..])
  {
    if |a| == 2 {
      FlagIsNoPair(a[1]);
      assert ReadHead(a).used == 1;
    }
    LastOfDrop(a, ReadHead(a).used);
  }

  lemma LastOfDrop<T>(a: seq<T>, n: nat)
    requires n < |a|
    ensures a[n..][|a| - n - 1] == a[|a| - 1]
  {
  }

  lemma FlagAlone(a: seq<string>, next: string, rest: seq<string>)
    requires |a| == 1 && IsFlag(a[0]) && KeyValue(next).Some?
    ensures Definitions(a + ([next] + rest)) == Definitions(a) + ([KeyValue(next).value] + Definitions(rest))
  {
    DefinesAreNoFlags(a[0]);
    var all := a + ([next] + rest);
    assert all[0] == a[0] && all[1] == next && all[2..] == rest;
    assert a[1..] == [];
  }

  lemma DefinesAreNoFlags(arg: string)
    ensures IsFlag(arg) ==> Combined(arg).None?
  {
  }

  lemma FlagIsNoPair(arg: string)
    ensures IsFlag(arg) ==> KeyValue(arg).None?
  {
    if IsFlag(arg) && KeyValue(arg).Some? {
      var i := IndexOf(arg, '=');
      NoEqualsSign(arg, i);
      assert false;
    }
  }

  lemma NoEqualsSign(arg: string, i: nat)
    requires IsFlag(arg) && i < |arg|
    ensures arg[i] != '='
  {
    assert arg[0] == '-' && arg[1] == '-' && arg[2] == 'd' && arg[3] == 'a' && arg[4] == 'r';
    assert arg[5] == 't' && arg[6] == '-' && arg[7] == 'd' && arg[8] == 'e' && arg[9] == 'f';
    assert arg[10] == 'i' && arg[11] == 'n' && arg[12] == 'e' && (|arg| == 14 ==> arg[13] == 's');
    assert i == 0 || i == 1 || i == 2 || i == 3 || i == 4 || i == 5 || i == 6 || i == 7
        || i == 8 || i == 9 || i == 10 || i == 11 || i == 12 || i == 13;
  }

  lemma {:induction false} IndexOfFirst(a: string, b: string, c: char)
    requires c !in a
    ensures IndexOf(a + [c] + b, c) == |a|
  {
    var s := a + [c] + b;
    if a != "" {
      assert s[1..] == a[1..] + [c] + b;
      IndexOfFirst(a[1..], b, c);
    }
  }

  lemma KeyValueRoundTrip(key: string, text: string)
    requires PlainKey(key) && OneLine(text)
    ensures KeyValue(key + "=" + text) == Some(Define(key, text))
  {
    IndexOfFirst(key, text, '=');
    var s := key + "=" + text;
    assert s[..|key|] == key && s[|key| + 1..] == text;
  }

  lemma DefineArgRoundTrip(key: string, text: string)
    requires PlainKey(key) && OneLine(text)
    ensures Combined(DefineArg(key, text)) == Some(Define(key, text))
  {
    var a := DefineArg(key, text);
    assert a == (DART_DEFINE + "=") + (key + "=" + text);
    assert a[|DART_DEFINE| + 1..] == key + "=" + text;
    KeyValueRoundTrip(key, text);
  }

  ghost predicate AllPrintable(m: map<string, string>)
  {
    forall k :: k in m ==> PlainKey(k) && OneLine(m[k])
  }

  function Pairs(keys: seq<string>, m: map<string, string>): seq<Define>
    requires forall k :: k in keys ==> k in m
  {
    if keys == [] then []
    else Pairs(keys[..|keys| - 1], m) + [Define(keys[|keys| - 1], m[keys[|keys| - 1]])]
  }

  lemma {:induction false} PrintedDefinitions(keys: seq<string>, m: map<string, string>)
    requires AllPrintable(m) && forall k :: k in keys ==> k in m
    ensures Definitions(DefineArgs(keys, m)) == Pairs(keys, m) && !EndsInFlag(DefineArgs(keys, m))
    decreases |keys|
  {
    if keys != [] {
      var front, k := keys[..|keys| - 1], keys[|keys| - 1];
      PrintedDefinitions(front, m);
      DefineArgRoundTrip(k, m[k]);
      DefinitionsAppend(DefineArgs(front, m), [DefineArg(k, m[k])]);
      assert [DefineArg(k, m[k])][1..] == [];
      NotAFlag(k, m[k]);
    }
  }

  lemma NotAFlag(key: string, text: string)
    ensures !IsFlag(DefineArg(key, text))
  {
    assert DefineArg(key, text)[|DART_DEFINE|] == '=';
  }

  lemma {:induction false} ApplyPairs(out: map<string, string>, keys: seq<string>, m: map<string, string>, k: string)
    requires "__proto__" !in m && forall k :: k in keys ==> k in m
    ensures Get(Apply(out, Pairs(keys, m)), k) == if k in keys then Some(m[k]) else Get(out, k)
    decreases |keys|
  {
    if keys != [] {
      var front, last := keys[..|keys| - 1], keys[|keys| - 1];
      ApplyPairs(out, front, m, k);
      ApplyAppend(out, Pairs(front, m), [Define(last, m[last])]);
      assert [Define(last, m[last])][1..] == [];
      assert k in keys <==> k in front || k == last;
    }
  }

  lemma SameGets(a: map<string, string>, b: map<string, string>)
    requires forall k :: Get(a, k) == Get(b, k)
    ensures a == b
  {
    forall k | k in a ensures k in b && a[k] == b[k] { assert Get(a, k) == Get(b, k); }
    forall k | k in b ensures k in a { assert Get(a, k) == Get(b, k); }
  }

  /** A flag at the end of the other arguments takes the first define for its
      value; a key with a line break in it escapes. */
  predicate FirstIsTaken(fixed: seq<string>, keys: seq<string>)
  {
    EndsInFlag(fixed) && keys != [] && OneLine(keys[0])
  }

  lemma ParseOfPrinted(fixed: seq<string>, keys: seq<string>, m: map<string, string>)
    requires Lists(keys, m) && AllPrintable(m) && "__proto__" !in m && !FirstIsTaken(fixed, keys)
    ensures Parse(fixed + DefineArgs(keys, m)) == Parse(fixed) + m
  {
    if keys != [] {
      DefineArgsFirst(keys, m);
      DefineArgAsPair(keys[0], m[keys[0]]);
    }
    DefinitionsAppend(fixed, DefineArgs(keys, m));
    PrintedDefinitions(keys, m);
    ApplyAppend(map[], Definitions(fixed), Pairs(keys, m));
    forall k ensures Get(Parse(fixed + DefineArgs(keys, m)), k) == Get(Parse(fixed) + m, k) {
      ApplyPairs(Parse(fixed), keys, m, k);
    }
    SameGets(Parse(fixed + DefineArgs(keys, m)), Parse(fixed) + m);
  }

  lemma {:induction false} DefineArgsFirst(keys: seq<string>, m: map<string, string>)
    requires keys != [] && forall k :: k in keys ==> k in m
    ensures DefineArgs(keys, m) == [DefineArg(keys[0], m[keys[0]])] + DefineArgs(keys[1..], m)
    decreases |keys|
  {
    if |keys| > 1 {
      var front := keys[..|keys| - 1];
      DefineArgsFirst(front, m);
      assert keys[1..][..|keys| - 2] == front[1..];
    }
  }

  lemma DefineArgAsPair(key: string, text: string)
    requires PlainKey(key) && OneLine(text)
    ensures KeyValue(DefineArg(key, text))
         == if OneLine(key) then Some(Define(DART_DEFINE, key + "=" + text)) else None
  {
    var rest := key + "=" + text;
    assert DefineArg(key, text) == DART_DEFINE + "=" + rest;
    IndexOfFirst(DART_DEFINE, rest, '=');
    assert DefineArg(key, text)[..|DART_DEFINE|] == DART_DEFINE;
    assert DefineArg(key, text)[|DART_DEFINE| + 1..] == rest;
    if !OneLine(key) {
      var c :| c in key && IsLineTerminator(c);
      assert c in rest;
    }
  }

  lemma ParseOfTaken(fixed: seq<string>, keys: seq<string>, m: map<string, string>, k: string)
    requires Lists(keys, m) && AllPrintable(m) && "__proto__" !in m && FirstIsTaken(fixed, keys)
    ensures Get(Parse(fixed + DefineArgs(keys, m)), k)
         == if k in keys[1..] then Some(m[k])
            else if k == DART_DEFINE then Some(keys[0] + "=" + m[keys[0]])
            else Get(Parse(fixed), k)
  {
    var first, rest := DefineArg(keys[0], m[keys[0]]), DefineArgs(keys[1..], m);
    var d := Define(DART_DEFINE, keys[0] + "=" + m[keys[0]]);
    DefineArgsFirst(keys, m);
    DefineArgAsPair(keys[0], m[keys[0]]);
    FlagTakesNext(fixed, first, rest);
    AppendAssoc(Definitions(fixed), [d], Pairs(keys[1..], m));
    PrintedDefinitions(keys[1..], m);
    ApplyAppend(map[], Definitions(fixed) + [d], Pairs(keys[1..], m));
    ApplyAppend(map[], Definitions(fixed), [d]);
    assert [d][1..] == [];
    ApplyPairs(Apply(Parse(fixed), [d]), keys[1..], m, k);
  }

  lemma {:induction false} FoundIn(ds: seq<Define>, key: string)
    requires LastValue(ds, key).Some?
    ensures Define(key, LastValue(ds, key).value) in ds
  {
    if ds[|ds| - 1].key != key { FoundIn(ds[..|ds| - 1], key); }
  }

  /** Nothing that could not be printed ever comes out of parsing. */
  lemma ParseIsPrintable(args: seq<string>)
    ensures AllPrintable(Parse(args)) && "__proto__" !in Parse(args)
  {
    ParsedIsPrintable(args);
    var m := Parse(args);
    forall k | k in m ensures PlainKey(k) && OneLine(m[k]) {
      LastDefinitionWins(map[], Definitions(args), k);
      FoundIn(Definitions(args), k);
    }
    LastDefinitionWins(map[], Definitions(args), "__proto__");
  }

  lemma MergedHasNoProto(input: LaunchAppInput, cfg: Option<VscodeLaunchConfig>)
    ensures "__proto__" !in Merged(input, cfg)
  {
    ParseIsPrintable(ConfigArgs(cfg));
  }

  /** The other arguments define no key that is not merged anyway; and if a flag
      at their end takes the first define, they happen to define it themselves. */
  ghost predicate OthersHarmless(fixed: seq<string>, keys: seq<string>, m: map<string, string>)
  {
    && Parse(fixed).Keys <= m.Keys
    && (FirstIsTaken(fixed, keys) ==>
          && DART_DEFINE in m
          && keys[0] != DART_DEFINE
          && Get(Parse(fixed), keys[0]) == Get(m, keys[0]))
  }

  lemma TakenRoundTripIff(fixed: seq<string>, keys: seq<string>, m: map<string, string>)
    requires Lists(keys, m) && AllPrintable(m) && "__proto__" !in m && FirstIsTaken(fixed, keys)
    ensures Parse(fixed + DefineArgs(keys, m)) == m <==> OthersHarmless(fixed, keys, m)
  {
    var r := Parse(fixed + DefineArgs(keys, m));
    var k0 := keys[0];
    assert k0 !in keys[1..] && forall k :: k in m <==> k == k0 || k in keys[1..];
    ParseOfTaken(fixed, keys, m, k0);
    ParseOfTaken(fixed, keys, m, DART_DEFINE);
    if r == m {
      forall k | k in Parse(fixed) ensures k in m { ParseOfTaken(fixed, keys, m, k); }
      assert Get(r, k0) == Some(m[k0]);
      assert |k0 + "=" + m[k0]| > |m[k0]|;
    } else if OthersHarmless(fixed, keys, m) {
      forall k ensures Get(r, k) == Get(m, k) {
        ParseOfTaken(fixed, keys, m, k);
        assert k in Parse(fixed) ==> k in m;
      }
      SameGets(r, m);
    }
  }

  lemma PrintedRoundTripIff(fixed: seq<string>, keys: seq<string>, m: map<string, string>)
    requires Lists(keys, m) && "__proto__" !in m
    ensures Parse(fixed + DefineArgs(keys, m)) == m <==> AllPrintable(m) && OthersHarmless(fixed, keys, m)
  {
    if AllPrintable(m) {
      if FirstIsTaken(fixed, keys) {
        TakenRoundTripIff(fixed, keys, m);
      } else {
        ParseOfPrinted(fixed, keys, m);
        OverrideIff(Parse(fixed), m);
      }
    } else if Parse(fixed + DefineArgs(keys, m)) == m {
      ParseIsPrintable(fixed + DefineArgs(keys, m));
    }
  }

  /** Parsing the command line gives back the merged defines exactly when each can
      be printed and the other arguments do not interfere. */
  lemma RoundTripIff(input: LaunchAppInput, cfg: Option<VscodeLaunchConfig>, keys: seq<string>)
    requires Lists(keys, Merged(input, cfg))
    ensures var m, fixed := Merged(input, cfg), FixedArgs(input, cfg);
            Parse(fixed + DefineArgs(keys, m)) == m
            <==> AllPrintable(m) && OthersHarmless(fixed, keys, m)
  {
    MergedHasNoProto(input, cfg);
    PrintedRoundTripIff(FixedArgs(input, cfg), keys, Merged(input, cfg));
  }

  lemma OverrideIff(a: map<string, string>, m: map<string, string>)
    ensures a + m == m <==> a.Keys <= m.Keys
  {
    if a + m == m {
      assert forall k :: k in a ==> k in a + m;
    }
  }

  predicate Stray(arg: string) { DART_DEFINE <= arg }

  ghost predicate NoneStray(args: seq<string>) { forall a :: a in args ==> !Stray(a) }

  lemma DefinesAreStray(arg: string)
    ensures Combined(arg).Some? || IsFlag(arg) ==> Stray(arg)
  {
    assert DART_DEFINE <= DART_DEFINES;
    assert DART_DEFINE <= DART_DEFINE + "=" && DART_DEFINE <= DART_DEFINES + "=";
  }

  lemma {:induction false} NoStrayNoDefinition(args: seq<string>)
    requires NoneStray(args)
    ensures Definitions(args) == [] && !EndsInFlag(args)
  {
    if args != [] {
      DefinesAreStray(args[0]);
      DefinesAreStray(args[|args| - 1]);
      NoStrayNoDefinition(args[1..]);
    }
  }

  lemma OtherOption(arg: string)
    requires "--web-" <= arg || "--split-" <= arg || "--flavor" <= arg || "--machine" <= arg
    ensures !Stray(arg)
  {
    assert DART_DEFINE[2] == 'd';
  }

  lemma {:induction false} BrowserFlagsAreNotStray(args: seq<string>, flags: seq<string>)
    requires NoneStray(args)
    ensures NoneStray(WithBrowserFlags(args, flags))
  {
    if flags != [] {
      BrowserFlagsAreNotStray(args, flags[..|flags| - 1]);
      OtherOption("--web-browser-flag=" + flags[|flags| - 1]);
    }
  }

  lemma WebArgsAreNotStray(args: seq<string>, input: LaunchAppInput)
    requires NoneStray(args)
    ensures NoneStray(WithWebArgs(args, input))
  {
    var r := With(args, Truthy(input.webRenderer), "--web-renderer=" + input.webRenderer.GetOr(""));
    var p := With(r, input.webPort.Some?, "--web-port=" + IntText(input.webPort.GetOr(0)));
    var h := With(p, Truthy(input.webHostname), "--web-hostname=" + input.webHostname.GetOr(""));
    var n := With(h, AddsHeadless(input), "--web-browser-flag=--headless=new");
    OtherOption("--web-renderer=" + input.webRenderer.GetOr(""));
    OtherOption("--web-port=" + IntText(input.webPort.GetOr(0)));
    OtherOption("--web-hostname=" + input.webHostname.GetOr(""));
    OtherOption("--web-browser-flag=--headless=new");
    BrowserFlagsAreNotStray(n, input.webBrowserFlags.GetOr([]));
    OtherOption("--split-debug-info=" + input.splitDebugInfo.GetOr(""));
  }

  /** The three arguments a user can make look like a define. */
  predicate NoStray(input: LaunchAppInput, cfg: Option<VscodeLaunchConfig>)
  {
    && !Stray(input.target)
    && !Stray(EffectiveDevice(input))
    && (EffectiveFlavor(input, cfg).Some? ==> !Stray(EffectiveFlavor(input, cfg).value))
  }

  lemma FixedArgsAreNotStray(input: LaunchAppInput, cfg: Option<VscodeLaunchConfig>)
    requires NoStray(input, cfg)
    ensures NoneStray(FixedArgs(input, cfg))
  {
    OtherOption("--machine");
    OtherOption("--flavor");
    WebArgsAreNotStray(RunArgs(input, cfg), input);
  }

  lemma UndisturbedRoundTripIff(fixed: seq<string>, args: seq<string>, m: map<string, string>)
    requires fixed <= args && PrintsDefines(args[|fixed|..], m) && "__proto__" !in m && NoneStray(fixed)
    ensures Parse(args) == m <==> AllPrintable(m)
  {
    var keys :| Lists(keys, m) && args[|fixed|..] == DefineArgs(keys, m);
    SplitAt(args, |fixed|);
    assert args == fixed + DefineArgs(keys, m);
    NoStrayNoDefinition(fixed);
    PrintedRoundTripIff(fixed, keys, m);
  }

  /** What the configuration contributes can always be printed, so only the
      explicit defines count. */
  lemma MergedPrintableIff(input: LaunchAppInput, cfg: Option<VscodeLaunchConfig>)
    ensures AllPrintable(Merged(input, cfg)) <==> AllPrintable(input.dartDefines.GetOr(map[]) - {"__proto__"})
  {
    ParseIsPrintable(ConfigArgs(cfg));
    var explicit, m := input.dartDefines.GetOr(map[]) - {"__proto__"}, Merged(input, cfg);
    if AllPrintable(m) {
      forall k | k in explicit ensures PlainKey(k) && OneLine(explicit[k]) {
        assert k in m && m[k] == explicit[k];
      }
    }
  }

  /** The round trip for ordinary launches: it holds if and only if every explicit
      define, other than `__proto__`, can be printed. */
  lemma OrdinaryRoundTripIff(input: LaunchAppInput, cfg: Option<VscodeLaunchConfig>, args: seq<string>)
    requires CommandLine(input, cfg, args) && NoStray(input, cfg)
    ensures Parse(args) == Merged(input, cfg)
       <==> AllPrintable(input.dartDefines.GetOr(map[]) - {"__proto__"})
  {
    MergedHasNoProto(input, cfg);
    FixedArgsAreNotStray(input, cfg);
    UndisturbedRoundTripIff(FixedArgs(input, cfg), args, Merged(input, cfg));
    MergedPrintableIff(input, cfg);
  }

  /** Which value a key gets: the explicit one, else the last in the configuration's
      tool arguments followed by its arguments. */
  lemma Precedence(input: LaunchAppInput, cfg: Option<VscodeLaunchConfig>, key: string)
    requires key != "__proto__"
    ensures var explicit := Get(input.dartDefines.GetOr(map[]), key);
            Get(Merged(input, cfg), key)
            == if explicit.Some? then explicit
               else if cfg.None? then None
               else LastValue(Definitions(cfg.value.toolArgs.GetOr([]) + cfg.value.args.GetOr([])), key)
  {
    LastDefinitionWins(map[], Definitions(ConfigArgs(cfg)), key);
  }
}
