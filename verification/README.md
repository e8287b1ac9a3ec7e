# Flutter Ultra: verified models of the core algorithms and protocols

Flutter Ultra is a set of MCP servers that drive Flutter apps: they launch and
kill `flutter run` trees, talk to the Dart VM service and the analysis server,
drive browsers and devices, and keep their state in shared files. This project
models, in Dafny, the algorithms and protocols underneath and proves what the
rest of the repository relies on. `dafny verify dfyconfig.toml` checks all of it.

Four kinds of result:

- **Translations and round trips.** The Zod-to-JSON-Schema compiler is sound on a
  stated fragment, and what it advertises is described exactly for every schema,
  dropped checks, strictness, nulls and cycles included (`ZodSchema`,
  `SchemaSoundness`, `SchemaDescription`, `DescriptionExactness`,
  `SchemaExactness`, `SchemaDefaults`, `ZodCompiler`); LSP framing survives any
  chunking and any header fields (`LspFraming`, `LspHeader`); shell quoting is
  undone by the POSIX tokeniser (`ShellQuoting`); `--dart-define` arguments parse
  back in every spelling, and the command line reads back option by option
  (`DartDefines`, `DefineSpellings`, `LaunchArgs`).
- **Protocols, over all interleavings.** Locked updates of a state file
  (`StateStore`, `StateStoreRuns`, `StateStoreProgress`, `StateFile`,
  `LaunchJobLog`), the reference-counted `SessionResource`, request correlation in
  the VM service transport (`VmServiceTransport`, `VmServiceRuns`) and in the Python
  bridge (`McpBridge`, `McpBridgeRuns`). What a run comes to is also read off its
  events alone, and shown to agree.
- **Trees and graphs.** Process trees collected and torn down (`ProcessTree`,
  `KillTree`, `KillProperties`), the widget-tree walk (`WidgetTree`), the
  migration runner (`Migrations`).
- **Bounded views of streams.** Line splitting (`Lines`), device-log paging
  (`LogStream`), capped output (`Capture`), the rotating job log (`JobLog`),
  console captures (`ConsoleCapture`, `BrowserManager`).

Code that changes objects, arrays or files step by step is a class or a method
with loops, proved against functions on values; the properties are lemmas about
those functions and about all runs of the step machines. A step is the code
between two points where another thread, process or callback can come in. Clocks,
the operating system, sockets, Playwright, the JSON engine and regular
expressions of users are parameters, or events that may come at any time.

Where the code and its own comments differ, the models follow the code:

- `_fail_all_pending` is said to give callers an accurate error at once; the
  waiter pops an emptied map and reports a timeout (`ClearedReportsTimeout`).
- `toInputJsonSchema` is said to present any root as an object schema; a root of
  another explicit type keeps it (`ToolInputTypeIff`).
- The job log is said to be renamed to `.old`; it is copied, and a failed copy
  is ignored (`RotationIff`, `PairIff`).
- Migrations are said to run in order from the version on disk; one pass over
  the sorted list is all there is (`PassReachesIff`, `DescendingPathIsMissed`).
- `stateUpdate` is said to lock, read, mutate and write back; the very first
  creation of a file happens before the lock (`NothingLostIff`).

## Model

| member | source | states |
|---|---|---|
| `ZodSchema.Conversion` | packages/flutter-ultra-gesture/src/json-schema.ts:54-146 | Terminates on every finite schema graph, cyclic ones included: either a lazy node not met before is visited or the schema gets smaller; the visited set is threaded through all siblings, only grows, and gains only nodes of the graph. |
| `SchemaSoundness.Sound` | packages/flutter-ultra-gesture/src/json-schema.ts:54-151 | Every value the Zod schema takes, the generated JSON Schema takes, over any closed graph, from any visited set and with any checks on strings, numbers and arrays (fragment: no nullable, string literals only, fields absent only through an optional or default wrapper, discriminators distinct strings). |
| `SchemaSoundness.OnlyOneOption` | packages/flutter-ultra-gesture/src/json-schema.ts:101-106 | `oneOf` of a discriminated union is exclusive: a value one converted option takes, no other takes. |
| `SchemaSoundness.UnrollWidens` | packages/flutter-ultra-gesture/src/json-schema.ts:115-125 | Replacing a lazy node met again by an open schema loses no accepted value. |
| `SchemaSoundness.NoMore` | packages/flutter-ultra-gesture/src/json-schema.ts:54-151 | Where nothing is dropped (checks that refuse nothing, no strict object, no unknown node, accepted defaults, no nullable directly under a key): whatever the generated schema takes, the schema with its revisited lazy nodes opened takes. |
| `SchemaSoundness.ExactWithoutLazies` | packages/flutter-ultra-gesture/src/json-schema.ts:54-151 | Under those conditions and those of the soundness fragment, a schema without lazy nodes and its translation accept exactly the same values. |
| `DescriptionExactness.DescribedExactly` | packages/flutter-ultra-gesture/src/json-schema.ts:54-151 | For every closed graph, with whatever checks, strictness, nulls, defaults, literals and cycles: the generated schema accepts exactly what the described Zod schema accepts, in which everything that the compiler drops or demands can be read off (shapes without repeated keys, discriminated unions as Zod builds them). |
| `DescriptionExactness.NeverAbsent` | packages/flutter-ultra-gesture/src/json-schema.ts:135-151 | A described schema never takes an absent value, so only wrapped fields may be left out. |
| `SchemaExactness.StringExactIff` | packages/flutter-ultra-gesture/src/json-schema.ts:59-60 | A string is translated exactly if and only if its checks refuse nothing. |
| `SchemaExactness.NumberExactIff` | packages/flutter-ultra-gesture/src/json-schema.ts:61-62 | So is a number: int, positive, min and so on are dropped. |
| `SchemaExactness.ArrayExactIff` | packages/flutter-ultra-gesture/src/json-schema.ts:65-69 | An array over an exact element is translated exactly if and only if its checks refuse no list of accepted elements. |
| `SchemaExactness.StrictExactIff` | packages/flutter-ultra-gesture/src/json-schema.ts:135-146 | A strict object over an exact shape is translated exactly if and only if there is no object at all that it could accept. |
| `SchemaSoundness.LiteralSoundIff` | packages/flutter-ultra-gesture/src/json-schema.ts:75-79 | Translating a literal is sound if and only if the literal is a string. |
| `SchemaSoundness.NullableSoundIff` | packages/flutter-ultra-gesture/src/json-schema.ts:80-82 | Dropping `nullable` is sound if and only if the inner schema, looked through wrappers and lazy nodes not met before and into the options of a union, ends in an unknown, an unrecognised or a revisited node. |
| `SchemaSoundness.TakesNullIff` | packages/flutter-ultra-gesture/src/json-schema.ts:54-133 | That reading of the Zod schema decides whether the generated schema accepts null, for every closed graph. |
| `SchemaSoundness.FieldSoundIff` | packages/flutter-ultra-gesture/src/json-schema.ts:135-151 | The `required` list is sound for a field if and only if the field has a wrapper or can never be absent. |
| `SchemaSoundness.RequiredIff` | packages/flutter-ultra-gesture/src/json-schema.ts:139-151 | A key is required if and only if a field of that key has none of the optional, nullable and default wrappers. |
| `SchemaDefaults.DefaultIsShown` | packages/flutter-ultra-gesture/src/json-schema.ts:80-94 | For every closed graph and visited set: the generated schema shows a default if and only if one is found looking through optional and nullable wrappers and lazy nodes not met before, and then that of the outermost default wrapper. |
| `SchemaDefaults.DefaultsAreShown` | packages/flutter-ultra-gesture/src/json-schema.ts:54-146 | So does every schema inside it: read as a tree, the defaults of all fields, items, choices and record values in the output are those that the Zod schema holds at the same places. |
| `ZodCompiler.Convert` | packages/flutter-ultra-gesture/src/json-schema.ts:54-133 | The recursive conversion over the shared mutable set returns the schema, and leaves the set, that the value-level compilation defines. |
| `ZodCompiler.ConvertEach` | packages/flutter-ultra-gesture/src/json-schema.ts:95-106 | Options are converted left to right, each from the set the previous one left. |
| `ZodCompiler.ConvertObject` | packages/flutter-ultra-gesture/src/json-schema.ts:135-146 | The loop over a shape builds `properties` in order and `required` from the unwrapped fields. |
| `ZodCompiler.CompileSchema` | packages/flutter-ultra-gesture/src/json-schema.ts:25-27 | A conversion starts from an empty set. |
| `ZodCompiler.ToInputJsonSchema` | packages/flutter-ultra-gesture/src/json-schema.ts:43-52 | A root that is no object schema is spread over `type: object` and given `properties` when it has none. |
| `ZodCompiler.ToolInputKeepsObjects` | packages/flutter-ultra-gesture/src/json-schema.ts:43-52 | The wrapped schema takes exactly the object values that the unwrapped one takes. |
| `ZodCompiler.ToolInputTypeIff` | packages/flutter-ultra-gesture/src/json-schema.ts:43-52 | The top-level type is object if and only if the root, through optional, nullable, default and fresh lazy nodes, is neither a scalar nor an array; an explicit other type wins. |
| `ZodCompiler.RootProperties` | packages/flutter-ultra-gesture/src/json-schema.ts:54-146 | At every conversion: only what is an object behind its wrappers brings `properties`, exactly its keys in order, and a `required` list exactly if one of its fields has no wrapper; only objects and records are typed as objects. |
| `ZodCompiler.ToolInputProperties` | packages/flutter-ultra-gesture/src/json-schema.ts:43-52 | The advertised root lists the keys of the root object; a record lists none, and every other root an empty list. |
| `StateStore.StepKeepsInv` | shared/state-store/src/store.ts:96-127 | Given a lock with one holder at a time: every step of every updater (probe, lock, read, mutate, partial write, rename, release, crash, takeover from a dead holder) keeps the invariant that the file is the fold of the committed operations. |
| `StateStore.RunKeepsInv` | shared/state-store/src/store.ts:96-127 | Hence it holds after every run from a present file. |
| `StateStoreRuns.NoLostUpdate` | shared/state-store/src/store.ts:96-127 | Under any interleaving the file is the fold of the committed operations, committed in lock order, each of which took effect. |
| `StateStoreRuns.MutualExclusion` | shared/state-store/src/store.ts:114-126 | Given such a lock, at most one updater is anywhere between taking and releasing it, whatever crashes and takeovers from dead holders occur. |
| `StateStoreRuns.ReadersSeePrefix` | shared/state-store/src/store.ts:63-91 | A lock-free read at any moment sees the fold of a prefix of what is committed by the end of the run, never a partly written file. |
| `StateStoreRuns.StoredValuesAreValid` | shared/state-store/src/store.ts:79-91 | What is on disk is what was there at the start or a value the schema let through, and it parses back to that value. |
| `StateStoreRuns.NothingLostIff` | shared/state-store/src/store.ts:103-127 | In every store whose default some operation changes: no committed update is ever lost if and only if the file exists at the start. With a missing file a run of two first updaters overwrites a commit with the default. |
| `StateStoreRuns.CreationRace` | shared/state-store/src/store.ts:103-127 | That run, step by step, for every such store and operation. |
| `StateStoreProgress.EveryCallAccounted` | shared/state-store/src/store.ts:48-127 | In every run from a present file, a call that has ended, unless its process died, has committed; or its lock timed out, a write failed, or the rename was refused for good (once finally, or five times); or its operation could not be applied to what the file held. |
| `StateStoreProgress.UndisturbedCommits` | shared/state-store/src/store.ts:96-127 | Whatever has happened before: as soon as the lock is free a new call can go through, and the file is then what its operation makes of it. |
| `StateStoreProgress.CallsCanGoOn` | shared/state-store/src/store.ts:48-127 | At every moment an updater that has not ended can take its next step, fail where the outside world lets it, or die; a lock left by a dead one can be taken over. |
| `StateStoreProgress.MutatorsGetValidated` | shared/state-store/src/store.ts:63-77 | A mutator only ever gets a value that the schema has let through. |
| `StateStoreProgress.ReadsAreMutations` | shared/state-store/src/store.ts:63-127 | What a reader gets after any run is the committed mutators applied in lock order, each result validated, to what a reader would have got at the start (for schemas that accept their own output unchanged). |
| `StateFile.Files.RenameWithRetry` | shared/state-store/src/store.ts:48-61 | Goes through exactly when one of the first five attempts succeeds after retryable refusals only; otherwise nothing changes. |
| `StateFile.Files.StateRead` | shared/state-store/src/store.ts:63-77 | A present file is parsed and what comes back went through the schema; a missing one gives the default. |
| `StateFile.Files.StateWriteAtomic` | shared/state-store/src/store.ts:79-91 | The file holds the validated, printed value, or is untouched. |
| `StateFile.Files.StateUpdate` | shared/state-store/src/store.ts:96-127 | A missing file is created from the default first. Then the caller gets a value exactly when the update is committed, and the file is one step of the fold further; else it is unchanged. |
| `LaunchJobLog.FoldedLog` | packages/flutter-ultra-runtime/src/launchApp.ts:193-237 | Folding patches and appends leaves the last 200 of the starting and the appended lines. |
| `LaunchJobLog.UpdateThenLoad` | packages/flutter-ultra-runtime/src/launchApp.ts:193-237 | A committed job is read back as what the operation made of the job before. |
| `LaunchJobLog.RecentLogIsLastCommittedLines` | packages/flutter-ultra-runtime/src/launchApp.ts:193-237 | In every run of concurrent patchJob and appendLog calls, `recentLog` on disk is exactly the last 200 of the lines it had and those committed since, in commit order. |
| `LaunchJobLog.AppendAlwaysFits` | packages/flutter-ultra-runtime/src/launchApp.ts:214-237 | No append makes a record that the schema refuses for its length. |
| `LaunchJobLog.LastPatchWins` | packages/flutter-ultra-runtime/src/launchApp.ts:193-237 | In every such run each field on disk is what the last committed operation that writes it wrote, `updatedAt` the clock of the last operation, and every other field what it was. |
| `Decimals.DecimalRoundTrip` | packages/flutter-ultra-build/src/tools/lsp.ts:26-42 | The decimal length in the header is read back as the same number. |
| `Decimals.FirstDigitCountsMost` | packages/flutter-ultra-build/src/tools/lsp.ts:40-42 | And it is read as decimal numbers are, the first digit counting most. |
| `LspFraming.DartAnalysisServer.OnData` | packages/flutter-ultra-build/src/tools/lsp.ts:105-108 | A chunk is appended and the buffer drained: messages handled and bytes kept are those of the recursive drain, and an exception gets out exactly if a complete body that JSON.parse refuses is then at the front. |
| `LspFraming.DartAnalysisServer.DrainBuffer` | packages/flutter-ultra-build/src/tools/lsp.ts:155-162 | The loop handles the messages, and keeps the rest, that the recursive drain yields, and throws exactly if a malformed body is then at the front. |
| `LspFraming.ParseFrame` | packages/flutter-ultra-build/src/tools/lsp.ts:35-51 | A complete frame in front of anything is parsed to its own body and consumed whole, or makes JSON.parse throw. Which headers are well-formed is `LspHeader.HeaderIsRead`. |
| `LspFraming.ParseIncomplete` | packages/flutter-ultra-build/src/tools/lsp.ts:35-51 | No proper prefix of a frame is taken for a message. |
| `LspFraming.Reassembly` | packages/flutter-ultra-build/src/tools/lsp.ts:155-162 | For every list of well-formed frames (`LspHeader.HeaderIsRead`) and every chunking of any prefix of their bytes: exactly the complete messages are handled, in order, and exactly the incomplete tail is kept; from the first body that JSON.parse refuses on, nothing is ever handled and everything is kept. |
| `LspHeader.HeaderIsRead` | packages/flutter-ultra-build/src/tools/lsp.ts:35-42 | For every header of CR-free fields joined by CR LF whose first mention of Content-Length is a length field (its name in any case, any blanks before the number, any text behind it), whatever fields stand before and behind it: the header ends where its last line does and the length read is that number. |
| `LspFraming.LaidOutReassembly` | packages/flutter-ultra-build/src/tools/lsp.ts:35-51 | Hence messages with any such header fields survive every chunking in the same way. |
| `LspFraming.EncodedIsWellFormed` | packages/flutter-ultra-build/src/tools/lsp.ts:24-28 | The encoder writes well-formed frames for every body. |
| `LspFraming.EncodeFeedRoundTrip` | packages/flutter-ultra-build/src/tools/lsp.ts:24-51 | Messages encoded, laid end to end and cut anywhere come back one for one, with nothing left over, if and only if JSON.parse accepts them all. |
| `ShellQuoting.ReadArgv` | packages/flutter-ultra-native-mobile/src/ssh.ts:255-273 | The POSIX tokeniser reads the printed arguments back as one word each. |
| `ShellQuoting.ReadAssignments` | packages/flutter-ultra-native-mobile/src/ssh.ts:257-267 | It reads the printed environment back as one assignment word per entry. |
| `ShellQuoting.RoundTrip` | packages/flutter-ultra-native-mobile/src/ssh.ts:250-273 | For NUL-free input the shell runs exactly argv, under exactly the assignments. |
| `ShellQuoting.RoundTripIff` | packages/flutter-ultra-native-mobile/src/ssh.ts:250-273 | Whenever a command is built, the shell reads back what was asked if and only if no argument and no value holds a NUL (an empty argv drops the environment). |
| `ShellQuoting.RefusedIff` | packages/flutter-ultra-native-mobile/src/ssh.ts:254-267 | The environment is refused exactly when one of its names is no shell name and argv is not empty; the error names the first of them. |
| `ShellQuoting.NameIff` | packages/flutter-ultra-native-mobile/src/ssh.ts:261 | A shell name is letters, digits and underscores with no digit in front. |
| `ProcessTree.GroupByParent` | packages/flutter-ultra-runtime/src/processTree.ts:275-280 | The table is grouped by parent pid, rows in table order. |
| `ProcessTree.CollectDescendants` | packages/flutter-ultra-runtime/src/processTree.ts:274-303 | Terminates on any ppid graph; without duplicates returns, root first and each parent before its children, exactly the rows whose parent chain reaches the root through links with known start times that never go backwards. |
| `ProcessTree.FindIsFirst` | packages/flutter-ultra-runtime/src/processTree.ts:281 | Where a table lists a pid more than once, the first row is the root. |
| `KillTree.FindLeaves` | packages/flutter-ultra-runtime/src/processTree.ts:312-313 | The leaves of the remaining list, in its order. |
| `KillTree.KillRound` | packages/flutter-ultra-runtime/src/processTree.ts:311-325 | One turn of the outer loop, the batch aliasing the spliced array in the fallback: the attempts and the remaining processes are those of the recursive round. |
| `KillTree.KillBottomUp` | packages/flutter-ultra-runtime/src/processTree.ts:308-327 | The nested loops terminate and make the attempts of the recursive definition; `killed` is the successful ones in order. |
| `KillProperties.AttemptsEach` | packages/flutter-ultra-runtime/src/processTree.ts:308-327 | On every input each pid is attempted exactly as often as it is listed, fallback included. |
| `KillProperties.EachExactlyOnce` | packages/flutter-ultra-runtime/src/processTree.ts:308-327 | With distinct pids every process is attempted exactly once and nobody else is. |
| `KillProperties.ChildBeforeParent` | packages/flutter-ultra-runtime/src/processTree.ts:308-327 | A child is attempted strictly before its parent. |
| `KillProperties.FallbackIff` | packages/flutter-ultra-runtime/src/processTree.ts:312-314 | On a collected tree the fallback is taken if and only if the parent pid of the root belongs to the tree. |
| `KillProperties.CycleForcesFallback` | packages/flutter-ultra-runtime/src/processTree.ts:312-314 | Any list holding a cycle reaches the fallback. |
| `KillProperties.DescendantsFirst` | packages/flutter-ultra-runtime/src/processTree.ts:308-327 | On a collected tree without such a root every process is attempted strictly after all its descendants. |
| `KillProperties.KilledAreSuccesses` | packages/flutter-ultra-runtime/src/processTree.ts:316-322 | What is reported as killed is exactly the attempts that succeeded, each once and in order. |
| `KillProperties.KillProcessTreeVerified` | packages/flutter-ultra-runtime/src/processTree.ts:364-396 | Which branch is taken and what it attempts: one blind attempt without a row for the root, none when the start key differs, else exactly the root and its descendants, each once, children first. |
| `SessionResource.Resource.CallAcquire` | shared/mcp-runtime/src/session.ts:91-105 | The code of acquire up to its await takes the specified step. |
| `SessionResource.Resource.CallRelease` | shared/mcp-runtime/src/session.ts:107-121 | So does release up to its await. |
| `SessionResource.Resource.RunJob` | shared/mcp-runtime/src/session.ts:92-121 | And each continuation that the microtask queue runs. |
| `SessionResource.StepKeepsInv` | shared/mcp-runtime/src/session.ts:80-126 | Every step, including releases while the factory is pending, keeps the invariant. |
| `SessionResource.Conservation` | shared/mcp-runtime/src/session.ts:80-126 | In every reachable state no instance is destroyed twice, created is destroyed plus at most one live instance, the count is how many have come in and not left, counted from the events, and at most one disposal runs. |
| `SessionResource.NoOverlap` | shared/mcp-runtime/src/session.ts:91-121 | At every step of every run the destructor starts only at count zero, on the live instance, with no disposal running and no factory call pending, and a factory call overlaps no disposal, factory call or live instance. |
| `SessionResource.DestructorIff` | shared/mcp-runtime/src/session.ts:107-121 | In every run the destructor starts at a step if and only if that step takes the last holder out, counted from the events, while an instance is ready (its factory has come through since the last holder of the one before left), and it is that instance that goes. |
| `SessionResource.FactoryIff` | shared/mcp-runtime/src/session.ts:91-105 | The factory is called if and only if somebody comes in and there is no resource, made or under way. |
| `SessionResource.HoldersHaveResource` | shared/mcp-runtime/src/session.ts:91-105 | As long as no factory call throws, whoever is in has a resource, made or under way. |
| `SessionResource.AcquiresAccounted` | shared/mcp-runtime/src/session.ts:91-105 | No call of acquire is forgotten: each has come in, has failed with a disposal, or waits. |
| `SessionResource.WaitersShareOutcome` | shared/mcp-runtime/src/session.ts:91-96 | Whoever waits for a disposal comes in or fails as the latest one went. |
| `SessionResource.OvertakingOverlaps` | shared/mcp-runtime/src/session.ts:91-121 | First-in-first-out microtasks are needed: with one overtaking continuation a run exists in which a factory call overlaps a disposal. |
| `SessionResource.RejectionSticks` | shared/mcp-runtime/src/session.ts:98-104 | A rejected factory promise is kept. |
| `SessionResource.StuckForEver` | shared/mcp-runtime/src/session.ts:98-104 | From then on the factory is never called again and nothing is destroyed. |
| `VmServiceTransport.Transport.Request` | shared/vm-service-client/src/transport.ts:237-271 | Issues an id, registers it with an armed timer and settles it at once if the send throws; refuses when disposed or not open. |
| `VmServiceTransport.Transport.OnMessage` | shared/vm-service-client/src/transport.ts:165-183 | A response settles the pending request with its id and disarms its timer; an unknown id changes nothing. |
| `VmServiceTransport.Transport.OnTimeout` | shared/vm-service-client/src/transport.ts:252-259 | A fired timer settles its own request. |
| `VmServiceTransport.Transport.FailAllPending` | shared/vm-service-client/src/transport.ts:229-235 | Settles all pending requests in the order they were issued and leaves none. |
| `VmServiceTransport.Transport.OnClose` | shared/vm-service-client/src/transport.ts:199-209 | Fails what is pending, and schedules a reconnect unless disposed or switched off. |
| `VmServiceTransport.Transport.Reconnect` | shared/vm-service-client/src/transport.ts:211-227 | The delay is the one the attempt number selects, the last one from there on. |
| `VmServiceTransport.Transport.OnReconnectTimer` | shared/vm-service-client/src/transport.ts:220-226 | A fired timer connects unless disposed. |
| `VmServiceTransport.Transport.Dispose` | shared/vm-service-client/src/transport.ts:273-300 | Fails what is pending and disarms the recorded reconnect timer. |
| `VmServiceTransport.Conservation` | shared/vm-service-client/src/transport.ts:165-271 | In every reachable state the issued ids split exactly into pending and settled, each settled once; each pending entry has an armed timer; once disposed nothing is pending. |
| `VmServiceTransport.EverySettlementJustified` | shared/vm-service-client/src/transport.ts:165-271 | Every settlement was made by its own response, timer or failed send, or by a close or a dispose, in the state that event found. |
| `VmServiceTransport.NothingPendingAfter` | shared/vm-service-client/src/transport.ts:199-235 | After a close or a dispose nothing is pending and no request timer runs. |
| `VmServiceTransport.DisposedForEver` | shared/vm-service-client/src/transport.ts:220-300 | Once disposed, no id is issued, nothing becomes pending and no reconnect timer connects, in all that follows. |
| `VmServiceRuns.IdsFollow` | shared/vm-service-client/src/transport.ts:237-241 | The transport is disposed if and only if the run has a dispose; ids number exactly the requests made while open and not disposed. |
| `VmServiceRuns.RefusedRest` | shared/vm-service-client/src/transport.ts:237-240 | Every other request is refused at once. |
| `VmServiceRuns.PendingIff` | shared/vm-service-client/src/transport.ts:165-271 | Read off the events: an id is pending if and only if some request got it and was sent, and neither its response, nor its timeout, nor a close or a dispose has come since. |
| `VmServiceRuns.SettledIff` | shared/vm-service-client/src/transport.ts:165-271 | Read off the events: a request is settled, with a cause, if and only if its send failed, or the first event that ends it has that cause (a response resolves or rejects by its error). |
| `VmServiceRuns.PendingMethod` | shared/vm-service-client/src/transport.ts:261 | A pending entry holds the method of its own request. |
| `VmServiceRuns.RejectsInOrder` | shared/vm-service-client/src/transport.ts:229-235 | A close or a dispose rejects what is pending in the order of the requests. |
| `VmServiceRuns.ReconnectsFollow` | shared/vm-service-client/src/transport.ts:199-227 | Over every run, the delays of all reconnects, the attempts since the connection last opened, and the connections made by timers are those counted from the events. |
| `VmServiceRuns.TimerIff` | shared/vm-service-client/src/transport.ts:211-227 | A reconnect timer runs if and only if it was set, has not fired, and was not the latest when somebody disposed. |
| `VmServiceRuns.PossibleIff` | shared/vm-service-client/src/transport.ts:165-300 | Anything may happen next, but a timeout only to a request that waits, and a reconnect timer fires only while it is set. |
| `McpBridge.McpSubprocess.RegisterEntry` | hermes-plugin-src/bridge.py:126-129 | Id and entry are made under one lock acquisition. |
| `McpBridge.McpSubprocess.PopEntry` | hermes-plugin-src/bridge.py:132-133 | The waiter takes its entry, if it is still there. |
| `McpBridge.McpSubprocess.Dispatch` | hermes-plugin-src/bridge.py:152-158 | The reader fills and wakes the matching entry; an unmatched id changes nothing. |
| `McpBridge.McpSubprocess.TakeAll` | hermes-plugin-src/bridge.py:187-189 | The map is emptied into the list that fail-all works off. |
| `McpBridge.StepKeepsInv` | hermes-plugin-src/bridge.py:108-199 | Every step of callers, reader and any number of overlapping fail-alls keeps the invariant. |
| `McpBridge.FieldsFollowCode` | hermes-plugin-src/bridge.py:108-199 | The steps change the lock-protected fields exactly as those methods do. |
| `McpBridge.ResponseFindsEntry` | hermes-plugin-src/bridge.py:108-158 | A response read for an id already written finds its entry, fills it and wakes the caller, unless the caller popped it or a fail-all cleared it. |
| `McpBridge.ReturnsOwnResponse` | hermes-plugin-src/bridge.py:131-139 | A call returns normally only with an error-free message carrying its own id, and no two calls share one. |
| `McpBridge.FailAllWakesEveryone` | hermes-plugin-src/bridge.py:177-194 | Every entry fail-all removed has its event set once the fail-alls are through. |
| `McpBridge.ClearedReportsTimeout` | hermes-plugin-src/bridge.py:132-135 | A caller whose entry was cleared before it popped it raises the timeout error, never the fail-all text. |
| `McpBridge.LeftoverIff` | hermes-plugin-src/bridge.py:126-139 | When a call has ended its entry is still in the map if and only if the write failed and no fail-all has come by since. |
| `McpBridgeRuns.HowCallsEnd` | hermes-plugin-src/bridge.py:126-139 | In every interleaving a call whose write went through ends as the events between its registration and its pop say: in a timeout if no line with its id was read or a fail-all came; else with the result of the last such line, or its error. |
| `McpBridgeRuns.SendFailedIff` | hermes-plugin-src/bridge.py:126-130 | A call raises the error of its write if and only if its write failed. |
| `McpBridgeRuns.WakesIff` | hermes-plugin-src/bridge.py:131-158 | Without a fail-all, a waiting caller is let go before its timeout if and only if its answer has been read. |
| `McpBridgeRuns.CallsCanGoOn` | hermes-plugin-src/bridge.py:126-139 | A call that has not ended can always go on: its write may go either way, its wait may time out, and nothing holds it up behind that. |
| `Lines.LineSplitter.Push` | packages/flutter-ultra-build/src/runtime/spawn.ts:55-60 | The complete lines of remainder and chunk are emitted in order, the last part is kept. |
| `Lines.LineSplitter.Flush` | packages/flutter-ultra-build/src/runtime/spawn.ts:61-66 | A remainder that is not empty is emitted and forgotten. |
| `Lines.SplitJoin` | packages/flutter-ultra-build/src/runtime/spawn.ts:55-60 | Splitting undoes joining for every mix of LF and CR LF endings. |
| `Lines.JoinSplit` | packages/flutter-ultra-build/src/runtime/spawn.ts:55-60 | Every text is its lines joined again, with endings that the lines do not contain. |
| `Lines.SplitConcat` | packages/flutter-ultra-build/src/runtime/spawn.ts:55-60 | Lines split off a first piece stay split when more text follows, even where the cut is between CR and LF. |
| `Lines.ChunkIndependence` | packages/flutter-ultra-build/src/runtime/spawn.ts:52-67 | Emitted lines and remainder depend only on the concatenated text, for every chunking. |
| `LogStream.DeviceLogStream.Keep` | packages/flutter-ultra-native-mobile/src/logStream.ts:101-106 | One accepted line: the buffer is the accepted stream from `dropped` on, bounded, and `truncated` says whether anything was dropped. |
| `LogStream.DeviceLogStream.Consume` | packages/flutter-ultra-native-mobile/src/logStream.ts:92-107 | A chunk appends exactly its non-empty complete lines that grep lets through. |
| `LogStream.KeepsWanted` | packages/flutter-ultra-native-mobile/src/logStream.ts:96-101 | Of the complete lines exactly those that are not empty and that grep lets through are accepted, each once and in order. |
| `LogStream.DeviceLogStream.Poll` | packages/flutter-ultra-native-mobile/src/logStream.ts:118-136 | The page and the cursor are those of the whole accepted stream: from the later of cursor and `dropped`, at most maxLines lines. |
| `LogStream.HeldSlice` | packages/flutter-ultra-native-mobile/src/logStream.ts:123-131 | Slicing the held buffer at the shifted indices is slicing the whole stream. |
| `LogStream.PollCursorIff` | packages/flutter-ultra-native-mobile/src/logStream.ts:123-135 | A poll moves the cursor back if and only if the given cursor is beyond the stream. |
| `LogStream.PagesChain` | packages/flutter-ultra-native-mobile/src/logStream.ts:92-136 | For every interleaving of chunks and polls chained from cursor 0, the pages follow each other through the one accepted stream, and the cursor never moves back. |
| `LogStream.EachLineOnceOrDropped` | packages/flutter-ultra-native-mobile/src/logStream.ts:92-136 | Every line before the cursor is in exactly one page, word for word, or had been dropped before the one page that would have held it. |
| `LogStream.CompleteIff` | packages/flutter-ultra-native-mobile/src/logStream.ts:118-136 | The pages laid end to end are the whole stream up to the cursor if and only if no poll came after a drop it had not passed. |
| `LogStream.AcceptedIsChunkText` | packages/flutter-ultra-native-mobile/src/logStream.ts:92-107 | The accepted stream is the text of the chunks, decoded one by one, cut into lines, less the empty and the refused ones. |
| `LogStream.AcceptedIsWholeText` | packages/flutter-ultra-native-mobile/src/logStream.ts:92-107 | Where no chunk boundary changes what the bytes decode to, the accepted stream is the decoded log cut into lines, less the empty and the refused ones, for every chunking. |
| `LogStream.AsciiDecodesApart` | packages/flutter-ultra-native-mobile/src/logStream.ts:92-95 | ASCII logs are such a case, for every chunking. |
| `LogStream.CutCharacter` | packages/flutter-ultra-native-mobile/src/logStream.ts:92-95 | A boundary inside a two-byte character is not: the accepted line changes. |
| `Capture.CappedOutput.OnData` | packages/flutter-ultra-build/src/runtime/spawn.ts:92-118 | What is kept is the first maxBuffer bytes of all that arrived, and `truncated` holds if and only if there were more. |
| `Capture.JobStderr.OnData` | packages/flutter-ultra-build/src/runtime/jobs.ts:222-234 | The job keeps the first 256 KiB of its stderr, and nothing after its entry is deleted. |
| `Capture.JobStderr.Delete` | packages/flutter-ultra-build/src/runtime/jobs.ts:242-253 | The stderr tail of a closed job is those bytes. |
| `JobLog.StdoutLog.AppendStdoutLog` | packages/flutter-ultra-build/src/runtime/jobs.ts:107-134 | One chunk is appended, or starts a new log over a copy of the old one, which may not start or be cut short; the size returned is that of the current log. |
| `JobLog.StdoutLog.ReadStdoutTail` | packages/flutter-ultra-build/src/runtime/jobs.ts:296-309 | The last maxBytes bytes of the current log, or all of it. |
| `JobLog.CurrentIsSuffix` | packages/flutter-ultra-build/src/runtime/jobs.ts:107-134 | The current log is always the end of the whole output, within the limit or one chunk. |
| `JobLog.NoEarlyRotation` | packages/flutter-ultra-build/src/runtime/jobs.ts:107-134 | As long as the whole output fits there is one log, and it is the output. |
| `JobLog.KeptIsSuffix` | packages/flutter-ultra-build/src/runtime/jobs.ts:107-134 | When the latest copy succeeded, whatever became of earlier ones, old log and current log together are the end of the output, and all of it or more than the limit. |
| `JobLog.RotationIff` | packages/flutter-ultra-build/src/runtime/jobs.ts:120-129 | One rotation leaves a pair that is the end of the output if and only if the copy is complete, or cut short where the log begins with what it ends with, or not started where the old log already ends the two. |
| `JobLog.PairIff` | packages/flutter-ultra-build/src/runtime/jobs.ts:107-134 | Over every run, with any failures, old log and current log together are the end of the output if and only if the latest rotation was sound in that sense. |
| `JobLog.StaleOldLog` | packages/flutter-ultra-build/src/runtime/jobs.ts:120-129 | A run in which they are not: the copy of the second full log does not start, and the second log is lost between the two. |
| `JobLog.TailIsEndOfOutput` | packages/flutter-ultra-build/src/runtime/jobs.ts:296-309 | The tail a reader gets is the end of the whole output. |
| `WidgetTree.TooDeep` | packages/flutter-ultra-runtime/src/widgetTree.ts:136-137 | Below the depth limit nothing is visited, so cutting a subtree there loses nothing. |
| `WidgetTree.PushChildren` | packages/flutter-ultra-runtime/src/widgetTree.ts:139-147 | Pushing the children in reverse, holes skipped, puts their preorder in front of what the stack still held, with the bounded chain of labels. |
| `WidgetTree.WalkTree` | packages/flutter-ultra-runtime/src/widgetTree.ts:127-150 | The explicit stack visits the recursive preorder cut at depth 256, each node with its depth and its first 24 ancestor labels, up to and including the first visit the visitor refuses. |
| `WidgetTree.FindInTree` | packages/flutter-ultra-runtime/src/widgetTree.ts:268-283 | Returns exactly the first max(1, limit) matches of that preorder. |
| `WidgetTree.MatchingSelects` | packages/flutter-ultra-runtime/src/widgetTree.ts:268-283 | The matches are exactly the visits of matching nodes, each once and in order. |
| `WidgetTree.LabelIsFirstName` | packages/flutter-ultra-runtime/src/widgetTree.ts:152-161 | A node's label is the first of its five names that it has. |
| `DartDefines.ParseDartDefinesFromArgs` | packages/flutter-ultra-runtime/src/launchApp.ts:915-938 | The index loop, with its skipped element, assigns the definitions that the recursive reading of the arguments finds. |
| `DartDefines.LastDefinitionWins` | packages/flutter-ultra-runtime/src/launchApp.ts:919-936 | A key has the value of its last definition; `__proto__` is never set. |
| `DartDefines.ParseIsPrintable` | packages/flutter-ultra-runtime/src/launchApp.ts:915-938 | Parsing yields only non-empty keys without = and values without line breaks. |
| `DartDefines.Precedence` | packages/flutter-ultra-runtime/src/launchApp.ts:289-295 | A key has its explicit value, else its last one in toolArgs followed by args. |
| `DartDefines.BuildWebArgs` | packages/flutter-ultra-runtime/src/launchApp.ts:270-287 | The web flags in order, the headless flag exactly when mode, device, option and user flags call for it. |
| `DartDefines.BuildCliArgs` | packages/flutter-ultra-runtime/src/launchApp.ts:260-300 | The fixed arguments, then one define for each merged key. |
| `DartDefines.RoundTripIff` | packages/flutter-ultra-runtime/src/launchApp.ts:260-300 | For every input, parsing the command line gives back the merged defines if and only if all of them can be printed and the other arguments do not interfere (said exactly, a dangling flag in front of the defines included). |
| `DartDefines.OrdinaryRoundTripIff` | packages/flutter-ultra-runtime/src/launchApp.ts:260-300 | With no other argument starting with --dart-define: if and only if every explicit define, __proto__ aside, has a non-empty key free of = and a value free of line breaks. |
| `DartDefines.MergedPrintableIff` | packages/flutter-ultra-runtime/src/launchApp.ts:289-295 | The merged defines can be printed if and only if the explicit ones can: what a configuration contributes always can. |
| `DefineSpellings.AnySpelling` | packages/flutter-ultra-runtime/src/launchApp.ts:915-938 | However its defines are spelled (--dart-define or --dart-defines, joined or apart), and whatever other arguments stand between them, an argument list is read as exactly those defines, in order. |
| `LaunchArgs.LineIsRead` | packages/flutter-ultra-runtime/src/launchApp.ts:260-300 | Whatever the texts hold, a command-line parser reads from the command line every option with the text meant for it, and nothing else: target, device, flavor, the web options, the browser flags in order behind the headless one, and one define for each merged key. |
| `LaunchArgs.FlutterUnderstands` | packages/flutter-ultra-runtime/src/launchApp.ts:260-300 | That needs only a parser that takes the next argument behind -t, -d and --flavor, and splits any other at its first equals sign. |
| `LaunchArgs.HeadlessIff` | packages/flutter-ultra-runtime/src/launchApp.ts:277-285 | The headless flag is added exactly for Chrome's usual mode on a browser device, unless switched off or mentioned, in any case, by a user flag. |
| `ConsoleCapture.StepKeepsInv` | packages/flutter-ultra-browser/src/browserManager.ts:280-612 | Any opening and closing of pages, captures and contexts keeps: pageIds and listeners of each capture are the registered pages of its context, the installed listeners are those, and the buffer is the bounded end of what was accepted. |
| `ConsoleCapture.ReachesContext` | packages/flutter-ultra-browser/src/browserManager.ts:509-551 | An event on a page that has not closed reaches exactly the captures of its context, and none when the page is no longer registered. |
| `ConsoleCapture.StepRefines` | packages/flutter-ultra-browser/src/browserManager.ts:280-612 | The indexed machine refines one without any index, where a capture hears what happens on the pages of its context. |
| `ConsoleCapture.RunKeepsInv` | packages/flutter-ultra-browser/src/browserManager.ts:280-612 | Over every run the index agrees and every capture has heard exactly those events. |
| `ConsoleCapture.PageStaysOpen` | packages/flutter-ultra-browser/src/browserManager.ts:423-440 | A page is open, for events and for its own close, from its registration to that close. |
| `ConsoleCapture.BufferIsLastHeard` | packages/flutter-ultra-browser/src/browserManager.ts:553-572 | The buffer is the last 10,000 events heard, `truncated` if and only if there were more. |
| `BrowserManager.BrowserManager.RegisterPage` | packages/flutter-ultra-browser/src/browserManager.ts:325-440 | Registering a page wires every capture of its context to it. |
| `BrowserManager.BrowserManager.OnPageClosed` | packages/flutter-ultra-browser/src/browserManager.ts:432-439 | A closing page leaves the registry and every capture. |
| `BrowserManager.BrowserManager.WireCaptureToPage` | packages/flutter-ultra-browser/src/browserManager.ts:509-551 | One listener is installed and remembered. |
| `BrowserManager.BrowserManager.StartConsoleCapture` | packages/flutter-ultra-browser/src/browserManager.ts:471-507 | A new capture is wired to all pages of its context; an unknown context is refused. |
| `BrowserManager.BrowserManager.StopConsoleCapture` | packages/flutter-ultra-browser/src/browserManager.ts:592-604 | Detaches, forgets the capture and returns what it collected. |
| `BrowserManager.BrowserManager.DetachCaptureListeners` | packages/flutter-ultra-browser/src/browserManager.ts:606-612 | Removes exactly the listeners that the capture installed. |
| `BrowserManager.BrowserManager.CloseAfterVideoPath` | packages/flutter-ultra-browser/src/browserManager.ts:286-307 | From behind its wait for a video path, closing a context goes on even if the context has gone meanwhile. |
| `BrowserManager.BrowserManager.CloseContextInternal` | packages/flutter-ultra-browser/src/browserManager.ts:280-307 | Drops the pages of the context and stops its captures, and touches no other. |
| `BrowserManager.BrowserManager.OnPageEvent` | packages/flutter-ultra-browser/src/browserManager.ts:513-547 | Every installed listener of the page records the event. |
| `BrowserManager.CaptureRecord.RecordCaptureEvent` | packages/flutter-ultra-browser/src/browserManager.ts:553-572 | Filter, append, and cut to the limit. |
| `Migrations.StableSortCorrect` | shared/state-store/src/versioned-state.ts:75 | The stable sort is sorted, keeps the migrations, and keeps which one comes first for each version. |
| `Migrations.ReadVersionedState` | shared/state-store/src/versioned-state.ts:32-93 | Every branch, and the single pass with its skips and its break, give the specified result. |
| `Migrations.PassIsChain` | shared/state-store/src/versioned-state.ts:74-85 | When every migration raises the version, the pass over the sorted list equals following the chain of first listed migrations from the version on disk. |
| `Migrations.UpgradeFollowsChain` | shared/state-store/src/versioned-state.ts:74-92 | So the data comes back migrated along the chain if it ends exactly at the current version, the default otherwise, and the error if a migration throws. |
| `Migrations.PassReachesIff` | shared/state-store/src/versioned-state.ts:74-92 | Without that assumption, with one migration per version: if and only if a path leads to the current version and climbs up to its last step. |
| `Migrations.UpgradeAlongPath` | shared/state-store/src/versioned-state.ts:60-92 | A file that is not newer comes back with its data taken along such a path, unchanged if it is current already, or with the error of the step that throws. |
| `Migrations.UpgradeWithoutPath` | shared/state-store/src/versioned-state.ts:32-92 | Every other file comes back as the default, unless a migration, or reading the file, throws. |
| `Migrations.DescendingPathIsMissed` | shared/state-store/src/versioned-state.ts:80-90 | A path through a lower version arrives but is not taken: the default comes back. |
| `Migrations.OrderDoesNotMatter` | shared/state-store/src/versioned-state.ts:75-92 | With distinct fromVersions the order of the list makes no difference, for every file. |

## Left out

- Process spawning, sockets, SSH connections, adb, simctl, Playwright and DevTools calls: they appear as events or parameters (a kill succeeds or fails, a rename is atomic, a message arrives).
- JSON, regular-expression and UTF-8 engines: message bodies are bytes, user patterns and finders are predicates, and decoding bytes that are not ASCII is an arbitrary function.
- Tool registration, parsing of the operating system's process tables, error texts and discovery heuristics: no property beyond their own text.
- SchemaSoundness.ExactWithoutLazies: exactness holds only where nothing is dropped; what is advertised otherwise is DescriptionExactness.DescribedExactly.
- ZodSchema.Conversion: bigint and `undefined` literals, shape keys such as `__proto__`, discriminators other than strings, and the validators of node types that the compiler does not know are not modelled.
- StateStore.StepKeepsInv: the lock is exclusive, and is taken over only from a holder that has died; a live holder whose lock goes stale is not modelled, nor are appendJsonl and readJsonl.
- StateStoreRuns.MutualExclusion: the lock is a foreign library; that it has one holder at a time is a guard of the machine, except for takeovers from dead holders.
- LspFraming.DartAnalysisServer.DrainBuffer: the matching of replies to requests, and what becomes of the process when an exception leaves the data handler, are not modelled.
- SessionResource.Conservation: resources are taken to be truthy, and a factory or destructor does not call acquire or release from its own synchronous part.
- VmServiceTransport.Transport.Request: the connection attempt itself, its timeout and the notification stream are left out.
- McpBridge.ResponseFindsEntry: starting and stopping the subprocess is left out (a stop shows as a fail-all), and message ids are compared as integers, where Python also equates 1, 1.0 and True.
- KillProperties.KillProcessTreeVerified: a process that starts or ends between the listing and the kills is not modelled.
- Lines.ChunkIndependence: the splitter is given text; each chunk of bytes has been decoded by itself before.
- JobLog.StdoutLog.AppendStdoutLog: a failing write of the current log, which throws to the caller, is not modelled.
- LogStream.DeviceLogStream.Consume: timestamps are left out; stdout and stderr share one leftover, so the text is the chunks in arrival order.
- Capture.JobStderr.OnData: the status of a cancelled job is left out, because cancelJob edits a record that it has read again.
- WidgetTree.FindInTree: what a finder matches, and the summary made of a matched node, are left open.
- DartDefines.BuildCliArgs: the order in which Object.entries lists the merged defines is left open, and a port is an unbounded integer.
- ConsoleCapture.ReachesContext: random ids are taken to be new each time; the per-page console and network histories, mock routes and the JSONL mirror of a capture are left out.
- BrowserManager.BrowserManager.StartConsoleCapture: the filters (levels, text pattern, since) are one predicate, and what a caller does to the live record that it is handed is not modelled.
- The cursors of getConsoleCapture and of the runtime log buffer, which index a trimmed buffer, are not stable, and nothing is stated of them.
- That no two flutter trees run for one project is not stated of concurrent starts, because a session is recorded only after it has attached.
