# Claude Assistant plugin: CLI discovery and invocation

A Dafny model of the process-orchestration core of the Obsidian plugin
`claude-assistant` (file `main.ts`). The plugin finds the `claude`
command-line tool, checks that it starts, and sends it the current note plus
a question. It pipes the prompt through the tool's standard input, collects
the tool's two output streams, and turns the first terminating event into
an answer or an error. The model covers:

- **Executable selection.** The override rule of `onload`: a configured
  path that is neither empty nor the default `claude` is used without any
  check. Otherwise `findClaudePath` runs. It walks the seven candidates in
  order and returns the first one whose probes all succeed. For the bare
  name the probes are `which claude`, whose output must not be blank, and
  the liveness probe. For the other candidates they are `fs.access` and the
  liveness probe. When every candidate fails it returns `null`.
- **Liveness probe** (`testClaudePath`). It runs `path --version` and
  settles once, on the first `close`, `error` or 5000 ms timer event.
- **Request construction.** The prompt template, the augmented `PATH`, the
  child environment and the fixed command line.
- **Outcome machines.** `executeClaudeCommand` and `testCommand`: two
  independent text accumulators and a promise that settles once.

How the outside world is represented:

- `which`, `fs.access` and every spawned child are oracles. `Host` bundles
  them as total functions.
- A child is an ordered trace of `ChildEvent`s: `spawn`, a data chunk on
  stdout or stderr, `close(code)` where the code may be `null`, `error`, and
  the caller's own timer callback. `process.env`, the home directory and the
  presence of the stdin pipe are parameters.
- A JavaScript promise is the class `Promises.Promise`. Its `Resolve` and
  `Reject` do nothing once it has settled.
- Each run is implemented twice. A method delivers the trace event by event
  to listeners written as in the source. A declarative specification states
  that the outcome is decided by the *first* settling event, using the text
  accumulated before it. The method is proved equal to the specification.
- The probe and `testCommand` arm their timers unconditionally and never
  clear them. A trace that leaves them pending is therefore completed by the
  timer, so both always settle. `executeClaudeCommand` arms none: its
  timeout is commented out. It stays pending as long as the child neither
  closes nor errors.

Notes on the code as written, which the model follows:

- `executeClaudeCommand` never uses the resolved `claudePath`. It always
  spawns `/opt/homebrew/bin/node` with the hard-coded script
  `…/@anthropic-ai/claude-code/cli.js`, then `--verbose` and `--print`. The
  resolved path is only logged.
- No execution timeout is enforced, so there is no timeout failure for a
  request.
- Failures are `Error` objects identified only by their messages. There are
  no typed failure kinds. The model keeps the exact messages, for example
  `Claude CLI failed with exit code ${code}: ${stderr}`.

## Model

| member | source | states |
|---|---|---|
| `Plugin.ClaudeAssistantPlugin.OnLoad` | main.ts:31-44 | A configured path that is non-empty and not `claude` becomes the path with no probe. Otherwise the path is the first accepted candidate of the search, or nothing. |
| `Plugin.ClaudeAssistantPlugin.constructor` | main.ts:14-20 | A new plugin has no resolved path. Once the settings are loaded, the setting is the stored value or the default `claude`. |
| `Plugin.ClaudeAssistantPlugin.SetClaudePathSetting` | main.ts:435-438 | Editing the setting stores the value and leaves the resolved path unchanged until the next load. |
| `Plugin.CanSubmit` | main.ts:390-403 | The question modal submits only when the question has a character that is not whitespace. |
| `PathResolver.FindClaudePath` | main.ts:150-199 | The result is the first candidate, in list order, whose probes all succeed, with the bare name yielding its resolved path. It is nothing exactly when every candidate fails. Nothing is thrown. |
| `PathResolver.PossiblePaths` | main.ts:152-161 | Seven candidates: the bare name `claude` first and nowhere else, then `/usr/local/bin/claude` and `/opt/homebrew/bin/claude`, then the home directory followed by `/.claude/local/claude`, `/.claude/local/node_modules/.bin/claude`, `/.config/claude/claude` and `/.local/bin/claude`, in that order. |
| `PathResolver.Accept` | main.ts:169-190 | A candidate yields a path only if that path passed the liveness probe. A full path yields itself exactly when it is accessible and passes. The bare name yields a path exactly when `which` succeeded, its trimmed output is not blank and that output passes the probe. The path it yields is that trimmed output. |
| `PathResolver.BareNameNeedsWhich` | main.ts:169-183 | The bare `claude` entry yields a path exactly when `which` succeeded with non-blank output whose trimmed form passes the probe. That path is the trimmed output. A failing or blank `which` skips the entry. |
| `PathResolver.WorkingBareNameWins` | main.ts:165-178 | When `which` finds a non-blank path that passes the probe, that path is the search result, whatever the other candidates give. |
| `PathResolver.FirstAcceptedUnique` | main.ts:165-195 | Priority is purely positional: the search specification admits exactly one result. |
| `PathResolver.EarliestAcceptedWins` | main.ts:165-195 | An accepted candidate preceded only by rejected ones is returned, whatever later candidates would give. |
| `Liveness.TestClaudePath` | main.ts:201-226 | Delivering the child's events to the probe's listeners, then letting the 5000 ms timer fire, gives exactly `ProbeOutcome`. |
| `Liveness.ProbeReaction` | main.ts:208-224 | Only 'close', 'error' and the timer settle the probe. It is fulfilled exactly by `close(0)`, and a spawn error rejects with the error's own message. |
| `Liveness.ProbeOutcome` | main.ts:221-224 | The probe always settles. A trace in which no event settles it is rejected with `Test timeout` by the never-cleared timer. |
| `Liveness.Listen` | main.ts:208-224 | The probe's 'close', 'error' and timer listeners settle a pending promise as the first-settling-event specification says, and leave a settled one alone. Output is ignored. |
| `Liveness.PassesIff` | main.ts:208-219 | The probe passes iff a `close` with code 0 is the first settling event. A non-zero or null code, an `error` or the timer arriving first fails it. |
| `Liveness.ProbeSettledIsFinal` | main.ts:202-225 | Events after settlement change neither the state nor the outcome of the probe. |
| `Promises.Promise.Resolve` | main.ts:258-349 | `resolve` fulfils a pending promise and leaves a settled one unchanged. |
| `Promises.Promise.Reject` | main.ts:258-349 | `reject` rejects a pending promise and leaves a settled one unchanged. |
| `ChildEvents.FirstSettling` | main.ts:302-314 | Returns the index of the first event with a settling listener, or the trace length. No earlier event settles. |
| `ChildEvents.ReceivedStep` | main.ts:288-300 | A data event appends its chunk to its own stream's text, as `stdout += …` and `stderr += …` do, and leaves the other stream's text unchanged. Other events append nothing. |
| `ChildEvents.CodeText` | main.ts:312 | `${code}` is never empty and never contains `:`. It is `null` exactly for a null code. |
| `ChildEvents.FirstSettlingAppend` | main.ts:208-224 | Events delivered after the first settling one do not move it. |
| `ChildEvents.ReceivedAppend` | main.ts:288-300 | Each accumulator is the in-order concatenation of its stream's chunks, wherever the chunk boundaries fall. |
| `ChildEvents.ReceivedSwapStreams` | main.ts:288-300 | The stdout and stderr accumulators are independent: reordering chunks across the two streams changes neither. |
| `ChildEvents.ExitMessageInjective` | main.ts:312 | The exit-failure message determines both the exit code (number or `null`) and the complete detail text. |
| `JsNumber.NatToStringRoundTrip` | main.ts:312 | Rendering an exit code in decimal and reading it back gives the code. |
| `JsNumber.IntToStringInjective` | main.ts:312 | Distinct integral exit codes render to distinct text. |
| `JsNumber.IntToString` | main.ts:312 | `${n}` for an integral exit code is non-empty: a leading `-` exactly for a negative number, then decimal digits only, with no leading zero except in `0` itself. |
| `JsText.Trim` | main.ts:173 | `trim()` returns the infix of the input between its longest all-whitespace prefix and suffix. The infix has no whitespace at either end and is empty iff the input is all whitespace. |
| `JsText.TrimUnique` | main.ts:309 | Whenever the input is whitespace, then a trimmed middle, then whitespace, trimming returns exactly that middle. |
| `JsText.TrimIdempotent` | main.ts:309 | Trimming the trimmed answer again changes nothing. |
| `Request.Prompt` | main.ts:232 | The prompt is the unaltered note, then the separator `\n\n---------\n\n`, then the unaltered question, so both inputs can be cut back out of it. Its length is the sum of the three. |
| `Request.PromptOfEmptyNote` | main.ts:511 | With an empty note, the connection test's prompt is the 13-character separator followed by the question. |
| `Request.AugmentedPathShape` | main.ts:240-245 | The child `PATH` is the three fixed directories joined by `:`, then `:` and the inherited `PATH`. The inherited part is dropped only when undefined or empty, so it is extended and never replaced. |
| `Request.AugmentedPath` | main.ts:240-245 | The child `PATH` starts with the three fixed directories joined by `:`. A truthy inherited `PATH` follows whole, after one more `:`, and ends the string. Otherwise the fixed part is the whole value. |
| `Request.AugmentedPathEntries` | main.ts:240-245 | Split at `:`, the child `PATH` lists the three fixed directories in order, then every inherited entry in order. |
| `Delimited.FilterTruthyAppend` | main.ts:245 | `filter(Boolean)` keeps the non-empty defined entries in their original order. |
| `Delimited.SplitJoinThen` | main.ts:245 | `join(':')` of colon-free directories followed by more text splits back into those directories followed by the text's own fields. |
| `Request.ChildEnv` | main.ts:237-246 | The child environment has exactly the parent's keys plus `PATH`. Every other variable keeps its value, and `PATH` is the augmented path. |
| `Request.ClaudeSpawn` | main.ts:250-266 | Always spawns `/opt/homebrew/bin/node` with the CLI script, `--verbose` and `--print`, whatever path was resolved. It runs in the home directory, with the parent's environment except for the augmented `PATH`. |
| `ClaudeRun.RequestReaction` | main.ts:282-314 | Only 'close' and 'error' settle the request. It is fulfilled exactly by `close(0)`, with the trimmed stdout. A rejection on 'close' carries the exit-failure prefix. |
| `ClaudeRun.ExecuteClaudeCommand` | main.ts:228-349 | Spawns node with `[cli.js, --verbose, --print]`, the augmented environment and the home directory as its working directory. Writes the prompt to stdin when stdin exists. The promise ends in the state that the first-settling-event specification gives. |
| `ClaudeRun.Listen` | main.ts:278-314 | For one event, the data listeners append the chunk to their own stream's text only. The 'close' and 'error' listeners settle a pending promise with the reaction of the specification. |
| `ClaudeRun.RequestFulfilledIff` | main.ts:307-309 | The request succeeds iff stdin existed and a `close(0)` is the first settling event. The answer is then the trimmed stdout received before it. |
| `ClaudeRun.RequestExitFailure` | main.ts:310-313 | A first-settling `close` with a non-zero or null code rejects with `Claude CLI failed with exit code ${code}: ${stderr}`. That exact code and the full stderr can be read back from the message. |
| `ClaudeRun.RequestErrorRejects` | main.ts:282-286 | A first-settling `error` rejects with `Claude CLI execution error: ` followed by its message. |
| `ClaudeRun.RequestWithoutStdin` | main.ts:330-338 | Without a stdin stream the request is rejected with `stdin not available`, whatever the child does. |
| `ClaudeRun.RequestSettledIsFinal` | main.ts:302-314 | Once the request has settled, later output, closes or errors do not change it. |
| `ClaudeRun.RequestCanWaitForever` | main.ts:341-346 | With the execution timeout disabled, a child that neither closes nor errors leaves the request pending. |
| `ClaudeRun.RequestSucceedsAfterOutput` | main.ts:288-309 | Output delivered in any chunks and followed by `close(0)` yields the trimmed concatenation. |
| `ClaudeRun.RequestSummaryExample` | main.ts:307-309 | A child printing `Summary: ok` and a newline, then exiting 0, answers `Summary: ok`. |
| `DebugCommand.TestCommand` | main.ts:521-557 | Delivering the events, then letting the 10000 ms timer fire, gives exactly `DebugOutcome`. |
| `DebugCommand.Listen` | main.ts:532-555 | For one event, the data listeners append the chunk to their own stream's text only. The 'close', 'error' and timer listeners settle a pending promise with the reaction of the specification. |
| `DebugCommand.DebugReaction` | main.ts:540-555 | 'close', 'error' and the timer settle the command. It is fulfilled exactly by `close(0)`, with stdout, or stderr when stdout is empty, and so is empty only when both are. |
| `DebugCommand.DebugOutcome` | main.ts:552-555 | A debug command always settles. A trace in which no event settles it is rejected with `Command timeout` by the never-cleared timer. |
| `DebugCommand.DebugCloseOutcome` | main.ts:540-546 | On a first-settling `close(0)` the answer is stdout, or stderr when stdout is empty, and is not trimmed. Any other code rejects with the code and stderr, or stdout when stderr is empty. |
| `DebugCommand.DebugErrorOrTimeout` | main.ts:548-555 | A first-settling `error` rejects with `Command error: ` followed by its message. The timer rejects with `Command timeout`. |
| `DebugCommand.DebugSettledIsFinal` | main.ts:522-556 | Events after settlement do not change the debug command's outcome. |

## Left out

- Obsidian UI: the question modal, the settings tab, notices, the ribbon icon, commands, and inserting the answer at the cursor (main.ts:86-148, 354-501). Of the modal only the submit condition is kept. `processClaudeRequest` is glue around `executeClaudeCommand` and is not modelled. Of `testClaudeExecution` only its empty-note prompt is kept.
- Logging to the debug file and the console (main.ts:73-84 and every `this.log`): output only, with no effect on behaviour.
- Settings persistence through `loadData`/`saveData` (main.ts:65-71): library calls. The constructor takes the stored value as a parameter.
- Real processes, `exec('which')` and `fs.access`: these are the `Host` oracles and the event traces. Only `executeClaudeCommand`'s command line is kept as data (`Request.ClaudeSpawn`). The probe's `path --version` with its 5000 ms spawn `timeout` option, and `testCommand`'s command and arguments, are not modelled; the model uses only the events they produce.
- The status-polling interval (main.ts:317-327), which is diagnostic only, and the commented-out execution timeout (main.ts:341-346), which the code does not enforce.
- Asynchronous interleaving. Listeners are treated as running in event order, and each settles at its own event. The source attaches its listeners only after an awaited log write; events emitted during that write, and the log writes awaited inside the 'close' and 'error' listeners, are not modelled. The missing-stdin check is treated as happening before any event arrives.
- Character encoding. Chunks are taken as already-decoded text. `testCommand` decodes each chunk separately, without `setEncoding`, so a multi-byte character split across chunks would be garbled; this is not modelled. JavaScript strings are UTF-16, but the model uses Unicode scalar values. This affects neither concatenation nor trimming, since every trimmed character lies in the Basic Multilingual Plane.
- `JsNumber.IntToString`: integers only. It does not model JavaScript's exponent notation for magnitudes of 10^21 and above, which no exit code reaches.
- Killing the child on timeout (`child.kill()`): the kill is not modelled. Only its effect on the outcome is, that the timer rejects.
- The settings tab (main.ts:414-501), including its table of debug commands: UI. `testCommand` is modelled for any command and argument list, but its spawn options (inherited environment, 10000 ms kill option) are not.
