# Better10 batch engine, modelled in Dafny

Better10 is a Windows tweaking tool. The user ticks operations in the interface, and a
background `WorkerThread` then executes the batch one operation after the other. The
operation types are winget installs and uninstalls, PowerShell commands, registry writes,
executables, local installers and tools. For each operation the thread:

- checks whether the run was cancelled;
- checks the fields the operation's type needs;
- calls the matching `SystemOperations` handler;
- counts a success or a failure;
- logs the outcome, with a long error text cut to 300 characters;
- reports progress as a whole percentage.

At the end it logs a summary and reports overall success exactly when nothing failed.

This project models that engine and the pure logic inside the handlers.

- `Types` holds the values the engine works on: operations, events, requests and results.
- `Text` holds Python's string slicing, ASCII lower-casing and decimal rendering.
- `Paths` models `os.path.splitext` and the installer and tool type inference.
- `Escaping` models the quoting applied to paths embedded in PowerShell commands.
- `SystemOperations` models the handlers' input checks, their choice of request, and how a
  process or registry ending becomes the handler's result.
- `Dispatch` models the per-operation branch of the run loop and its choice of error text.
- `Engine` holds the class `WorkerThread` with its fields and the methods `Run`, `Cancel`,
  `ExecuteOne` and `EmitSummary`. `Run` is proved to compute the function `RunSpec`.
- `EngineProperties` proves the promises of a run about `RunSpec`.

Everything outside the program is an `Environment` of answers, a datatype of functions:

- whether `cancel()` has been called by the time operation `i` is checked;
- how a relative path resolves;
- whether a file exists when operation `i` checks it, so an earlier operation may create
  or remove a file a later one runs;
- how the process started for operation `i` ends: an exit code with its streams, a
  timeout, or an exception;
- what the registry answers to the open and the create of operation `i`.

The engine functions take the dispatch as a parameter (`RunWith` with a `Performer`).
`RunSpec` fixes it to the real handlers (`Dispatcher`). The run properties are therefore
proved for every possible handler behaviour.

## Model

| member | source | states |
|---|---|---|
| Engine.WorkerThread.constructor | better10.py:364-369 | A new worker has no events, both counters at zero and the cancelled flag clear. |
| Engine.WorkerThread.Cancel | better10.py:523-525 | Cancelling sets the flag and changes nothing else. |
| Engine.WorkerThread.Run | better10.py:371-521 | The new state (events, counters, flag) is `RunSpec` of the batch, the environment and the old state. |
| Engine.WorkerThread.ExecuteOne | better10.py:387-508 | One loop pass appends the executing log, the outcome log and the progress event, and raises exactly one counter, as `Step` says. |
| Engine.WorkerThread.EmitSummary | better10.py:510-521 | The summary appends the five summary lines and then `Finished(failures == 0)`, leaving the counters and flag unchanged. |
| Engine.PercentIsFloor | better10.py:507 | The progress value after `k` of `n` operations is the largest whole `p` with `p * n <= 100 * k`. |
| EngineProperties.StopIndex | better10.py:382-385 | The loop stops at the first index whose check finds the flag set, and at the end of the batch otherwise. |
| EngineProperties.RunCounts | better10.py:382-496 | After a non-empty run, successes rise by the number of dispatched operations that succeeded and failures by the rest. Afterwards the flag is set exactly when it was already set or the loop stopped early. |
| EngineProperties.RunEvents | better10.py:371-521 | A non-empty run appends the start log, three events per dispatched operation, the cancel warning if it stopped early, and then the summary. |
| EngineProperties.RunCountsEachOnce | better10.py:492-496 | Neither counter ever goes down, and together they rise by exactly the number of operations dispatched. |
| EngineProperties.RunCompletion | better10.py:375-521 | Earlier events are kept as a prefix. The run ends with exactly one completion event, `Finished(true)` for an empty batch and `Finished(failures == 0)` otherwise, and no completion event comes before it. |
| EngineProperties.OverallSuccessIff | better10.py:492-521 | A non-empty run reports overall success if and only if there were no failures before it and every dispatched operation succeeded. |
| EngineProperties.EmptyBatch | better10.py:375-378 | An empty batch appends exactly the warning "No operations to execute" and `Finished(true)`. It emits no progress and dispatches nothing. |
| EngineProperties.CancelledRunShape | better10.py:382-385 | When the run stops at `k`, the cancel warning comes right after the `3k` events of the operations before it, followed only by the summary. |
| EngineProperties.LaterOperationsNeverDispatched | better10.py:382-385 | Operations at or after the stop index, and the dispatch results they would have, do not affect the run. |
| EngineProperties.UncancelledRunDispatchesAll | better10.py:382-385 | Without cancellation every operation is dispatched and the flag stays clear. |
| EngineProperties.OneFailureInThree | better10.py:492-499 | One failure among three operations gives two successes, one failure, the failure log in the middle operation's slot and `Finished(false)`. |
| EngineProperties.MissingValueNameScenario | better10.py:429-434 | A registry operation without a value name fails with "Registry key path or value name is missing", and the run goes on to the next operation. |
| EngineProperties.RunProgress | better10.py:505-508 | The progress values a run emits are exactly `floor(100 * (j + 1) / n)` for each dispatched `j`, in order. |
| EngineProperties.PercentsClimbTo100 | better10.py:507 | These values stay between 0 and 100, never decrease, and end at 100 when the whole batch ran. |
| EngineProperties.PerformIsLocal | better10.py:395-490 | Dispatching operation `j` depends only on the environment's answers for `j`. |
| EngineProperties.LaterAnswersNeverAsked | better10.py:382-508 | A run is unchanged if the environment answers differently for operations after the stop index. |
| Dispatch.KindOfTag | better10.py:396-490 | Each recognised `type` string reaches exactly its own branch, and every other value is unknown. |
| Dispatch.HandleReachesHandler | better10.py:395-490 | An operation reaches a handler if and only if its type is known and its required fields are non-empty. The handler reached is the one of its type, with the operation's fields. An unknown type fails with "Unknown operation type: <type>". |
| Dispatch.RegistryDefaults | better10.py:436-441 | A registry write goes to the machine hive unless the operation names a hive. |
| Dispatch.ExecutableDefaults | better10.py:450-454 | The executable gets exactly the operation's `args` and `as_admin`. Without them it gets no arguments and runs elevated. |
| Dispatch.RejectedNeedsNoHandler | better10.py:396-490 | A rejected operation fails with the same message in every environment: no process or registry answer is consulted. |
| Dispatch.FirstNonEmpty | better10.py:405-406 | `stderr or stdout or default`: the first non-empty of the two streams, else the default. |
| Dispatch.FromOutcome | better10.py:405-406 | The operation succeeds exactly when the handler did. A failed one gets `FirstNonEmpty(stderr, stdout, default)` as its error text, which is never empty. |
| Dispatch.Perform | better10.py:395-490 | A failed operation always has a non-empty error text. Only an operation with its required fields can succeed. A rejected operation fails with its validation message. |
| Dispatch.WingetAnswer | better10.py:396-418 | A winget operation ends as its winget process does. Exit code 0 succeeds. Another code fails with stderr, else stdout, else the verb's default. A timeout fails with "Winget command timed out". An exception fails with its text, or the default when that is empty. |
| Dispatch.PowerShellAnswer | better10.py:420-427 | A PowerShell operation ends as its non-elevated process does, with the same reading of exit code, timeout and exception, and "PowerShell command failed" as the default. |
| Dispatch.ExecutableAnswer | better10.py:445-456 | A missing executable fails with "Executable not found: <path>". Otherwise the operation ends as its process does, with "Executable failed" as the default. |
| Dispatch.InstallerAnswer | better10.py:458-468 | A missing installer fails with "Installer not found: <path>". Otherwise the operation ends as the installer of its kind does, with "Installer failed" as the default. |
| Dispatch.ToolAnswer | better10.py:470-488 | Every failed tool, including a missing file, a timeout and an exception, is reported through the STDERR/STDOUT composition. Exit code 0 succeeds. |
| Dispatch.RegistryAnswer | better10.py:429-443 | An unsupported value fails with its type. Otherwise success and the error follow the registry's answers to the open and the create. A permission error reads "Administrator privileges required", and an empty error becomes "Registry operation failed". |
| Dispatch.DisplayErrorTruncates | better10.py:498 | The shown error text equals the error when it has at most 300 characters. Otherwise it is the first 300 characters followed by "...", 303 characters in all. |
| Dispatch.ToolErrorMessage | better10.py:481-488 | A failed tool's error is "STDERR: " plus at most 500 characters of stderr, then " \| " when both streams are non-empty, then "STDOUT: " plus at most 500 characters of stdout, or the fixed default when both are empty. |
| Dispatch.LongStderrHidesStdout | better10.py:481-499 | When stderr has 292 or more characters, the logged tool error shows only stderr. |
| Text.Prefix | better10.py:483-487 | `s[:n]` has length `min(|s|, n)` and is a prefix of `s`. |
| Text.DecimalRoundTrip | better10.py:513-516 | The decimal text of a count reads back as that count. |
| SystemOperations.FromProcess | better10.py:83-88 | Success means exit code 0. The streams are passed through, and a timeout or exception yields an empty stdout and its message. |
| SystemOperations.RunPowerShell | better10.py:50-88 | A PowerShell command succeeds if and only if its process exits with code 0. When the process exits, its streams are returned unchanged. |
| SystemOperations.WingetRequest | better10.py:103-108 | A winget request is formed if and only if the verb is `install` or `uninstall` and the package id is non-empty. |
| SystemOperations.RunWinget | better10.py:91-123 | An invalid winget call fails with "Invalid winget operation: <op>" and starts nothing. A valid one succeeds if and only if the winget process exits with 0. When the process exits, its streams are returned unchanged. |
| SystemOperations.RunInstaller | better10.py:126-182 | A missing installer fails with "Installer not found: <path>". Otherwise the installer of the inferred or given kind runs, and success means exit code 0, with the process's streams passed through. |
| SystemOperations.RunTool | better10.py:185-237 | A missing tool fails with "Tool not found: <path>". Otherwise the tool of the inferred or given kind runs, and success means exit code 0, with the process's streams passed through. |
| SystemOperations.RunExecutable | better10.py:240-304 | A missing executable fails with "Executable not found: <path>". Otherwise it runs with its arguments, and success means exit code 0, with the process's streams passed through. |
| SystemOperations.RegistryType | better10.py:322-327 | Integers and booleans become DWORD, strings become SZ, and every other value has no type. |
| SystemOperations.SetRegistryValue | better10.py:307-354 | An unsupported value fails with "Unsupported value type: <type>". A write succeeds if and only if the open-and-write succeeds, or the key was missing and the create-and-write succeeds. A permission error reports "Administrator privileges required". |
| SystemOperations.UnsupportedValueNeverWrites | better10.py:322-327 | An unsupported value fails without the registry being consulted. |
| Paths.Extension | better10.py:148 | The extension is a suffix of the path's last component. It is empty or starts with a dot, and holds no other dot and no separator. |
| Paths.ExtensionOfName | better10.py:148 | A name `stem.x` with a proper stem and no dot or separator in `x` has extension `.x`. |
| Paths.NoDotNoExtension | better10.py:148 | A last component with no dot has no extension. |
| Paths.LeadingDotsNoExtension | better10.py:148 | A last component made of dots and one dotted part, such as `.msi` or `..msi`, has no extension. |
| Paths.ExtensionAfterDottedStem | better10.py:148 | A name with an ordinary character before its final dot has extension `.x`, even when the stem ends in dots: `a..msi` has `.msi`. |
| Paths.InstallerType | better10.py:147-154 | A given non-empty installer type is kept. Otherwise the type is one of `msi`, `msix` and `exe`. |
| Paths.InferredInstallerKind | better10.py:147-167 | Without a given type, `.msi` in any letter case selects the msiexec branch, `.msix` the Add-AppxPackage branch, and anything else the exe branch. |
| Paths.NoExtensionInstaller | better10.py:147-154 | A path without an extension is run as an exe installer. |
| Paths.ToolType | better10.py:206-208 | A given non-empty tool type is kept. An inferred one has no dot and is no longer than the path. |
| Paths.InferredToolType | better10.py:206-222 | Without a given type, the tool type is the lower-cased extension without its dot. `ps1` selects the PowerShell branch, `bat` and `cmd` the cmd.exe branch, and anything else the exe branch. |
| Escaping.EscapeIsPerCharacter | better10.py:157 | The two chained replacements escape each character on its own. |
| Escaping.EscapeRoundTrip | better10.py:157 | Every escaped string is well formed, with every quote paired and every `$` behind a backtick, and unescaping it gives back the original. |
| Escaping.WellEscapedIsImage | better10.py:157 | Every well-formed string is the escaping of its unescaping. |
| Escaping.EscapedPathReadsWithBackticks | better10.py:157-167 | Take a path without typographic quotes. Inside a single-quoted PowerShell literal, the escaped path reads back with a backtick before every `$`, so it differs from the path whenever the path holds a `$`. |
| Escaping.DollarPathCounterexample | better10.py:157 | The path `a$b.exe` reads back as ``a`$b.exe``. |
| Escaping.TypographicQuoteCounterexample | better10.py:157 | The escaping leaves the path `Bob’s.exe` unchanged, and PowerShell reads it back as `Bob`, because the unpaired U+2019 ends the literal. |
| Escaping.QuoteForSingleQuotedRoundTrip | better10.py:157 | Doubling each of the five quote characters, and nothing else, leaves every quote paired and reads back as exactly the original text for every string. |

## Left out

- Process execution, its timeouts, and the PowerShell, winget and msiexec invocations are environment answers. The model does not build the command text. A request carries the kind, the resolved path and the arguments.
- Escaping.EscapedPathReadsWithBackticks: the read-back is stated only for paths without typographic quotes. With one, the literal ends at its first unpaired quote. `TypographicQuoteCounterexample` shows this for a concrete path, but no general read-back is stated for such paths.
- The reader of a single-quoted literal (`SingleQuotedValue`) models only the literal's body. The outer double-quoted string around the msix branch's literal (better10.py:164) is not modelled.
- `winreg` is an environment answer for the open-and-write and for the create-and-write.
- `os.path.isabs`, `join` and `exists` are environment answers (`resolve`, `fileExists`). `resolve` is one function for the whole run, because it only joins the script's directory.
- The exception branch of the run loop (better10.py:501-504) is left out. Every handler catches its own exceptions, so it would need an exception from the engine's own code.
- The QThread and signal machinery is not modelled. Emitted signals are appended to the `events` field. A `cancel()` from the interface thread is the environment's answer on whether the flag is set when operation `i` is checked. The interface never calls `cancel()`; the model allows it anyway.
- EngineProperties.RunProgress: progress is computed on exact fractions, floor(100·(idx+1)/n). The program computes `int((idx+1)/total*100)` in floating point, which can be one less. For example, 29/100*100 is 28.999999999999996 and gives 28.
- Engine.PercentIsFloor: states the exact-fraction value; the floating-point rounding above is not modelled.
- Text.Lower lower-cases ASCII letters only. Python's `str.lower` also folds other letters.
- An operation key present with the value `None` (`hive`, `args`, `as_admin`) is not representable. A missing key is an absent field.
- A given `installer_type` or `tool_type` is compared as written, case-sensitively, as the program does.
- `run_powershell` with `as_admin` true is modelled only as a flag on the request. The engine never passes it.
- Elevation and relaunch, the PyQt5 interface, the operation catalogues and the stylesheet are not part of this model.
- The counters are not reset between runs, as in the program. The interface creates a new worker for every run.

## Findings

| source | as written | input that shows it | evidently intended | confidence | as-written member | corrected member |
|---|---|---|---|---|---|---|
| better10.py:157 (also 212, 272, 276) | The path is escaped with `'` → `''` and then `$` → `` `$ ``, and placed between single quotes. PowerShell treats single-quoted text literally apart from its quote characters, so the backtick stays in the path. The msix branch (line 164) nests the literal in a double-quoted string, where the backtick is consumed, so that branch is not affected. | `a$b.exe` is read as ``a`$b.exe``, a file that does not exist. | Inside a single-quoted literal, only double the quote characters. | not executed | Escaping.EscapedPathReadsWithBackticks | Escaping.QuoteForSingleQuotedRoundTrip |
| better10.py:157 (also 212, 272, 276) | Only the ASCII `'` is doubled. PowerShell also takes U+2018, U+2019, U+201A and U+201B as single quotes, and an unpaired one ends the literal. This affects every branch, msix included. | `Bob’s.exe` is read as `Bob`. | Double every one of the five quote characters. | not executed | Escaping.TypographicQuoteCounterexample | Escaping.QuoteForSingleQuotedRoundTrip |
