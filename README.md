# clibuild core in Dafny

clibuild is a small Go library for building command-line tools. A tool hands it
a list of `Command`s (verb, noun, the operating systems the command supports, a
handler). The library does four things:

- It dispatches `os.Args` to the commands that match.
- It offers a `--version` flag, a `-h` listing and an unknown-command fallback.
- It checks the argument count of a command (`ShouldHaveArgs`).
- It reports a handler's error with or without usage text (`HandleCommandError`).

It ships one built-in command, `update version FILE [NEW VERSION]`. That command rewrites
the `const VERSION string = "..."` line of a Go source file. Its helpers
(`clivrsn`) read the current version and compute the next Z release. A
rule-based validator (`validator`) checks the parameters. Two error packages
(`errtype`, `clierr`) render the errors.

The model is organised by module:

- `Wrappers`: `Option` and `Result`.
- `Strings` and `Strconv`: the parts of Go's `strings` and `strconv` that the core relies on. Split and Join follow Go. Atoi follows Go's 64-bit `int`, including the order of its checks: an overflow is reported before a later non-digit. Itoa is defined directly as Go's shortest decimal form, with a leading `-` for negatives. Strings are sequences of characters, not of bytes (see Left out).
- `ErrType` and `CliErr`: the rendering of the error types.
- `Errors`: the `error` values the core passes around, whether typed, clierr, or plain `errors.New`/`fmt.Errorf` text.
- `Validator`: `ValidateParams` over already-decoded records.
- `Clivrsn`: `readVersion`, the rewrite loop of `UpdateVersion` (an imperative method proved against the function `Kept`), and `ReadNextZ` with the 64-bit wrap of `z_release++`.
- `Cli`: `ShouldHaveArgs` (a loop over the arguments), `osSupportsCommand` (a loop), `printTopUsage` (a loop accumulating the listing), `HandleCommandError`, the dispatch loop of `RunCommand` and the built-in handler.

The outside world is passed in or handed back:

- The process arguments and `runtime.GOOS` are parameters.
- The contents of a file read are a `Result` parameter.
- A file write is an `Overwrite(path, data)` effect.
- `filepath.Glob` is an oracle from pattern to result.
- Whether a tool's handler ends the process is an oracle on its handler's id.
- `os.Exit` becomes an exit value carrying the status and what was printed.
- A Go panic is an explicit `Panicked` outcome.

## Model

| member | source | states |
|---|---|---|
| ErrType.TypedError.Error | errtype/errtype.go:13-47 | The rendering is the category line (`invalid input` or `shell execution failed`), the message and a final newline. With a cause, the tail after the message is exactly `"\n\ntrace:\n" + cause + "\n"`. Without a cause, nothing else appears. |
| ErrType.MessageFollowsFirstNewline | errtype/errtype.go:13-47 | The first newline of any rendering ends the category line, and the message starts right after it. |
| ErrType.MessageRecoverable | errtype/errtype.go:14-18 | Without a cause, the message is recovered by dropping the category line and the final newline. |
| ErrType.ShellAndRemoteRenderAlike | errtype/errtype.go:27-47 | A shell error and a remote shell error with equal fields render identically, and both differ from an invalid-input error. |
| CliErr.InvalidInput.Error | clierr/clierr.go:10-16 | Same layout as the typed errors, but the cause header is `Trace:` with a capital T. |
| CliErr.SameAsErrTypeWithoutCause | clierr/clierr.go:13-15 | Without a cause, `clierr.InvalidInput` and `errtype.InvalidInput` render the same text. |
| CliErr.DiffersOnlyInTraceCase | clierr/clierr.go:12 | With a cause, the two renderings have equal length and differ in exactly one character, the `T`/`t` of the trace header. |
| Validator.MatchesClassPlus | validator/validator.go:47-48 | A full match of `^[class]+$` holds iff the value is non-empty and every character is in the class. |
| Validator.NumberIsIP | validator/validator.go:46-61 | Every value accepted by `IsNumber` is accepted by `IsIP`. Samples: `IsIP` takes `...` and `1.2.3.4.5`, and `IsNumber` rejects `12\n`, `12a` and the empty string. |
| Validator.CheckRule | validator/validator.go:38-77 | One rule yields no error iff the value passes it. A failing known rule yields a typed invalid-input error without a cause. An unknown rule always yields the plain error `unknown matcher: <rule>`. |
| Validator.ValidateRules | validator/validator.go:37-79 | No error iff every rule of the record passes. |
| Validator.RulesFirstFailure | validator/validator.go:37-79 | A reported error is the one of some rule j that fails, while every rule before j passes. |
| Validator.ValidateParams | validator/validator.go:36-81 | No error iff every record passes all of its rules. |
| Validator.ParamsFirstFailure | validator/validator.go:36-80 | A reported error is that of some record i whose rules fail, while every record before i passes. |
| Validator.FirstFailureWins | validator/validator.go:36-80 | A reported error comes from the first failing (record, rule) pair in order, and every earlier pair passes. |
| Validator.KnownRulesFailAsInvalidInput | validator/validator.go:38-75 | When every rule is known, any failure is a typed invalid-input error with no cause. |
| Validator.ValidateParamsAppend | validator/validator.go:36-81 | Validating `a + b` gives a's error if there is one, and otherwise b's. |
| Validator.EmptyValueReportsFirstRule | validator/validator.go:39-53 | For an empty value, rule order decides the message: `NotEmpty` first reports `is empty`, and `IsNumber` first reports `is not a number`. |
| Validator.UnknownRuleOnlyWhenReached | validator/validator.go:76-77 | An unknown rule is reported only when the earlier rules pass. |
| Strings.Split | clivrsn/clivrsn.go:19 | `strings.Split` with a one-character separator: at least one piece, none containing the separator. |
| Strings.JoinSplit | clivrsn/clivrsn.go:122-129 | Joining the pieces of a split gives back the string. |
| Strings.SplitJoin | clivrsn/clivrsn.go:122-129 | Splitting a join of separator-free pieces gives back the pieces. |
| Strings.SplitTerminated | clivrsn/clivrsn.go:86-97 | Splitting newline-terminated lines on `\n` gives the lines plus one trailing empty piece. |
| Strconv.Atoi | clivrsn/clivrsn.go:123 | A success is a 64-bit value. A failure is `invalid syntax` or `value out of range`. |
| Strconv.AtoiAcceptsExactly | clivrsn/clivrsn.go:123-126 | Atoi succeeds iff the input is an optional `+`/`-`, at least one digit, and a value in the 64-bit range. The value is then the signed digit value. |
| Strconv.AtoiItoa | clivrsn/clivrsn.go:123-128 | Parsing the printed form of any 64-bit value gives that value back. |
| Strconv.AtoiRangeBeforeSyntax | clivrsn/clivrsn.go:123 | Twenty-one or more digits without a leading zero are `value out of range`, whatever follows them. Go's scan reports the overflow before it reaches a later non-digit. |
| Strconv.ItoaAlphabet | clivrsn/clivrsn.go:128 | The printed form holds only digits and a leading `-`, so never a `.`. |
| Clivrsn.FirstVersionLine | clivrsn/clivrsn.go:20-27 | Returns the first line starting with `const VERSION string`, or none iff no line does. |
| Clivrsn.LastToken | clivrsn/clivrsn.go:22-23 | The last space-separated token contains no space. |
| Clivrsn.ReadVersion | clivrsn/clivrsn.go:19-28 | Fails with `could not find version` iff no line is a version line. A value contains no space. |
| Clivrsn.ReadVersionReadsFirst | clivrsn/clivrsn.go:20-25 | The first version line decides. Its last token minus the first and last characters is the value. A token shorter than 2 characters panics, as `ver[1:len(ver)-1]` does. |
| Clivrsn.VersionLineFacts | clivrsn/clivrsn.go:89-90 | The written line is a version line. It holds no newline when the version holds none, and its last token is the quoted version when the version holds no space. |
| Clivrsn.Kept | clivrsn/clivrsn.go:88-99 | The loop over n lines emits at most n lines. |
| Clivrsn.KeptLines | clivrsn/clivrsn.go:88-99 | Every emitted line is either the new version line or an unchanged non-version input line. |
| Clivrsn.ContributionKeeps | clivrsn/clivrsn.go:96-98 | A non-version line is kept when it is non-empty or more than two lines from the end, and so is a version line already equal to the new one. |
| Clivrsn.ContributionDrops | clivrsn/clivrsn.go:96-98 | An empty line among the last two is dropped. |
| Clivrsn.KeptStep | clivrsn/clivrsn.go:88-99 | One loop iteration appends that line's contribution, each line followed by `\n`. |
| Clivrsn.RebuildLines | clivrsn/clivrsn.go:86-100 | The imperative rewrite loop's result equals the newline-terminated kept lines. |
| Clivrsn.UpdateVersion | clivrsn/clivrsn.go:70-106 | A validation failure is returned as is. An empty file name or version always fails as a typed invalid input. Otherwise a failed read is returned, and a successful read writes the rebuilt file to the same path. The effect equals the value `Updated` of the same inputs. |
| Clivrsn.UpdateRecordsKnown | clivrsn/clivrsn.go:72-75 | The rules `UpdateVersion` asks for are all known to the validator. |
| Clivrsn.EmptyArgumentRejected | clivrsn/clivrsn.go:71-81 | With an empty file name or an empty new version, validation reports a typed invalid-input error. |
| Clivrsn.KeptHasVersion | clivrsn/clivrsn.go:88-90 | If the input has a version line, the output contains the new version line. |
| Clivrsn.KeptClean | clivrsn/clivrsn.go:88-98 | The output lines hold no newline, and each version line among them is the new one. |
| Clivrsn.UpdateThenRead | clivrsn/clivrsn.go:19-28 | After rewriting a file that has a version line, reading it yields exactly the new version (no spaces or newlines in it). |
| Clivrsn.KeptOfRebuilt | clivrsn/clivrsn.go:88-98 | On an already-rebuilt file, the first n lines are kept unchanged. |
| Clivrsn.KeptOfRebuiltAll | clivrsn/clivrsn.go:88-98 | On an already-rebuilt file, all lines are kept, except that one trailing empty line is dropped. |
| Clivrsn.RebuildNeverGrows | clivrsn/clivrsn.go:92-98 | Rewriting the rewritten file with the same version gives it back unchanged, or shorter by one trailing newline, never longer: newlines do not pile up at the end. |
| Clivrsn.CleanFileUnchanged | clivrsn/clivrsn.go:86-100 | A newline-terminated file whose version line already reads the new version, and whose last line is non-empty, is rewritten to itself. |
| Clivrsn.Increment | clivrsn/clivrsn.go:127 | `z_release++` on a 64-bit int: the successor, except that the largest value wraps to the smallest. |
| Clivrsn.BumpZ | clivrsn/clivrsn.go:122-129 | Panics iff the version has fewer than three `.` pieces. Fails iff piece 2 is not an int. Otherwise its pieces are the old ones with piece 2 replaced by the printed successor. |
| Clivrsn.ReadNextZ | clivrsn/clivrsn.go:108-130 | A validation error is returned as is. When validation passes: a failed read returns the read's error, a file without a readable version returns `readVersion`'s failure or panic, and otherwise the result is `BumpZ` of the version read. A value comes only from that last case. |
| Clivrsn.NextZAfterUpdate | clivrsn/clivrsn.go:108-129 | After a rewrite to v, the next Z release read from the file is that of v. |
| Clivrsn.BumpExample | clivrsn/clivrsn.go:122-129 | `v0.0.3` bumps to `v0.0.4`. |
| Clivrsn.ReadExample | clivrsn/clivrsn.go:19-25 | The line `const VERSION string = "v0.0.3"` reads as `v0.0.3`. |
| Clivrsn.VersionLineTokens | clivrsn/clivrsn.go:90 | The written line is the five space-separated tokens ending in the quoted version. |
| Cli.ShouldHaveArgs | cli/command_line.go:27-60 | The scan stops at the first `-h`, or at the first dash argument among the guarded positions. The source guards positions 0 to n (`AsWrittenGuard`): with n = 1, as both callers pass, only the program name and the verb; a required argument is checked only when n ≥ 3, and then only the first n-2. Help (exit 0) iff the first stop is `-h`. A usage error happens iff the first stop is a dash argument, or there is no stop and too few arguments. Flags are parsed iff there is no stop, there are more than n+3 arguments and a flag set exists, and they are the arguments after position n+3. Otherwise it proceeds. |
| Cli.GateExit | cli/command_line.go:31-56 | Only help and usage errors exit: help with 0, a usage error with 1. |
| Cli.OsSupportsCommand | cli/command_line.go:62-69 | True iff the OS name is in the command's list. |
| Cli.Listed | cli/command_line.go:73-77 | The listing has at most one line per command, and every supported command's `verb noun` appears. |
| Cli.ListedSound | cli/command_line.go:73-77 | Every listed line is `verb noun` of a supported command. |
| Cli.ListedAppend | cli/command_line.go:73-77 | The listing keeps table order: listing `a + b` is listing a followed by listing b. |
| Cli.ListingStep | cli/command_line.go:74-76 | A supported command adds the line `    verb noun\n`, and an unsupported one adds nothing. |
| Cli.PrintTopUsage | cli/command_line.go:71-78 | The printed text is the usage header followed by the indented listing of supported commands. |
| Cli.HandleCommandErrorAsWritten | cli/command_line.go:86-100 | Exits 0 iff there is no error, else 1. Usage is printed iff the error is a `*clierr.InvalidInput`, and every other error is an execution error. The error's text is printed. |
| Cli.ValidatorFailureLosesUsage | cli/command_line.go:88-96 | A validator failure with known rules (an `*errtype.InvalidInput`) gets no usage from the handler as written, but does from the corrected one. |
| Cli.HandleCommandError | cli/command_line.go:86-100 | As above, but usage is printed for both invalid-input types. |
| Cli.ReportedWithUsage | cli/command_line.go:89-93 | For an invalid input, the intended handler prints the error's text, then `Usage:` with the usage and `Description:` with the description. |
| Cli.ReportedWithoutUsage | cli/command_line.go:94-95 | The handler as written prints any error other than a `*clierr.InvalidInput` as exactly `Error running command:`, a blank line, the error's text and a newline. |
| Cli.Matching | cli/command_line.go:127-133 | The matching indices lie in the table. Nothing matches with fewer than three arguments. |
| Cli.MatchingSound | cli/command_line.go:127-133 | Every index returned matches: verb, noun and OS. |
| Cli.MatchingComplete | cli/command_line.go:127-133 | Every matching index is returned. |
| Cli.MatchingIncreasing | cli/command_line.go:127-133 | Indices are returned in strictly increasing table order. |
| Cli.MatchingPrefix | cli/command_line.go:128-132 | Scanning fewer entries gives a prefix of the matches. |
| Cli.Dispatch | cli/command_line.go:127-133 | The handlers run are a prefix of the matches, in order. None but the last ends the process. The process is handled iff the last one run exits. If none exits, all matches have run. |
| Cli.Fallback | cli/command_line.go:135-150 | Exits 0 iff argument 1 is `--version` or `-h`. `--version` prints the tool version and a newline, and `-h` prints the top usage. Otherwise it exits 1 and prints `Unknown <tool> command "<args joined by spaces>"`, a blank line and the top usage. |
| Cli.RunCommand | cli/command_line.go:102-151 | Dispatches over the tool's commands followed by the built-in one. The run ends in the last handler run that exits, or else all matching handlers have run and the fallback decides. |
| Cli.ToolCommandsComeFirst | cli/command_line.go:103-125 | If a tool command matches, the first handler run is a tool's, and the built-in can only be the last. |
| Cli.UpdateVersionOnlyOnLinuxAndWindows | cli/command_line.go:103-108 | The built-in entry matches iff the arguments are `update version ...` on linux or windows. |
| Cli.UpdateArgsPassGate | cli/command_line.go:111 | `clibuild update version FILE` passes the argument check of the built-in handler for any file name other than `-h`, a dashed one included. |
| Cli.DashArgumentSlipsThrough | cli/command_line.go:39-41 | As written, `clibuild run example -example=world` (one required argument) passes the scan, so the flag reaches the handler as its input. The intended guard stops it. |
| Cli.IntendedGuardCatchesDashArgument | cli/command_line.go:39-48 | With the intended guard, any required argument that starts with a dash ends the command with help or a usage error. |
| Cli.FirstStopExists | cli/command_line.go:30-49 | If any argument stops the scan, there is a first one that does. |
| Cli.UpdateVersionHandlerAsWritten | cli/command_line.go:108-122 | On a scan stop at `-h` it exits 0 with the help. On a usage error it exits 1 with the not-enough-arguments report. Otherwise its effect is `UpdateVersion`'s, with `""` as the new version when none is given, and its exit is `HandleCommandErrorAsWritten` of that effect's error. So with exactly one argument it always exits 1 with an execution error. |
| Cli.UpdateVersionHandler | cli/command_line.go:108-122 | Same help and usage exits, but it uses the intended guard. Without a new version, its effect is `UpdateVersion` with the next Z release from `ReadNextZ`. A failure of `ReadNextZ` goes through `HandleCommandError`, and a panic exits 2. With a new version, its effect is `UpdateVersion`'s. Every exit after an effect is `HandleCommandError` of its error, so a typed invalid input is reported with usage. |

## Left out

- File I/O is not modelled: the chunked read in `readFileInChunks` (and its `O_CREATE`, which creates a missing file), and the open and write failures of `overwriteFile`. A read is a `Result` parameter, and a write is an `Overwrite` effect whose failure is not modelled.
- JSON decoding in `validator.ValidateParams`: the model takes the decoded records. The parse-failure branch (`failed to parse validator as yaml`) is not modelled.
- Clivrsn.UpdateVersion: assumes the `%s`-built JSON descriptor decodes to the two intended records. The model does not capture what happens otherwise. A file name or version containing `"` or `\` makes the Go code fail to parse, or decode other values. So does any control character below U+0020, a newline in particular: `json.Unmarshal` rejects those raw inside a string, so Go returns the `failed to parse validator as yaml` invalid input where the model validates and writes. For the same reason, a version with a newline never reaches the rewrite in Go. That is the case the `'\n' !in v` requirement of Clivrsn.UpdateThenRead and Clivrsn.RebuildNeverGrows leaves out.
- Clivrsn.ReadNextZ: the same assumption about its one-record descriptor.
- The `regexp` package is not modelled; each pattern used (`^[\d]+$`, `^[\d\.]+$`) is a character class matched over the whole value.
- The `flag` package is not modelled. `Parse` is represented by the arguments it would receive. `PrintDefaults` is represented by a `flags` marker on the report, not by its text.
- `filepath.Glob` is an oracle. Its pattern syntax is not modelled.
- Standard output and standard error are text values in the exit or ending, not streams. The interleaving of the two streams is not modelled.
- Strconv.AtoiErrorText: quotes the input as is. Go's `strconv.Quote` escapes special characters, which the model does not.
- Go's `int` is taken to be 64 bits.
- Clivrsn.ReadVersionReadsFirst: counts characters where `ver[1:len(ver)-1]` slices bytes. It agrees with Go on ASCII tokens only. For a token that is one two-byte character such as `é`, Go returns the empty string, while the model panics. For a token quoted with multi-byte quote characters, Go returns a slice with broken encoding, while the model drops whole characters.
- Clivrsn.ReadVersion: the same character-for-byte reading of the token. All strings in the model are sequences of characters, and no UTF-8 encoding is modelled.
- Cli.ShouldHaveArgs: takes `num_args` as a natural number; a negative count is not modelled.
- A tool's `ExecutionFn` closures are opaque. A user command carries its handler's id, and whether that handler ends the process is an oracle on the id. Their other effects are not modelled.
- `clibuild.go` is not part of this model; it only wires tool metadata. `version/version.go` appears only as the `v0.0.3` example.
- Dispatch runs every matching command, because the code has no `break`, and the model follows the code: a later matching entry still runs when an earlier handler returns.

## Findings

| source | as written | input that shows it | evidently intended | confidence | as-written member | corrected member |
|---|---|---|---|---|---|---|
| cli/command_line.go:88-96 | The type switch matches only `*clierr.InvalidInput`, but the validator returns `*errtype.InvalidInput`. Validation failures are therefore printed as execution errors without usage. | `tool update version ""`, or any failing validation with known rules | Validation failures print the usage and description, as the comment at lines 80-82 promises for invalid input | not executed | Cli.HandleCommandErrorAsWritten, Cli.ValidatorFailureLosesUsage | Cli.HandleCommandError |
| cli/command_line.go:112-117 | Without a new version, the handler passes `""` to `UpdateVersion`, whose `NotEmpty` rule always rejects it | `clibuild update version version/version.go` (see Cli.UpdateArgsPassGate, Clivrsn.EmptyArgumentRejected) | The description at line 110 promises the next Z release when no new version is given | not executed | Cli.UpdateVersionHandlerAsWritten | Cli.UpdateVersionHandler |
| cli/command_line.go:41 | `index <= num_args` checks positions 0 to n of `os.Args`: with n = 1, as both callers pass, only the program name and the verb, so neither the noun nor the required argument is checked for a dash. A required argument is checked only when n ≥ 3, and then only the first n-2 | `clibuild run example -example=world` (see Cli.DashArgumentSlipsThrough): the flag passes the scan and becomes the command's input | Required arguments, positions 3 to n+2, that start with a dash end the command with a usage error, as the comment at lines 39-40 and clibuild.go:55-59 describe | not executed | Cli.ShouldHaveArgs with Cli.AsWrittenGuard, Cli.DashArgumentSlipsThrough | Cli.IntendedGuardCatchesDashArgument (Cli.IntendedGuard, used by Cli.UpdateVersionHandler) |
