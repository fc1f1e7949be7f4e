# Factorio agent scripts: chat tailing, Lua snippets and retry

These command-line scripts let an agent drive a Factorio server over RCON. This project
models their text and cursor handling in Dafny:

- **Chat-log tail reader** (`readNewChatMessages` in `scripts/factorio-eval.ts`).
  - A persisted cursor `(lastPosition, lastModified)` over the server log.
  - Rotation detection: the mtime went back, or the log shrank below the cursor.
  - Each new line is matched against the chat pattern `^(?:\s*[\d.]+\s+)?\[CHAT\]\s+([^:]+):\s*(.+)$`.
  - The tool's own `[AI]` and `[AI Chat]` lines are dropped.
  - The cursor store is a class whose `Save` is best effort.
  - The reader is a method whose loop is proved against the function `ReadNew`.
- **Lua snippet builders** of the eval script: `escapeForLua`, `truncateCode`, `getPlayerAccessor` and `wrapLuaCode`. The last injects `player`/`surface`/`force` and prints the value through `rcon.print(serpent.line(...))`.
- **Tool code preparation.** `scripts/factorio-tool.ts` and `runLuaTool` of `scripts/factorio-cli.ts` both do these steps:
  - turn arguments into Lua assignments;
  - inject them before the first `(function()`;
  - wrap the result of the last IIFE.

  The shared steps are `IifeCode.PrepareToolCode`. Each script binds arguments in its own way:
  - `KEY=value` pairs in the tool runner;
  - positional parameters from the CLI's tool table.
- **Chat script** (`scripts/factorio-say.ts`): the `game.print` command with the `[AI Chat]` tag, and the CLI's joining of `say` arguments.
- **Bounded retry** `executeWithRetry`. It is shared by the eval and chat scripts, over an abstract transport.

Modules:
- `Text`: the JavaScript string operations used (`indexOf`, `lastIndexOf`, `trim`, `trimEnd`, `split`, `join`, the `\s` whitespace set).
- `ChatLog`
- `LuaSnippets`
- `Retry`
- `IifeCode`
- `ToolScript`
- `Cli`
- `SayScript`

The chat pattern is modelled two ways:
- a decision procedure (`ParseChatLine`);
- a declarative grammar (`ChatParts`, `ChatLine`).

They are tied together by soundness and completeness lemmas.

Rotation: the code resets the read position only when the mtime went back or the log shrank below the cursor. A replacement log at least as long as the old cursor, with a later mtime, is therefore not detected: it is read from the old cursor, so its first `lastPosition` characters, chat included, are skipped, and one of exactly the old size is not read at all. The model follows the code (`ChatLog.ReplacementReadFromOldCursor`).

## Model

| member | source | states |
|---|---|---|
| ChatLog.CursorStore.Save | scripts/factorio-eval.ts:85-91 | a successful write stores the new cursor; a write that fails to open is ignored and the old state stays; a write that fails after the file was truncated is ignored too and leaves no parsable state |
| ChatLog.InterruptedSaveRepeatsChat | scripts/factorio-eval.ts:74-91 | after a successful save the same log reads as nothing new; after a save that failed past the truncation the cursor loads as (0, 0) and every chat line of the log is reported again |
| ChatLog.ParseChatLineSound | scripts/factorio-eval.ts:122-125 | every accepted line has this shape: optional timestamp, `[CHAT]`, non-empty blank gap, non-empty colon-free name, `:`, blank padding, non-empty single-line text; the captures are that name and text |
| ChatLog.ParseChatLineComplete | scripts/factorio-eval.ts:122-125 | every line of that shape is accepted; trimmed captures equal the trimmed name and text, and are exact when those start non-blank |
| ChatLog.ChatMessageOf | scripts/factorio-eval.ts:125-136 | a line yields a message only if it matches the pattern, and never one starting with `[AI]` or `[AI Chat]` |
| ChatLog.ChatMessages | scripts/factorio-eval.ts:124-138 | at most one message per line, and none of the tool's own |
| ChatLog.ChatMessagesFromLines | scripts/factorio-eval.ts:124-136 | every reported message is the message of one of the examined lines |
| ChatLog.ChatMessagesAppend | scripts/factorio-eval.ts:124-138 | messages come out in file order: extraction distributes over concatenation of lines |
| ChatLog.ReadStart | scripts/factorio-eval.ts:105-109 | the start is within the file (read length never negative); 0 after rotation, the cursor position otherwise |
| ChatLog.ReadNew | scripts/factorio-eval.ts:93-150 | a missing or unreadable log gives no messages and saves nothing; a read log saves the cursor (size, mtime) |
| ChatLog.ReadNewChatMessages | scripts/factorio-eval.ts:93-150 | the loop collects exactly `ReadNew`'s messages from the loaded cursor, and once the log was read the store holds what the save left: (size, mtime), the old state, or nothing parsable |
| ChatLog.UnchangedLogYieldsNothing | scripts/factorio-eval.ts:105-144 | reading an unchanged log again yields nothing and keeps the cursor |
| ChatLog.ReplacementReadFromOldCursor | scripts/factorio-eval.ts:105-109 | a replacement at least as long as the old log, with a later mtime, is not detected: only its text after the old cursor is examined, and nothing when it has the old size |
| ChatLog.AppendReadsOnlyNewText | scripts/factorio-eval.ts:105-118 | after an append at the cursor, only the lines of the appended text are examined |
| ChatLog.ReadsAcrossAppendLoseNothing | scripts/factorio-eval.ts:105-144 | reading a log ending in a complete line, then its append, reports exactly what one read of the whole log reports |
| ChatLog.CompleteLinesAppend | scripts/factorio-eval.ts:118-138 | text ending in a newline contributes its messages followed by those of the appended text |
| Text.JoinSplit | scripts/factorio-eval.ts:118 | splitting the read text at line feeds loses nothing: joining the pieces with `\n` gives the text back |
| ChatLog.EmptyLineSkipped | scripts/factorio-eval.ts:118-126 | the empty piece after a final newline contributes nothing |
| ChatLog.RotationRereadsWholeLog | scripts/factorio-eval.ts:106-109 | after rotation the whole log is read |
| ChatLog.FreshCursorReadsWholeLog | scripts/factorio-eval.ts:74-83 | with the default cursor (0, 0) the whole log is read |
| ChatLog.ChatLineReported | scripts/factorio-eval.ts:122-136 | a chat line is reported with trimmed name and text unless its text starts with `[AI]` or `[AI Chat]` |
| ChatLog.LineWithoutTagSkipped | scripts/factorio-eval.ts:122-126 | a line without `[CHAT]` contributes nothing |
| LuaSnippets.EscapeForLua | scripts/factorio-eval.ts:173-179 | the four replace passes (backslash first) equal escaping each character on its own |
| LuaSnippets.EscapedLength | scripts/factorio-eval.ts:173-179 | output length is input length plus the count of `\`, `"`, line feeds and carriage returns |
| LuaSnippets.EscapedHasNoLineBreaks | scripts/factorio-eval.ts:173-179 | the output contains no raw line feed or carriage return |
| LuaSnippets.UnescapeEscaped | scripts/factorio-eval.ts:173-179 | reading the output back as a Lua literal body gives the input |
| LuaSnippets.EscapedIsWellFormed | scripts/factorio-say.ts:26-32 | every quote and backslash in the output is part of an escape, so the literal cannot be closed early |
| LuaSnippets.TruncateCode | scripts/factorio-eval.ts:181-186 | unchanged when the limit is not positive or not exceeded; otherwise the first `limit` characters then `...`; with a positive limit never longer than limit + 3 |
| LuaSnippets.PlayerAccessor | scripts/factorio-eval.ts:164-171 | `game.players[...]`, quoted exactly when the target is not all digits |
| LuaSnippets.AccessorNamesTarget | scripts/factorio-eval.ts:164-171 | the name goes between the quotes unescaped, so the accessor, read by Lua's string rules, selects the configured target exactly when the target is an index or a name without `\`, `"`, line feed or carriage return |
| LuaSnippets.WrapLuaCode | scripts/factorio-eval.ts:188-216 | setup first when needed; code with `rcon.print` is a suffix of the result, other code is wrapped as `rcon.print(serpent.line((function() return <code> end)()))`; with the setup, the result is the setup, the echo when commands are shown, and that body, with nothing else between them |
| LuaSnippets.SetupIffNeedsPlayer | scripts/factorio-eval.ts:192-198 | the result opens with `local player = ` exactly when `player`, `surface` or `force` occurs as a whole word |
| LuaSnippets.DelimitedWordNeedsPlayer | scripts/factorio-eval.ts:192 | one of the three words between non-word characters triggers the setup |
| LuaSnippets.ShowCommandsOnlyAddsEcho | scripts/factorio-eval.ts:200-206 | turning on command display only inserts the echo after the setup, and only when the setup is there |
| LuaSnippets.EchoReadsBack | scripts/factorio-eval.ts:203-205 | the echo is the fixed head, a well-formed literal body that reads back as the shown code, and `"); ` |
| Retry.ExecuteWithRetry | scripts/factorio-eval.ts:218-240 | at most `retries` rounds; the first reply wins; every earlier round failed; the last round's error is rethrown; "Max retries exceeded" iff `retries < 1` |
| IifeCode.NumericSound | scripts/factorio-tool.ts:52 | a value passing the numeric test is an optional `-`, digits, and an optional `.` and digits |
| IifeCode.NumericComplete | scripts/factorio-tool.ts:52 | every such number passes the test |
| IifeCode.NumericIsPlainToken | scripts/factorio-cli.ts:202 | an unquoted number holds only `-`, `.` and digits |
| IifeCode.InjectionPoint | scripts/factorio-tool.ts:67-74 | the first occurrence of `(function()`, or 0 (the assignments are prepended) when there is none |
| IifeCode.InjectAssignments | scripts/factorio-tool.ts:66-75 | the code before the injection point, the assignments and `;\n`, the rest of the code, nothing else |
| IifeCode.WrapIifeResult | scripts/factorio-tool.ts:79-90 | code that does not end in `end)()` or holds no IIFE is only right-trimmed |
| IifeCode.LastIife | scripts/factorio-tool.ts:84 | the wrap starts at the last `(function()` |
| IifeCode.WrappedPrints | scripts/factorio-tool.ts:77-90 | a wrapped result contains `rcon.print` |
| IifeCode.WrapIsIdempotent | scripts/factorio-tool.ts:79-90 | wrapping a wrapped result changes nothing |
| IifeCode.PrepareToolCode | scripts/factorio-tool.ts:64-90 | the step-by-step reassignments equal injection (only with assignments) followed by the wrap |
| ToolScript.LuaValue | scripts/factorio-tool.ts:51-61 | numbers bare, values between two matching quotes as-is, others double-quoted verbatim; the result is a number or starts and ends with the same quote, though without escaping it need not be a closed Lua literal |
| ToolScript.LoneQuoteIsNotALiteral | scripts/factorio-tool.ts:55-59 | the value `"` counts as already quoted as written, and is not a literal |
| ToolScript.LuaValueDiffersOnlyOnLoneQuote | scripts/factorio-tool.ts:51-61 | the corrected rendering agrees with the script on every value but a lone quote |
| ToolScript.LuaValueIsIdempotent | scripts/factorio-tool.ts:51-61 | rendering a rendered value again changes nothing |
| ToolScript.FlagIsTrue | scripts/factorio-tool.ts:44-46 | an argument without `=` becomes `<arg> = true` |
| ToolScript.PairSplitsAtFirstEquals | scripts/factorio-tool.ts:44-49 | `KEY=value` splits at the first `=`, so the value keeps any further `=` |
| ToolScript.Assignments | scripts/factorio-tool.ts:43-62 | one assignment per argument, in argument order, each value rendered by the corrected `LuaValue` |
| ToolScript.NoAssignmentsIffNoParams | scripts/factorio-tool.ts:62-66 | the joined assignments are empty exactly when there are no arguments, so the code is injected into only when there are some |
| ToolScript.RunTool | scripts/factorio-tool.ts:15-90 | usage error without a name, "not found" without the file, otherwise the prepared code, built with the corrected value rendering (for a lone `"` it launches `KEY = """`, where the script launches `KEY = "`) |
| ToolScript.EvalDoesNotRewrap | scripts/factorio-tool.ts:77-90 | code the runner wrapped ends the eval script's output unchanged, with no second wrap |
| Cli.CliValue | scripts/factorio-cli.ts:201-206 | a numeric argument passes unchanged; any other argument is placed verbatim between double quotes |
| Cli.CliValueAgreesWithToolRunner | scripts/factorio-cli.ts:201-206 | except for an already quoted argument, the CLI renders a value as the tool runner does |
| Cli.QuotedArgumentIsQuotedAgain | scripts/factorio-cli.ts:201-206 | unlike the tool runner, an already quoted argument is quoted once more |
| Cli.Bind | scripts/factorio-cli.ts:196-207 | min(args, params) assignments; the i-th argument sets the i-th parameter's global |
| Cli.ExtraArgumentsIgnored | scripts/factorio-cli.ts:196 | arguments beyond the parameters change nothing |
| Cli.BuildAssignments | scripts/factorio-cli.ts:195-207 | the indexed loop builds exactly `Bind` |
| Cli.JoinedAssignmentsEmptyIffNone | scripts/factorio-cli.ts:212-213 | the joined assignments are empty exactly when there are none |
| Cli.RunLuaTool | scripts/factorio-cli.ts:184-231 | unknown tool, missing file, or the bound assignments injected and the result wrapped |
| Cli.InheritedNameIsNotUnknown | scripts/factorio-cli.ts:185-193 | as written, `constructor` is not a tool yet is reported as a missing tool file |
| Cli.InheritedNameRunsItsFile | scripts/factorio-cli.ts:185-197 | as written, with a file at its path, `constructor` launches that file's code when no argument is given and throws once one is |
| Cli.SayRejectedIff | scripts/factorio-cli.ts:325-330 | the usage error occurs exactly for no arguments or a single empty one |
| Cli.SayWordsRecoverable | scripts/factorio-cli.ts:325-326 | space-free arguments are recovered by splitting the message at spaces |
| SayScript.ChatLiteralReadsBack | scripts/factorio-say.ts:85-87 | the command is the fixed `[AI Chat]` head, a well-formed single-line literal body reading back as the message, and `")` |
| SayScript.ChatCommandIsInjective | scripts/factorio-say.ts:85-87 | distinct messages give distinct commands |
| SayScript.Say | scripts/factorio-say.ts:58-99 | usage error for an empty message, password error next; otherwise delivered iff one of three rounds replied, and an error iff all three failed, carrying the third round's error |

## Left out

- RCON transport: connect, send and disconnect are the function `send(command, round)`. Host, port, the one-second pause and the console notices are not modelled.
- Process spawning: spawning the eval and say scripts is the `Launch` result. The child's output, exit codes, console printing, help text and the `logs/` usage logging are not modelled.
- Eval script `main`: reading code from stdin, the `/silent-command` prefix, printing of chat and result, and output truncation are not modelled. The parts it calls are.
- Environment variables: the player target, `SHOW_COMMANDS` and the display limit are `EvalConfig` fields. The RCON password is a parameter of `SayScript.Say`. Other settings are not modelled.
- File system:
  - files are a map from paths to text;
  - paths are relative to the working directory (tool runner) or project root (CLI) instead of absolute `path.join` results, and are not normalised;
  - the log is `LogFile`, with an integer mtime instead of a floating-point `mtimeMs`;
  - log bytes are characters, so a UTF-8 sequence split at the cursor is not modelled.
- ChatLog.CursorStore: a cursor file holding JSON of another shape is treated as missing; the source would use whatever fields it parsed.
- Retry.ExecuteWithRetry: `retries` is an integer; a fractional count is not modelled.
- The timestamp field of a chat message (`new Date().toISOString()`) is not modelled.
- The CLI's `main` dispatch (`!TOOLS[command]`, help and screenshot) is not modelled; it shares the inherited-name lookup of the finding below.
- Tool descriptions, `required` flags and examples in the CLI's tool table are help text and are not modelled.
- Strings are sequences of Unicode scalar values, while the scripts' `length`, `substring` and `slice` count UTF-16 code units. Lengths and cut points therefore differ for characters outside the Basic Multilingual Plane (BMP): `TruncateCode` leaves a two-emoji code unchanged at limit 2, where the eval script would cut it after the first emoji.
- SayScript.ChatLiteralReadsBack: the single-line guarantee covers the escaped message only, not the fixed head text.

## Findings

| source | as written | input that shows it | evidently intended | confidence | as-written member | corrected member |
|---|---|---|---|---|---|---|
| scripts/factorio-tool.ts:56-57 | a value counts as already quoted when it starts and ends with the same quote, which a one-character `"` or `'` does | `pnpm tool walk DIRECTION="` gives the unterminated Lua `DIRECTION = "` | only a value enclosed in a pair of quotes is used as-is; the runner still escapes nothing, so the corrected `DIRECTION = """` is unterminated too, and any value holding a `"` yields broken Lua either way | medium, not executed | ToolScript.LoneQuoteIsNotALiteral | ToolScript.LuaValue |
| scripts/factorio-cli.ts:185-188 | `TOOLS[toolName]` also finds properties every object inherits | `factorio constructor` reports "Tool file not found: …/lua/api/constructor.lua"; if that file existed, reading `tool.params.length` would throw when arguments are given, and the file's code would run when none are | every name outside the tool table is an unknown tool | high, not executed | Cli.InheritedNameIsNotUnknown | Cli.RunLuaTool |
