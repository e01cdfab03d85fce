# file-updater: a verified model of the reconciliation engine

file-updater keeps generated files in a workspace in sync with code. Each
entry of a files object maps a path relative to the workspace root to an
*updater*. An updater is either a bare callback, which is treated as the
built-in `text` strategy, or a strategy (`FileConfig`) with four operations:

- `read` parses an existing file;
- `update` computes the expected content from the current content, which is
  `null` when the file is missing;
- `equal` compares expected and actual content;
- `write` stores the expected content.

A run evaluates every entry, keeps the entries whose content drifted, and then
does one of three things:

- returns quietly when nothing drifted;
- in test mode, throws a report that names each drifted file;
- otherwise, writes each drifted file in turn. An expected `null` deletes the
  file. Any other value first creates the parent directories.

The model consists of these modules:

- `Types`: content values, strategies and updaters. `FileConfig.Valid` states
  the call preconditions that `src/types.ts` documents for `equal` and `write`.
  The engine's calls are checked against them.
- `Paths`: `join`, `relative`, `dirname`, `mkdir -p` ancestors, and the
  `\` to `/` rewrite of labels.
- `Io`: the filesystem as the class `Disk`, plus `findWorkspaceDir`.
- `Strategies`: the `text` and `json` strategies.
- `Messages`: decimal rendering, and `join("\n")` / `split("\n")`.
- `Engine`: the engine itself. It has two layers:
  - specification functions: `CheckFileForUpdates`, `Changed`, `TestMessage`,
    `WriteEffect`, `ApplyWrites` and `Evaluate`;
  - the imperative `UpdaterWithOptions`, `Write` and `DriftMessage`, each
    proved equal to those functions.
- `EngineProperties`: the behaviour the library promises, stated about the
  specification functions. This covers three things:
  - apply mode reconciles the workspace and touches nothing else;
  - the test-mode report is exact and complete;
  - re-running after an apply finds no drift.
- `Scenarios`: the repository's own test situations, worked through the model.
  The file names and texts are shortened (`hw` holding `H` stands for
  `helloWorld.txt` holding `Hello World`), which changes nothing about the
  behaviour shown.

A files object is modelled as the list `entries` that `Object.entries(files)`
gives. Its keys are distinct, and its order is the order `Object.entries`
uses: integer-like keys first in ascending order, then the other keys in
insertion order. "Entry order" in the properties below means this order.
`Engine.UpdaterWithOptions` accepts any list. A list with a repeated key
cannot come from an object, and the engine would evaluate such a key twice.
The properties that rely on distinct keys require them (`DistinctKeys`).

Where the declared types and the code disagree, the model follows the code in
`src/index.ts`:

- `UpdaterOptions` in `src/types.ts` has a `getFiles` field. The code reads
  `workspaceDir`, `test` and `quiet`, so the model does too.
- The tests call a `performUpdates` that `src/index.ts` does not export. The
  model follows `updaterWithOptions`.

## Model

| member | source | states |
|---|---|---|
| Engine.IsEqual | src/index.ts:136-147 | both absent means unchanged; exactly one absent means drift; both present means the strategy's `equal` decides, and it is consulted only then |
| Engine.Normalise | src/index.ts:154 | a function becomes `text(callback)` and a strategy passes through unchanged; the result is callable |
| Engine.ConvertCallbacksToConfigs | src/index.ts:149-157 | same keys in the same order, each normalised, every strategy callable |
| Engine.CheckFileForUpdates | src/index.ts:106-125 | a missing file gives `update` a `null` without calling `read`; it fails exactly when `read` fails, with that error; otherwise the outcome carries the joined path, the label `"    " + key` with `\` shown as `/`, the expected content `update` returned, and `equal` as `isEqual` decides; a drifted deletion always names an existing file |
| Engine.CheckFilesForUpdates | src/index.ts:95-104 | on success, exactly one outcome per entry, each with a strategy the engine may call |
| Engine.CheckFilesForUpdatesOk | src/index.ts:95-104 | on success, the outcome at each position is that entry's own check, in entry order |
| Engine.CheckFilesForUpdatesFirstError | src/index.ts:95-104 | on failure, the error is that of the first entry whose check failed, and every earlier entry succeeded |
| Engine.Changed | src/index.ts:70 | keeps every drifted outcome and nothing else; order and multiplicity are stated by `EngineProperties.ChangedInEntryOrder` |
| Engine.DriftedFrom | src/index.ts:70 | the positions, from a start index on, of the drifted outcomes: each listed position is in range and drifted |
| EngineProperties.DriftedIncreasing | src/index.ts:70 | the listed drifted positions are strictly increasing |
| EngineProperties.DriftedComplete | src/index.ts:70 | every drifted position from the start index on is listed |
| EngineProperties.ChangedInEntryOrder | src/index.ts:70 | the filtered list has one element per drifted position, and its k-th element is the outcome at the k-th drifted position: entry order is kept and each drifted outcome appears once |
| Engine.Actual | src/index.ts:112-114 | no contract of its own: the content handed to `update`, which is `read`'s result for an existing file and `null` without calling `read` otherwise; stated by `Engine.CheckFileForUpdates` and `EngineProperties.TextActualNullIffMissing` |
| Engine.Label | src/index.ts:118-122 | no contract of its own: `toString`, four spaces and the path relative to the workspace with `\` shown as `/`; for a joined key this is the key itself (`Paths.RelativeJoin`, `Engine.CheckFileForUpdates`) |
| Engine.Labels | src/index.ts:82-84 | one label per outcome, in the outcomes' order, each that outcome's `toString` |
| Engine.Header | src/index.ts:78 | no contract of its own: the first line of the report; `EngineProperties.HeaderNamesCount` states its shape and that it names the count |
| Engine.TestMessage | src/index.ts:78-85 | no contract of its own: the header and the labels joined with newlines; `EngineProperties.TestModeReport` states what it says, and `Engine.DriftMessage` is proved to build it |
| Engine.WriteEffect | src/index.ts:127-134 | the write of one outcome changes no file but its own and removes no directory; what it does to its own file is stated by `Engine.Write` and `EngineProperties.ApplyWritesEffect` |
| Engine.ApplyWrites | src/index.ts:88-92 | no contract of its own: the apply loop over the drifted outcomes; `EngineProperties.ApplyWritesFrame`, `ApplyWritesEffect`, `ApplyWritesSplit` and `ApplyWritesHaltsAtFailure` state its behaviour, and `Engine.ApplyChanged` is proved to perform it |
| Engine.WorkspaceDir | src/index.ts:67 | no contract of its own: the `workspaceDir` option when given, otherwise `findWorkspaceDir` (`Io.FindWorkspaceDir`) |
| Engine.Evaluate | src/index.ts:67-70 | no contract of its own: the workspace lookup, then every entry's check; `Engine.UpdaterWithOptions` is proved to compute it before acting |
| Engine.Write | src/index.ts:127-134 | the disk afterwards, and the error, are `WriteEffect` of the disk before: a null expected content unlinks the file, with unlink's error when it is missing; otherwise the parent directories are created and the strategy's text is stored, or its error reported |
| Engine.DriftMessage | src/index.ts:78-86 | the message built by pushing each label after the header and joining with newlines equals `TestMessage` |
| Engine.ApplyChanged | src/index.ts:88-92 | the disk afterwards, and the error, are `ApplyWrites` of the disk before: each drifted outcome's write in turn, stopping at the first that fails |
| Engine.UpdaterWithOptions | src/index.ts:66-93 | a failed workspace lookup or read leaves the disk untouched and returns that error; no drift leaves the disk untouched; test mode leaves the disk untouched and throws the report; apply mode leaves the disk as `ApplyWrites` of the drifted outcomes and returns the first write error |
| Io.UnlinkError | src/io.ts:20-22 | no contract of its own: the `ENOENT` message `unlinkSync` throws, naming the path; `Io.Disk.RemoveFile` reports it for a missing file |
| Io.Disk.FileExists | src/io.ts:24-26 | no contract of its own: whether the disk holds a file at the path |
| Io.FindWorkspaceDir | src/io.ts:28-37 | the current directory exactly when it holds `package.json`, otherwise the source's error message naming the directory |
| Io.Disk.WriteFile | src/io.ts:16-18 | creates or replaces exactly that file; directories unchanged |
| Io.Disk.RemoveFile | src/io.ts:20-22 | deletes an existing file; for a missing file, reports unlink's error and changes nothing |
| Io.Disk.MakeDirs | src/index.ts:131 | the directory and all its ancestors exist afterwards; nothing is removed |
| Paths.Join | src/index.ts:111 | no contract of its own: the directory, one `/`, then the key; `Paths.RelativeJoin` undoes it and `Paths.JoinInjective` shows it keeps keys apart |
| Paths.Relative | src/index.ts:118 | no contract of its own: the path with the directory and its `/` stripped; `Paths.RelativeJoin` shows it undoes `Join` |
| Paths.JoinInjective | src/index.ts:111 | with `join` modelled as the directory, one `/` and the key, distinct keys of one workspace give distinct paths (real `path.join` differs for keys that are not in normal form; see Left out) |
| Paths.RelativeJoin | src/index.ts:118 | `relative(dir, join(dir, key))` is `key` |
| Paths.ForwardSlashes | src/index.ts:118 | same length; every `\` becomes `/` and every other character is kept; no `\` remains |
| Paths.ForwardSlashesKeeps | src/index.ts:118 | a key without `\` is displayed as it is |
| Paths.Dirname | src/index.ts:131 | the directory of a path is never empty |
| Paths.DirnameJoin | src/index.ts:131 | the parent of a top-level entry is the workspace directory |
| Paths.Ancestors | src/index.ts:131 | `mkdir -p` of a non-empty directory creates that directory |
| Strategies.Text | src/index.ts:37-52 | the `text` strategy is callable and passes the callback through as `update` |
| Strategies.TextReadsVerbatim | src/index.ts:39-41 | `read` gives the file's text as a string |
| Strategies.TextWritesVerbatim | src/index.ts:48-50 | `write` stores a string exactly and fails for any other non-null value, with the message `writeFileSync` throws for that value |
| Strategies.NotStringError | src/io.ts:16-18 | the error `fs.writeFileSync` throws for data that is not a string: Node's `The "data" argument must be of type string or an instance of Buffer, TypedArray, or DataView.`, followed by what was received |
| Strategies.TextWriteReadRoundTrip | src/index.ts:39-50 | reading back what `text` wrote gives the string it was asked to write |
| Strategies.TextEqualIsIdentity | src/index.ts:45-47 | `equal` is `===` on values |
| Strategies.StripBom | src/io.ts:4-10 | exactly one leading byte-order mark is dropped; other text is unchanged |
| Strategies.Json | src/index.ts:19-35 | the `json` strategy is callable and passes the callback through as `update` |
| Strategies.JsonEqualBySerialisation | src/index.ts:27-29 | `equal` holds exactly when the serialisations agree, so it is reflexive, symmetric and transitive |
| Strategies.JsonWritesWithNewline | src/index.ts:30-33 | `write` always succeeds and stores the 4-space serialisation plus exactly one `\n` |
| Strategies.JsonReadIgnoresBom | src/io.ts:4-10 | a JSON file parses the same with or without a leading byte-order mark |
| Messages.NatToString | src/index.ts:78 | the count is rendered as a non-empty string of decimal digits with no leading zero: it starts with `0` exactly when the count is zero, and then it is that one digit |
| Messages.NatToStringValue | src/index.ts:78 | the rendered count reads back as the count |
| Messages.JoinLines | src/index.ts:85 | no contract of its own: `join("\n")`; `Messages.SplitJoinLines` shows that splitting undoes it |
| Messages.SplitLines | src/index.ts:85 | splitting always gives at least one piece |
| Messages.SplitLinesPrefix | src/index.ts:85 | a line without a newline splits off whole |
| Messages.SplitJoinLines | src/index.ts:85 | splitting on `\n` undoes `join("\n")` when no part holds a newline |
| EngineProperties.ApplyWritesFrame | src/index.ts:88-92 | the apply loop leaves every path that no drifted outcome names exactly as it was, and removes no directory |
| EngineProperties.ApplyWritesEffect | src/index.ts:88-92 | with distinct paths, existing files to delete and successful strategy writes, the loop finishes without error and every outcome's file is as it asks: deleted, or holding the written text with its directory present |
| EngineProperties.ApplyWritesSplit | src/index.ts:88-92 | the loop over a list is the loop over a prefix followed, if that succeeded, by the loop over the rest |
| EngineProperties.ApplyWritesHaltsAtFailure | src/index.ts:88-92 | the first failing write ends the run with its error, and no later write happens |
| EngineProperties.ChangedDistinctPaths | src/index.ts:70 | filtering keeps paths distinct |
| EngineProperties.OutcomesWellFormed | src/index.ts:95-125 | outcomes of distinct keys have distinct paths, each the key joined to the workspace, each with the entry's own strategy |
| EngineProperties.ChangedMember | src/index.ts:70 | every drifted outcome comes from the evaluated list |
| EngineProperties.ReconcileDescribed | src/index.ts:88-92 | over a well-formed evaluation, the apply loop succeeds, reconciles every drifted entry, leaves unchanged entries as they were, and touches no path outside the entries |
| EngineProperties.ApplyModeReconciles | src/index.ts:66-93 | apply mode reconciles the workspace: when the drifted entries' writes succeed, each drifted file ends as its strategy asks, each unchanged file is untouched, and no other path changes |
| EngineProperties.LabelHasNoNewline | src/index.ts:118-122 | a key without a newline gives a label without one |
| EngineProperties.HeaderNamesCount | src/index.ts:78 | the header is `Updater found changes to `, the count in decimal without leading zeros, then ` files:`, with no newline |
| EngineProperties.HeaderHasNoNewline | src/index.ts:78 | the header is a single line |
| EngineProperties.ChangedLabelsFromDrifted | src/index.ts:78-86 | every label in the report belongs to an entry that drifted |
| EngineProperties.DriftedLabelsListed | src/index.ts:78-86 | every drifted entry's label is in the report |
| EngineProperties.ReportLinesHaveNoNewline | src/index.ts:78-86 | no report line holds a newline of its own when keys hold none |
| EngineProperties.ReportLines | src/index.ts:78-86 | splitting the report gives back the header and the labels |
| EngineProperties.DriftedLabelsInOrder | src/index.ts:78-86 | the report's k-th entry line is the label of the entry at the k-th drifted position, and there is one such line per drifted position |
| EngineProperties.ReportLinesInOrder | src/index.ts:78-86 | with the drifted positions listed in strictly increasing order and none missing, the report has one line per drifted position after the header, and line k+1 is the label of the entry at the k-th drifted position |
| EngineProperties.TestModeReport | src/index.ts:78-86 | test mode's report, split into lines, is the header naming the number of drifted entries, then exactly one line per drifted entry: line k+1 is the label of the k-th drifted entry in entry order (the drifted positions strictly increasing, none missing); every drifted entry is listed and every listed line belongs to a drifted entry |
| EngineProperties.TextEntryClean | src/index.ts:106-125 | a text entry whose file was reconciled, or left alone while unchanged, checks out unchanged again |
| EngineProperties.AllCleanNoDrift | src/index.ts:70-76 | when every entry checks out unchanged, evaluation succeeds with nothing drifted |
| EngineProperties.TextReapplyFindsNoDrift | src/index.ts:66-93 | idempotence for `text` entries whose callbacks return their own output unchanged: after apply mode, a second run finds no drift |
| EngineProperties.TextReapplyDescribed | src/index.ts:66-93 | the same idempotence, over an evaluation already known to be well formed |
| EngineProperties.EntriesCleanAfterApply | src/index.ts:106-125 | after apply, every text entry checks out unchanged |
| EngineProperties.TextEntryOutcome | src/index.ts:106-125 | a text entry is unchanged exactly when its callback returns the current content (the file's text, or `null` when missing); its outcome carries that result, the joined path and the label |
| EngineProperties.TextActualNullIffMissing | src/types.ts:14-18 | with `text`, `update` receives `null` exactly when the file does not exist, and the file's text otherwise |
| EngineProperties.ExistingNullContentIsKept | src/index.ts:112-117 | a file whose content reads as `null` counts as absent: if `update` also returns `null`, the entry is unchanged and the file is kept |
| Scenarios.OneTextEntry | src/index.ts:149-157 | a workspace whose only entry is a bare callback evaluates to the text strategy's outcome for it |
| Scenarios.NewFileIsCreated | src/tests/write.test.ts:53-62 | a missing file with a callback returning `"foo"` drifts, and apply creates it holding exactly `foo` |
| Scenarios.ChangedFileIsReported | src/tests/test.test.ts:56-67 | a callback appending `2` to an existing file's text drifts it, and test mode's report is `Updater found changes to 1 files:` followed by the file's label |
| Scenarios.AppendTwoDrifts | src/tests/test.test.ts:56-67 | an existing file holding `H` with a callback appending `2` evaluates to one drifted outcome expecting `H2` |
| Scenarios.OneDriftReport | src/index.ts:78-86 | a one-entry report is the header, a newline and the label |
| Scenarios.UnchangedFileIsLeftAlone | src/tests/write.test.ts:9-20 | a callback returning its input leaves an existing file undrifted |

## Left out

- `updater` (src/index.ts:54-64) is not modelled. It reads `--test` and `--quiet` from `process.argv`, prints the error and exits, and all of that is process I/O. The CLI in `src/cli.ts` and the logger are not part of this model either.
- `quiet` and all `console.log` output are not modelled. They only affect logging.
- Asynchrony is not modelled. `Promise.all` over the entries is treated as sequential evaluation in entry order, and the reported error is that of the first failing entry in that order. Concurrent interleavings of user callbacks are not modelled.
- Exceptions thrown by a strategy's `update` or `equal` are not modelled. Only `read` and `write` can fail, through a `Result`.
- `JSON.parse` and `JSON.stringify` are parameters of the `json` strategy. The model does not claim that they are inverses.
- Files are Unicode strings, not UTF-8 bytes. Only the byte-order mark that `TextDecoder` drops is modelled.
- Paths are modelled as `dir + "/" + key`. Neither join nor relative normalises `..`, `.` or repeated separators, and `relative` for a key that leaves the workspace is not modelled.
- Paths.JoinInjective: this holds for the model's `join`, not for `path.join`. Keys such as `a`, `./a` and `b/../a` are distinct, but `path.join` sends them to one file. When two such entries both drift, the source writes that file twice and only the last write stays. EngineProperties.OutcomesWellFormed, EngineProperties.ChangedDistinctPaths, EngineProperties.ReconcileDescribed, EngineProperties.ApplyModeReconciles and EngineProperties.TextReapplyFindsNoDrift rely on distinct paths, so they hold only for keys in normal form: no empty, `.` or `..` segment, and no leading or trailing `/`.
- `makeDirs` is imported from `src/io.ts`, but that file does not define it. The model assumes it is `mkdirSync(dir, { recursive: true })`: it creates the directory and every missing ancestor, and it never fails.
- Strategies.NotStringError: this follows Node's `ERR_INVALID_ARG_TYPE` message, which comes from Node, not from this repository. It assumes a Node version that refuses non-string data; older versions converted some objects to strings. `undefined` is shown as `null`, because the model has a single absent value. Numbers are printed as whole numbers.
- Failures of `mkdir` and `writeFile` are not modelled, and neither is a directory standing where a file is expected. A write fails only when the strategy reports an error, or when `unlink` finds no file.
- `===` on objects compares references. The model compares values structurally, so a `text` entry whose callback returns a new object is not distinguished from one that returns an equal object.
- A custom strategy's `write` is modelled as producing the text stored at the entry's path. Writes to other paths, or writes that store nothing (such as `write: () => {}`), are not modelled.
- Numbers in JSON content are modelled as integers.
- `findWorkspaceDir` takes the current directory as a parameter instead of reading `process.cwd()`.
- FileConfig.Valid: this states the `write` precondition as "expected non-null". `src/types.ts:10` also says "not in test mode and expected differs from actual". That part is an engine guarantee, not a requirement on strategies. `Engine.UpdaterWithOptions` shows that test mode writes nothing, and that apply mode writes only the outcomes `Engine.Changed` keeps. `Engine.CheckFileForUpdates` shows that those outcomes are the ones where `isEqual` fails. The engine therefore guarantees `!equal(expected, actual)` when both are non-null, which is not the same as `expected !== actual` in the comment.
- EngineProperties.TextReapplyFindsNoDrift: this is stated only for `text` entries whose callbacks return their own output unchanged. For `json`, idempotence depends on `JSON.parse` undoing `JSON.stringify`, which is not modelled.
