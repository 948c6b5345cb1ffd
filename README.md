# Lagon sandbox runtime and deployment store, in Dafny

This project models two sequential pieces of the Lagon serverless runtime and proves what they do.

**The isolate runtime setup** (`packages/runtime/src/isolate/runtime.ts`):
- the environment script that creates `process.env` inside a sandbox (`RuntimeEnv`);
- the console mock with its five log levels (`RuntimeConsole`);
- the naming and rewriting of runtime polyfill files, and the fixed module list of the startup snapshot (`RuntimeFiles`);
- the pull loop behind `streamResponse`, which forwards each chunk of a sandbox stream to the host sink and into a second stream (`RuntimeStream`);
- the order in which `initRuntime` prepares a context: bind `global`, remove `eval`, then run the four installers (`RuntimeInit`).

**The deployment artifact store** (`packages/serverless/src/deployments/index.ts`):
- the code file `<deploymentId>.js` and the asset folder `<deploymentId>`;
- reading, writing and deleting a deployment's code;
- writing assets;
- `deleteOldDeployments`, which removes the code of each stale entry whose deployment id it derives correctly from the entry's name. The exceptions, where the id is derived from the wrong ".js", are listed under "Stale ids come from the first ".js"" below (`Deployments`).

The store runs over an abstract tree of files and directories (`FileSystem`), which has Node's error cases for `rmSync`, `mkdirSync`, `writeFileSync`, `readFileSync`, `existsSync` and `readdirSync`, except ENOTDIR for a path beneath a file (see "## Left out").

How each part is modelled:
- Pure parts (tables, file naming, id derivation) are functions.
- Parts that change state step by step are methods on classes, each proved against a specification function:
  - the script-building loop;
  - the pull loop (`StreamBridge`);
  - the context set-up (`Context`);
  - the disk operations (`Disk`) and the store operations on it.
- The properties are lemmas about those functions.

## What the code does where its names suggest otherwise

The model follows the code. In these places the code does something a reader of its names and calls might not expect.

- **NODE_ENV can be overridden.** An env entry whose key upper-cases to `NODE_ENV` replaces the `"production"` baseline, because later assignments win (`RuntimeEnv.NodeEnvCanBeOverridden`).
- **Values are not escaped.** A value is inserted between double quotes as it is, so a line break in a value breaks its line (`RuntimeEnv.ValueIsNotEscaped`).
- **A malformed env entry can leave `process` unset.** An entry is well formed when its upper-cased key is an identifier and its value has no `"`, `\`, line feed or carriage return. Only then is its line the assignment it looks like (`RuntimeEnv.AssignLineReadsBack`). When no key or value holds a line break, one malformed entry, such as the value `x"y` or the key `my-key`, takes the whole script out of the form the model reads (`RuntimeEnv.MalformedEntryIsNotRead`). A value with line breaks may instead be read as several assignments, as JavaScript reads it: the value `x"` + line feed + `global.process.env.B = "y` sets both A and B. Such a script typically fails to compile, so not even the baseline line runs and `process` is never created. The promise of `context.eval` is neither awaited nor returned, so `initRuntime` still resolves. That promise has no rejection handler either, so its rejection is an unhandled rejection in the host process, which Node (since version 15, by default) turns into an uncaught exception. Other such scripts compile and run whatever the value spells out. The model leaves the outcome open: `unread` and `unreadConsole` are the global and console objects the sandbox leaves (`RuntimeInit.MockEnvironmentVariables`).
- **The second stream is never returned.** The `streamResponse` arrow function has a block body without `return`, so sandbox code never receives the second stream. Nothing reads from it, and its queue keeps every chunk (`StreamBridge.queue`).
- **Enqueue comes before forward.** Each chunk is enqueued into the second stream before it is sent to the host, and the stream is closed before the terminal event is sent.
- **A rejected read sends no terminal event.** The `.then` has no rejection handler: a failed read ends the pull loop silently, with no `done = true` event and no close (`RuntimeStream.StalledStream`).
- **Only two snapshot modules lose their `global` assignments.** These are Response and Request. A rewrite that yields the empty string falls back to the unrewritten code (`transform?.(code) || code`).
- **Stale ids come from the first ".js".** `deleteOldDeployments` derives an id by removing the FIRST ".js" of an entry's name. This gives three surprising results:
  - A stale entry like `a.jsb.js` is never deleted (`Deployments.MisnamedStaleEntrySurvives`).
  - A leftover entry `x.js.js` next to a live deployment `x` deletes `x`'s code, because the stale id `x.js` names `x`'s code file as its asset folder (`Deployments.NestedSuffixDeletesLiveCode`).
  - An entry named `.js` deletes the whole deployments folder (`Deployments.DotJsEntryClearsFolder`).
  - The entries `..js` and `...js` derive the ids `.` and `..`. `path.join` resolves these to the deployments folder itself and to its parent, so their recursive `rmSync` removes the whole folder, or the folder above it. The model does not resolve `.` and `..`, so these two are described here, not proved.

  For listings in which every ".js" name has ".js" only as its suffix, the selection is exact (`Deployments.WellNamedExactlyStale`).
- **`writeDeploymentCode` can fail on its own asset folder.** It creates the folder without `recursive`, so writing a deployment with assets whose folder already exists throws, and the code file is not written (`Deployments.ExistingAssetFolderBlocksWrite`).

## Model

| member | source | states |
|---|---|---|
| Common.Upper | packages/runtime/src/isolate/runtime.ts:14 | `toUpperCase` on ASCII: same length, each lower-case letter mapped to its capital, every other character kept |
| Common.Lower | packages/runtime/src/isolate/runtime.ts:131 | `toLowerCase` on ASCII: same length, each capital mapped to its lower-case letter, every other character kept |
| Common.IndexOf | packages/serverless/src/deployments/index.ts:15 | the result is an occurrence of the pattern and no earlier one exists; no result means no occurrence at all |
| Common.ReplaceFirst | packages/serverless/src/deployments/index.ts:15 | `replace` with a string pattern and a replacement without `$`: with a first occurrence at i, the result is the text before i, the replacement, and the text after the occurrence; without any occurrence, the string itself |
| RuntimeEnv.BuildEnvScript | packages/runtime/src/isolate/runtime.ts:10-15 | the `+=` loop produces the environment script of the entries (`EnvScript`) |
| RuntimeEnv.ScriptIsItsLines | packages/runtime/src/isolate/runtime.ts:11-15 | the script is the baseline line followed by one assignment line per entry, in entry order |
| RuntimeEnv.ScriptStartsWithBaseline | packages/runtime/src/isolate/runtime.ts:11 | every script begins with `global.process = { env: { NODE_ENV: "production" } }` and a newline |
| RuntimeEnv.OneLinePerEntry | packages/runtime/src/isolate/runtime.ts:13-15 | when no key or value holds a line break, the script splits into exactly the baseline line and one line per entry, with the key upper-cased and the value verbatim between quotes |
| RuntimeEnv.ValueIsNotEscaped | packages/runtime/src/isolate/runtime.ts:14 | a value holding a line break is inserted unescaped: one entry gives three lines |
| RuntimeEnv.EnvKeys | packages/runtime/src/isolate/runtime.ts:11-15 | for well-formed entries, `process.env` has exactly NODE_ENV and the upper-cased key of every entry |
| RuntimeEnv.LastAssignmentWins | packages/runtime/src/isolate/runtime.ts:13-15 | for well-formed entries, the last entry whose key upper-cases to a given name decides that name's value |
| RuntimeEnv.UnsetKeyKeepsBaseline | packages/runtime/src/isolate/runtime.ts:11-15 | for well-formed entries, a name no entry sets keeps its baseline state: NODE_ENV stays "production", any other name stays absent |
| RuntimeEnv.NodeEnvCanBeOverridden | packages/runtime/src/isolate/runtime.ts:11-14 | the entry `node_env` is well formed and replaces the production baseline |
| RuntimeEnv.ReadAssignLineShape | packages/runtime/src/isolate/runtime.ts:14 | a line read as an assignment is exactly `global.process.env.<identifier> = "<plain literal>"` followed by a newline |
| RuntimeEnv.AssignLineReadsBack | packages/runtime/src/isolate/runtime.ts:14 | an entry's line reads back as its upper-cased key and its value if and only if the entry is well formed |
| RuntimeEnv.ScriptRunsAsEntries | packages/runtime/src/isolate/runtime.ts:11-17 | for well-formed entries, running the script's lines leaves exactly `EnvAfter` of the entries |
| RuntimeEnv.MalformedEntryIsNotRead | packages/runtime/src/isolate/runtime.ts:14-17 | among entries without line breaks, one malformed entry takes the whole script out of the read form |
| RuntimeConsole.ConsoleMockIsExact | packages/runtime/src/isolate/runtime.ts:37-45 | the console mock has exactly the five names log, error, info, warn and debug; each is bound to the deployment's id and to its own level |
| RuntimeFiles.ReadRuntimeFile | packages/runtime/src/isolate/runtime.ts:118-133 | file name `file:///<lower-cased name>.js`; the code is the transform's result unless there is no transform or it yields "", in which case it is the export-stripped text |
| RuntimeFiles.FileNameRoundTrip | packages/runtime/src/isolate/runtime.ts:131 | the module name, lower-cased, is recovered from its file name |
| RuntimeFiles.FileNameIgnoresCase | packages/runtime/src/isolate/runtime.ts:131 | two modules share a file name if and only if their names agree up to case |
| RuntimeFiles.LowerSnapshotModules | packages/runtime/src/isolate/runtime.ts:108-116 | the seven snapshot modules lower-case to response, request, parsemultipart, url, encoding, base64, streams |
| RuntimeFiles.SnapshotLayout | packages/runtime/src/isolate/runtime.ts:108-116 | seven sources in the listed order under seven distinct file names; only Response and Request take the global-stripping rewrite, with its empty-result fallback |
| RuntimeStream.ChunkEffectsProject | packages/runtime/src/isolate/runtime.ts:92-94 | handling chunks enqueues each and forwards each as `(false, chunk)` in order, without closing or a terminal event |
| RuntimeStream.EndedStream | packages/runtime/src/isolate/runtime.ts:84-98 | for chunks c1..cn then done, the host gets exactly (false,c1)..(false,cn),(true); the second stream holds exactly c1..cn and is closed; later reads are never pulled |
| RuntimeStream.EmptyStream | packages/runtime/src/isolate/runtime.ts:85-89 | an empty stream gives only close and the terminal event |
| RuntimeStream.StalledStream | packages/runtime/src/isolate/runtime.ts:85-95 | a rejected or unsettled read after c1..cn: the host gets the chunks and no terminal event; the second stream is never closed |
| RuntimeStream.AtMostOneTerminal | packages/runtime/src/isolate/runtime.ts:86-89 | at most one `done = true` event is sent, and it is the last event |
| RuntimeStream.EnqueueBeforeForward | packages/runtime/src/isolate/runtime.ts:86-93 | every host event carries the deployment's id and directly follows its cause: the enqueue of the same chunk, or the close for the terminal event |
| RuntimeStream.StreamBridge.constructor | packages/runtime/src/isolate/runtime.ts:79-83 | a new bridge has read nothing, enqueued nothing, sent nothing |
| RuntimeStream.StreamBridge.Push | packages/runtime/src/isolate/runtime.ts:85-95 | handling one settled read appends that read's effects and keeps queue, closed flag and events equal to the projections of all effects so far |
| RuntimeStream.StreamBridge.Start | packages/runtime/src/isolate/runtime.ts:84-98 | the pull loop ends with the effects, second-stream queue and host events of the whole reader (`PullEffects`) |
| RuntimeInit.Context.SetGlobal | packages/runtime/src/isolate/runtime.ts:147-148 | `context.global.set` updates one global and nothing else |
| RuntimeInit.Context.SetGlobals | packages/runtime/src/isolate/runtime.ts:17 | evaluating code outside the model replaces the global object and the console object with what that code leaves |
| RuntimeInit.Context.SetConsoleMethod | packages/runtime/src/isolate/runtime.ts:46-52 | installing one console function updates that console entry and nothing else |
| RuntimeInit.MockEnvironmentVariables | packages/runtime/src/isolate/runtime.ts:10-18 | evaluates the built script: a script the model reads sets `process` to the environment it describes and leaves the console alone; any other script leaves the global object `unread` and the console `unreadConsole` |
| RuntimeInit.WellFormedEnvScript | packages/runtime/src/isolate/runtime.ts:10-18 | with well-formed entries the script sets `process` to `EnvAfter` of the entries and changes nothing else, the console included |
| RuntimeInit.MockConsole | packages/runtime/src/isolate/runtime.ts:45-53 | the installation loop adds exactly the console mock, level by level |
| RuntimeInit.MockFetch | packages/runtime/src/isolate/runtime.ts:56-67 | evaluates the `fetch` runtime file under its file name; the globals it defines (`fetched`) are added |
| RuntimeInit.MockStreamResponse | packages/runtime/src/isolate/runtime.ts:78-105 | defines `streamResponse` bound to the deployment |
| RuntimeInit.InitRuntime | packages/runtime/src/isolate/runtime.ts:147-156 | performs `InitSteps` in order and leaves the globals `InitGlobals` and the console mock over the console the env script left (the old console when the script is read, as `WellFormedEnvScript` shows for well-formed entries) |
| RuntimeInit.ConsoleStepsAreInstallers | packages/runtime/src/isolate/runtime.ts:45-53 | the console loop installs one function per level, in level order |
| RuntimeInit.EvalRemovedFirst | packages/runtime/src/isolate/runtime.ts:147-156 | ten steps: bind `global`, remove `eval`, then only installer steps (env script, five console functions, fetch file, streamResponse) |
| RuntimeInit.InitializedContext | packages/runtime/src/isolate/runtime.ts:147-155 | `streamResponse` is bound to the deployment; with well-formed entries, and for names the `fetch` file does not define, `eval` is undefined, `global` is bound, `process.env` is `EnvAfter` (NODE_ENV "production" unless an entry sets it), and all other globals are unchanged |
| FileSystem.Parent | packages/serverless/src/deployments/index.ts:54 | `path.dirname` inside the folder: everything before the last "/", so a strictly shorter prefix followed by "/" with no "/" after it; "" for a top-level name |
| FileSystem.ChainClosed | packages/serverless/src/deployments/index.ts:54 | the directories a recursive `mkdirSync` creates contain the parent of each |
| FileSystem.UnderParent | packages/serverless/src/deployments/index.ts:64 | whatever lies in a directory removed recursively lies inside it too |
| FileSystem.ReadFile | packages/serverless/src/deployments/index.ts:32 | the file's content; EISDIR for a directory, ENOENT otherwise |
| FileSystem.Rm | packages/serverless/src/deployments/index.ts:62-64 | `rmSync` succeeds if and only if the path is a file, a directory with `recursive`, or missing with `force`; EISDIR exactly for a directory without `recursive`; a failure changes nothing; it only removes |
| FileSystem.RmRemoves | packages/serverless/src/deployments/index.ts:62-64 | after a successful `rmSync` nothing is at the path, and nothing outside it changed |
| FileSystem.RmKeepsValid | packages/serverless/src/deployments/index.ts:62-64 | `rmSync` keeps the tree well formed |
| FileSystem.MkDir | packages/serverless/src/deployments/index.ts:39 | `mkdirSync`: without `recursive` an existing path gives EEXIST and success adds just that directory; with it, success if and only if no file lies on the way, and every directory on the way is added; a failure changes nothing |
| FileSystem.MkDirKeepsValid | packages/serverless/src/deployments/index.ts:54 | `mkdirSync` keeps the tree well formed |
| FileSystem.WriteFile | packages/serverless/src/deployments/index.ts:42 | `writeFileSync` succeeds if and only if the path is no directory and its parent is a directory; it then sets that file's content only |
| FileSystem.WriteThenRead | packages/serverless/src/deployments/index.ts:42 | a successful write reads back, no other path's read changes, and the tree stays well formed |
| FileSystem.Entries | packages/serverless/src/deployments/index.ts:8 | the folder's entries are exactly the existing top-level names |
| FileSystem.ReadDir | packages/serverless/src/deployments/index.ts:8 | `readdirSync` succeeds exactly when the folder exists, with its entries |
| FileSystem.Disk.ExistsSync | packages/serverless/src/deployments/index.ts:26 | true exactly for an existing file or directory |
| FileSystem.Disk.ReadFileSync | packages/serverless/src/deployments/index.ts:32 | reads as `ReadFile` |
| FileSystem.Disk.WriteFileSync | packages/serverless/src/deployments/index.ts:42 | changes the disk as `WriteFile` |
| FileSystem.Disk.MkdirSync | packages/serverless/src/deployments/index.ts:39 | changes the disk as `MkDir` |
| FileSystem.Disk.RmSync | packages/serverless/src/deployments/index.ts:62 | changes the disk as `Rm` |
| FileSystem.Disk.ReaddirSync | packages/serverless/src/deployments/index.ts:8 | lists each entry of the folder exactly once, or fails as `ReadDir` |
| Deployments.HasDeploymentCodeLocally | packages/serverless/src/deployments/index.ts:23-27 | true exactly when something exists at `<deploymentId>.js` |
| Deployments.GetDeploymentCode | packages/serverless/src/deployments/index.ts:29-33 | the content of `<deploymentId>.js`; EISDIR or ENOENT otherwise |
| Deployments.WriteDeploymentCode | packages/serverless/src/deployments/index.ts:35-43 | performs `WriteCode`: the asset folder is made only for a deployment with assets, and a failed `mkdirSync` stops before the write |
| Deployments.WriteCodeEffect | packages/serverless/src/deployments/index.ts:35-43 | after a successful write the code reads back and `hasDeploymentCodeLocally` holds; the asset folder is new exactly when there are assets; no other file changes, and the tree stays well formed |
| Deployments.ExistingAssetFolderBlocksWrite | packages/serverless/src/deployments/index.ts:38-42 | with assets and an existing asset folder the write throws EEXIST and changes nothing |
| Deployments.WriteCodeNeedsFolder | packages/serverless/src/deployments/index.ts:42 | once the deployments folder is gone, code without assets cannot be written |
| Deployments.WriteAssetContent | packages/serverless/src/deployments/index.ts:51-56 | performs `WriteAsset`: a recursive `mkdirSync` of the file's directory, then the write |
| Deployments.WriteAssetEffect | packages/serverless/src/deployments/index.ts:51-56 | the write succeeds exactly when no directory is at the name and no file is on its directory chain; it then reads back with the chain in place; no other file changes |
| Deployments.DeleteDeploymentCode | packages/serverless/src/deployments/index.ts:58-68 | performs `DeleteCode`: the asset folder is removed only after the code file was |
| Deployments.DeleteCodeEffect | packages/serverless/src/deployments/index.ts:58-68 | with a code file, it and the whole asset folder are removed and nothing else; without one, nothing changes; the tree stays well formed |
| Deployments.DeleteCodeShrinks | packages/serverless/src/deployments/index.ts:58-68 | deleting only removes, and leaves no code file for the id |
| Deployments.DeleteCodeNoop | packages/serverless/src/deployments/index.ts:61-66 | when the code file is not there, the thrown error is caught and nothing changes |
| Deployments.DeleteOldDeployments | packages/serverless/src/deployments/index.ts:7-21 | lists the folder once, each entry exactly once, and leaves `DeleteAll` of the stale ids in listing order; a failing listing changes nothing |
| Deployments.StaleIdsExact | packages/serverless/src/deployments/index.ts:10-19 | an id is deleted if and only if some listed entry ends in ".js", derives it, and no deployment has it |
| Deployments.NonCodeEntriesIgnored | packages/serverless/src/deployments/index.ts:11-13 | entries that do not end in ".js" cause no deletion |
| Deployments.DerivedIdRoundTrip | packages/serverless/src/deployments/index.ts:15 | a well-named entry is its derived id's code path; only names ending in ".js" are |
| Deployments.FirstSuffixAfterPlain | packages/serverless/src/deployments/index.ts:15 | after an id free of ".js", the first ".js" is the one that follows it |
| Deployments.CodePathRoundTrip | packages/serverless/src/deployments/index.ts:15 | an id free of ".js" is derived back from its code path |
| Deployments.InnerSuffixIdDoesNotRoundTrip | packages/serverless/src/deployments/index.ts:15 | the id "a.jsb" is derived back as "ab.js" |
| Deployments.WellNamedIdIsPlain | packages/serverless/src/deployments/index.ts:15 | a well-named entry's id is its name without the suffix, is free of ".js" and does not end in it |
| Deployments.DeleteAllShrinks | packages/serverless/src/deployments/index.ts:10-20 | the loop only removes, and no deleted id keeps a code file |
| Deployments.DeleteAllFrame | packages/serverless/src/deployments/index.ts:10-20 | a path that is no deleted id's code file or asset folder content is untouched |
| Deployments.DeleteAllNoop | packages/serverless/src/deployments/index.ts:17-19 | deleting ids whose code files are gone changes nothing |
| Deployments.SecondRunDeletesNothing | packages/serverless/src/deployments/index.ts:7-21 | a second run with the same deployments, listing the tree the first left, changes nothing |
| Deployments.WellNamedExactlyStale | packages/serverless/src/deployments/index.ts:11-19 | when all ".js" names are well named with non-empty ids, a listed code file survives if and only if its derived id is a current deployment's |
| Deployments.MisnamedStaleEntrySurvives | packages/serverless/src/deployments/index.ts:15-18 | the stale entry "a.jsb.js" is not deleted |
| Deployments.NestedSuffixDeletesLiveCode | packages/serverless/src/deployments/index.ts:15-18 | the entry `x.js.js` beside a live deployment `x` is stale with id `x.js`, and deleting it removes `x`'s code file |
| Deployments.DotJsEntryClearsFolder | packages/serverless/src/deployments/index.ts:15-18 | an entry ".js" derives the empty id, whose deletion empties the tree, folder included |

## Left out

- Everything of isolated-vm: `evalClosure`, `evalClosureSync`, reference and copy transfer, `derefInto`, snapshot compilation. Scripts are not executed. An env script is read line by line (`RuntimeEnv.RunScript`) only in the form that well-formed entries produce; what the sandbox makes of any other script is given by the parameters `unread` (the global object) and `unreadConsole` (the console object).
- The two regular-expression rewrites (`^export((.|\n)*);` and `global.*;`). They are parameters (`stripExports`, `stripGlobals`); only their fallback rule is modelled.
- Reading runtime files from disk, the NODE_ENV-dependent choice of directory, and UTF-8 decoding. The file text is a parameter.
- The contents of the `fetch` runtime file and the host `fetch` (network I/O). `mockFetch` is modelled as evaluating that file under its name.
- RuntimeInit.MockFetch: what the `fetch` runtime file installs is the parameter `fetched`; the file is taken to define those globals, to remove none, and to leave `global.console` alone.
- RuntimeInit.InitRuntime: after an env script the model does not read, the console mock is taken to install over the console that script left. A script that deletes or freezes `global.console` would make the installation throw, so that `initRuntime` rejects, or be silently dropped; neither is modelled.
- `addLog` and `onDeploymentLog`. A console entry is the `(deploymentId, level)` pair it is bound to. Argument copying is not modelled.
- The concurrency of `Promise.all`. The installers run one after another in array order, which is one of the orders the source allows.
- `getAssetContent` (a read stream) and every other read stream.
- Unicode case mapping. `Upper` and `Lower` change ASCII letters only.
- Key order of `Object.entries`. The environment is a sequence in entry order; JavaScript moves integer-like keys first.
- `path.join` normalisation (`..`, repeated or trailing `/`) and absolute paths. Ids and asset names are used as given, relative to the deployments folder.
- File contents are strings; `Buffer` contents and encodings are not modelled.
- `console.error(e)` in `deleteDeploymentCode` is not modelled; a thrown error is only caught.
- FileSystem.ReadFile: a path beneath a file gives ENOENT, where Node throws ENOTDIR. `FileSystem.Rm` has the same gap for `rmSync` without `force`, and so do `FileSystem.WriteFile` and `FileSystem.MkDir` without `recursive` when a file lies further up than the parent; `Deployments.WriteDeploymentCode` passes that error on for an id containing "/". Either way the call fails and nothing changes; only the error code differs.
- Errors other than ENOENT, EEXIST, EISDIR and ENOTDIR (permissions, full disk, I/O failures). So the second `rmSync` of `deleteDeploymentCode` never fails in the model.
- Deployments.WellNamedExactlyStale: exact selection is proved only for listings whose ".js" names have ".js" only as a suffix and a non-empty id. Other names behave as the three counterexample lemmas show.
- RuntimeStream.StreamBridge.Start: a read that never settles is modelled as the end of the result sequence. Timing and back-pressure are not modelled.
