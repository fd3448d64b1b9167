# xrpl-hooks-compiler build pipeline, in Dafny

This project models the parts of the xrpl-hooks-compiler that turn source
files into XRPL hook binaries, and proves properties of that model.

- **The C driver** (`c2wasm-api/src/chooks.ts`). `build_project` validates a
  request and writes its files into the workspace `<base>.$`. It then runs
  up to three stages:
  - clang links the files to `<base>.wasm`;
  - `wasm-opt` optimises it, but only when the options name a level;
  - `hook-cleaner` strips it, but only when `strip` is set.

  The allow-list builders turn the user's option string into command-line
  flags. The `complete` closure removes the workspace and the output before
  answering.
- **The JavaScript driver** (`c2wasm-api/src/jshooks.ts`). Its validation is
  the same. It runs `qjsc -c` and copies the generated `out.c` to
  `<base>.bc`. `serialize_file_data` then scrapes the hexadecimal byte array
  out of that C text.
- **The two command-line clients.**
  - `c2wasm-cli/src/build.ts` and `js2wasm-cli/src/build.ts` walk a source
    tree (`readFiles`), type-check a single file (`buildFile`), and post one
    request per file (`buildWasm`). From the answer they save either the
    binary or a log of the failed tasks' consoles.
  - The JavaScript client can first bundle a TypeScript entry point with
    esbuild. It then strips its import, export and comment lines with three
    `/gm` regular expressions.
- **The JavaScript client's `main`** (`js2wasm-cli/src/main.ts`). It handles
  the arguments, checks the output directory, and validates the bundle's
  `export { … }` list, which must name `Hook` and may name only `Hook` and
  `Callback`.

## How the model is built

- **The file system.** It is a value, `map<string, Entry>`. A
  `Workspace.FileSystem` object holds it and the drivers update it in place.
  Each `fs` call is a method whose contract gives the new map, including
  the cases where the call throws:
  - `rmSync` without `force` on a missing path;
  - `unlinkSync` on a directory;
  - `copyFileSync` from a missing file or onto a directory;
  - `readFileSync` of a missing file.

  Writing onto an existing directory (`writeFileSync`, `openSync(p, 'w')`,
  `renameSync`, a tool's output) is modelled as replacing it; see
  "## Left out".
- **The external tools.** clang, wasm-opt, hook-cleaner and qjsc are one
  oracle, `Tools`, from a command line to what the run printed, whether it
  threw, and the output file it left.
- **The clients' outside calls.** esbuild is an oracle `Bundler` from an
  entry point and a disk to a bundle. The HTTP reply and the decoded bytes
  of the answer are parameters.
- **Mutable records.** `build_result` is the class `Pipeline.BuildResult`.
  The stage functions fill in the task object that was pushed last, which
  `BuildResult.Settle` models.
- **Methods and their specifications.** Every driver is modelled twice.
  The method follows the source statement by statement. A function
  (`CHooks.Build`, `JsHooks.Build`, `Pipeline.Admit`, `SourceTree.Collected`,
  …) is the specification that method is proved equal to. The properties
  are lemmas about those functions.
- **The regular expressions.** They are modelled as matchers that follow
  ECMAScript backtracking for each pattern. This includes `^`/`$` under the
  `m` flag, the lazy `.*?`, the greedy `\s*` giving characters back, and
  `String.prototype.replace` resuming after each match.
- **How a build ends.** The model follows these facts about the code:
  - The C pipeline runs `wasm-opt` once, and only when the options name a
    level.
  - `rmSync` has no `force`, so `complete` throws when the workspace does
    not exist. The two checks before `mkdirSync` (the output kind and the
    file list) therefore throw instead of answering when no workspace is
    left over from an earlier build.
  - `complete` also throws when a directory sits at the output path,
    because `unlinkSync` refuses it.
  - When every C stage passed but the output file is missing (wasm-opt
    exited cleanly without writing it), `readFileSync` throws before
    `complete` runs, and the workspace is left behind.
  - In the JavaScript driver, a missing `out.c` makes `copyFileSync` throw
    and leaves the workspace behind, so its "Build error" answer never
    occurs.
  - An empty scrape gives an empty artifact, not an error.
  - The bundle path of a TypeScript entry point is made with `replace`,
    which expands `$$`, `$&`, `` $` `` and `$'` in the replacement
    `dist/<stem>.js`: a stem holding one of them is bundled, sent and
    saved under the expanded name (`Paths.Substitute`).

## Model

| member | source | states |
|---|---|---|
| Text.LastPiece | c2wasm-cli/src/build.ts:70 | `split("/").pop()` is a separator-free end of the text, preceded by the separator whenever it is not the whole text |
| Text.Before | c2wasm-cli/src/build.ts:168 | `split(t)[0]` is the text itself when `t` does not occur, and otherwise the prefix that ends at the first occurrence of `t`: no occurrence starts inside it and one starts right after it |
| Text.Trim | js2wasm-cli/src/main.ts:15 | `trim()` gives a piece of the text that neither starts nor ends with white space, and everything around that piece is white space |
| Text.ToLower | c2wasm-api/src/chooks.ts:125 | `toLowerCase()` keeps the length and lowers each character on its own |
| Text.SplitJoin | js2wasm-cli/src/main.ts:14 | splitting on a character and joining with it gives the text back |
| Workspace.Console | c2wasm-api/src/chooks.ts:96 | a task's console is the captured log; when the log is empty, it is the exception's message if the tool threw and `""` otherwise |
| Workspace.FileSystem.Run | c2wasm-api/src/chooks.ts:84-98 | running a tool with its output sent to a log: the console and the thrown flag, and the disk with the log and the tool's output written |
| Workspace.FileSystem.RemoveTree | c2wasm-api/src/chooks.ts:242 | `rmSync(dir, {recursive: true})` removes the path and everything below it, and throws, changing nothing, when the path is missing |
| Workspace.FileSystem.Unlink | c2wasm-api/src/chooks.ts:244 | `unlinkSync` removes a file and throws on anything else |
| Workspace.FileSystem.Rename | c2wasm-api/src/chooks.ts:191 | `renameSync` moves the entry from the old path to the new one |
| Workspace.FileSystem.Copy | c2wasm-api/src/jshooks.ts:127 | `copyFileSync` copies a file, and throws, changing nothing, when the source is not a file or the destination is a directory |
| Filename.PatternTestIsPattern | c2wasm-api/src/chooks.ts:158 | the computed test accepts exactly the names `^[A-Za-z0-9_-]+[.][A-Za-z0-9]{1,4}$` matches, at any position of its dot |
| Filename.ValidNameExactly | c2wasm-api/src/chooks.ts:157-168 | `validate_filename` accepts exactly the names the pattern matches, returns `[name]` for them, and an accepted name has one dot, no `/`, is not `.`/`..`, and uses only `[A-Za-z0-9_.-]` |
| Filename.TraversalRejected | c2wasm-api/src/jshooks.ts:109-120 | `.`, `..`, names containing `../` and names containing `/` are rejected |
| Sanitize.GetOptimizationOptions | c2wasm-api/src/chooks.ts:100-113 | the loop returns `' ' + flag` for each optimisation level the options contain, in list order |
| Sanitize.GetClangOptions | c2wasm-api/src/chooks.ts:115-131 | the loop returns the fixed clang flags followed by each allowed flag the options contain, where `-std=` flags are also matched in the lower-cased options |
| Sanitize.GetLldOptions | c2wasm-api/src/chooks.ts:133-147 | the linker flags alone for empty options, otherwise followed by `-Wl,<flag>` for each allowed flag the options contain |
| Sanitize.KeptExactly | c2wasm-api/src/chooks.ts:106-110 | a flag is emitted iff it is on the allow-list and matched (soundness and completeness), and the emitted flags keep the list's order |
| Sanitize.KeptDependsOnlyOnMatches | c2wasm-api/src/chooks.ts:121-128 | two option strings that match the same allow-listed flags give the same flags: no other user text reaches the output |
| Sanitize.AllowListsDistinct | c2wasm-api/src/chooks.ts:101-103 | no allow-list repeats a flag |
| Sanitize.OptimizationOptionsEmptyIff | c2wasm-api/src/chooks.ts:299-300 | `get_optimization_options` returns `''` exactly when the options contain no level, which is when the optimisation stage is skipped |
| Sanitize.OptimizationOptionsSpec | c2wasm-api/src/chooks.ts:100-113 | `-O0` is never emitted; each level is emitted iff the options contain it, in list order |
| Sanitize.ClangOptionsSpec | c2wasm-api/src/chooks.ts:115-131 | the result starts with the fixed prefix; the kept flags are exactly the matched ones, in order; `-std=c99`/`-std=c89` are kept when the lower-cased options contain them |
| Sanitize.LldOptionsSpec | c2wasm-api/src/chooks.ts:133-147 | the result starts with the fixed linker flags, is only those for empty options, and adds `-Wl,<flag>` exactly for the matched flags, in order |
| Sanitize.KeptEmptyIff | c2wasm-api/src/chooks.ts:106-110 | nothing is emitted exactly when no listed flag matches |
| Pipeline.OrEmpty | c2wasm-api/src/chooks.ts:295 | `options \|\| ''` is non-empty exactly when the options are truthy |
| Pipeline.Finish | c2wasm-api/src/chooks.ts:241-250 | `complete` returns exactly when the workspace exists and no directory is left at the output path once the workspace is removed, and throws otherwise. When it returns, the record holds the given verdict, and neither the workspace nor the output file is left on disk. When it throws with the workspace present, the workspace is already gone |
| Pipeline.Complete | c2wasm-api/src/chooks.ts:241-250 | the closure's outcome and disk are `Finish`'s |
| Pipeline.BuildResult.constructor | c2wasm-api/src/chooks.ts:232-237 | the record starts unsuccessful, with empty message and output and no tasks |
| Pipeline.BuildResult.Begin | c2wasm-api/src/chooks.ts:294 | pushing a task appends it with only its name and changes nothing else |
| Pipeline.BuildResult.Settle | c2wasm-api/src/chooks.ts:175-181 | a stage sets `success` and `console` on the last task and changes nothing else |
| Pipeline.BuildResult.SetOutput | c2wasm-api/src/chooks.ts:320 | storing the output changes nothing else |
| Pipeline.AdmitFiles | c2wasm-api/src/chooks.ts:266-289 | the validation loop's verdict, sources, options, message and disk are those of `Admit` |
| Pipeline.AdmitIsExpected | c2wasm-api/src/chooks.ts:266-289 | the loop stops at the first faulty file with its message, having written exactly the files before it; it accepts iff no file is faulty, and then the sources are the files' workspace paths in order |
| Pipeline.OptionsBeforeIsFirst | c2wasm-api/src/chooks.ts:275-281 | the options in effect are the first truthy `options`, and `''` exactly when there is none |
| Pipeline.OptionsAgreeIff | c2wasm-api/src/chooks.ts:275-281 | every file passes the options check iff every truthy `options` equals the first truthy one |
| Pipeline.NoOptionsNeverFaults | c2wasm-api/src/chooks.ts:268-289 | a file without options, with a valid name and a non-empty source, never stops the loop |
| Pipeline.InsideDir | c2wasm-api/src/chooks.ts:273 | `dir + '/' + name` lies in the workspace |
| Pipeline.AdmitStaysInside | c2wasm-api/src/chooks.ts:288 | the loop writes only inside the workspace |
| Pipeline.AdmitKeeps | c2wasm-api/src/chooks.ts:266-289 | the loop removes nothing |
| Pipeline.FinishCleansUp | c2wasm-api/src/chooks.ts:241-250 | `complete`, reached on a disk that differs from the original only in the workspace and the output, restores every other path |
| Pipeline.OutputOutsideWorkspace | c2wasm-api/src/chooks.ts:238-239 | the output `<base>.wasm` (or `<base>.bc`, c2wasm-api/src/jshooks.ts:146-147) is not under the workspace `<base>.$` and is none of the files written there |
| CHooks.LinkPhase | c2wasm-api/src/chooks.ts:176-181 | a successful link leaves the output file on disk |
| CHooks.LinkCFiles | c2wasm-api/src/chooks.ts:170-182 | `link_c_files` runs clang with the sanitised flags, fills in the last task, and succeeds exactly when the output exists afterwards |
| CHooks.OptimizeWasm | c2wasm-api/src/chooks.ts:184-205 | `optimize_wasm` moves the output to `unopt.wasm`, runs wasm-opt back into it, and succeeds exactly when nothing threw |
| CHooks.CleanWasm | c2wasm-api/src/chooks.ts:207-226 | `clean_wasm` runs hook-cleaner on the output in place and succeeds exactly when nothing threw |
| CHooks.LinkStep | c2wasm-api/src/chooks.ts:290-297 | pushing "building wasm" and linking; a failure stops with "Build error" |
| CHooks.OptimizeStep | c2wasm-api/src/chooks.ts:299-308 | pushing "optimizing wasm" and optimising only when the options name a level; a failure stops with "Optimization error" |
| CHooks.CleanStep | c2wasm-api/src/chooks.ts:310-318 | pushing "cleaning wasm" and cleaning only when `strip` is set; a failure stops with "Post-build error" |
| CHooks.RunStages | c2wasm-api/src/chooks.ts:290-322 | the stages after validation, then the read of the output and `complete`, equal the `Stages` function |
| CHooks.BuildProject | c2wasm-api/src/chooks.ts:228-323 | `build_project`'s outcome and final disk equal the `Build` function |
| CHooks.StoppedStays | c2wasm-api/src/chooks.ts:295-318 | after a failed stage no later stage runs |
| CHooks.LinkRan | c2wasm-api/src/chooks.ts:291-297 | the link phase pushes exactly "building wasm" and fills it in |
| CHooks.OptimizeRan | c2wasm-api/src/chooks.ts:299-308 | the optimisation phase adds "optimizing wasm" exactly when the pipeline is going and a level is named |
| CHooks.CleanRan | c2wasm-api/src/chooks.ts:310-318 | the cleaning phase adds "cleaning wasm" exactly when the pipeline is going and `strip` is set |
| CHooks.PlanPrefix | c2wasm-api/src/chooks.ts:290-318 | the tasks run so far form a prefix of the plan, and all of it when every stage passed |
| CHooks.PipelineFollowsPlan | c2wasm-api/src/chooks.ts:290-318 | the stages run in plan order, each only after the previous one passed; the first failure stops with its stage's message and no later task appears |
| CHooks.ValidationOrder | c2wasm-api/src/chooks.ts:252-289 | the output kind is checked first, then the file list, then each file in order, and the first failure decides the message. The first two failures return iff the workspace already exists and no directory sits at `<base>.wasm`; a file failure returns iff no directory sits at `<base>.wasm` |
| CHooks.BuildAdmitted | c2wasm-api/src/chooks.ts:262-322 | an accepted request runs link, optimise and clean on the disk the loop left, with the loop's sources and options and the request's link options |
| CHooks.DeliverReport | c2wasm-api/src/chooks.ts:320-322 | the response of a pipeline that followed its plan is "Success" with an output exactly when every stage passed, and otherwise carries the failed stage's message and no output |
| CHooks.BuildReport | c2wasm-api/src/chooks.ts:290-322 | for an accepted request: the tasks are a prefix of the plan, success iff message "Success" iff output present, the output deflated iff `compress`, and a failure is reported by its last task |
| CHooks.BuildAnswers | c2wasm-api/src/chooks.ts:290-322 | for an accepted request, with no directory at `<base>.wasm`: the build throws iff every stage passed but the output file is missing, and it then leaves the stages' disk, workspace included; a failed stage and a readable output both give an answer |
| CHooks.DeliverThrows | c2wasm-api/src/chooks.ts:320-322 | with the workspace present and no directory at the output, the end of the build throws iff the pipeline is still going but the output is missing, and then leaves the disk as it is |
| CHooks.StagedIntact | c2wasm-api/src/chooks.ts:170-226 | the three stages never remove the workspace and leave only a file, if anything, at the output |
| CHooks.RunStaysInside | c2wasm-api/src/chooks.ts:84-98 | a tool run writes only its log in the workspace and the output file |
| CHooks.LinkStaysInside | c2wasm-api/src/chooks.ts:170-182 | linking changes nothing outside the workspace but the output |
| CHooks.OptimizeStaysInside | c2wasm-api/src/chooks.ts:184-205 | optimising changes nothing outside the workspace but the output |
| CHooks.CleanStaysInside | c2wasm-api/src/chooks.ts:207-226 | cleaning changes nothing outside the workspace but the output |
| CHooks.PipelineStaysInside | c2wasm-api/src/chooks.ts:290-318 | all the stages together change nothing outside the workspace but the output |
| CHooks.DeliverCleansUp | c2wasm-api/src/chooks.ts:320-322 | a returned answer leaves every path outside the workspace and the output as it was before the build |
| CHooks.ReturnedCleansUp | c2wasm-api/src/chooks.ts:228-323 | a build that returns leaves the disk as it found it, except that the workspace and `<base>.wasm` are gone |
| CHooks.LinkCommandDependsOnlyOnMatches | c2wasm-api/src/chooks.ts:170-173 | the clang command takes nothing from the request but the file paths and which allow-listed flags the two option strings match |
| HexBlock.DropNewlinesMembers | c2wasm-api/src/jshooks.ts:97 | `.replace(/\n/g, '')` keeps exactly the characters that are not line feeds |
| HexBlock.DropNewlinesKeeps | c2wasm-api/src/jshooks.ts:97 | text without line feeds is left as it is |
| HexBlock.FindBlock | c2wasm-api/src/jshooks.ts:98 | `.match(/\{[^}]+\}/)` finds the leftmost block, or reports that there is none |
| HexBlock.BlockEndUnique | c2wasm-api/src/jshooks.ts:98 | a block that starts at a given brace ends at the first `}` after it |
| HexBlock.HexTokens | c2wasm-api/src/jshooks.ts:99-100 | every literal the global search returns, without its `0x`, is a non-empty run of hexadecimal digits |
| HexBlock.TakeLiteral | c2wasm-api/src/jshooks.ts:99-100 | a literal `0x<h>` ended by a non-digit yields `h`, and the search goes on after it |
| HexBlock.Extract | c2wasm-api/src/jshooks.ts:96-101 | `hexData` is all hexadecimal digits |
| HexBlock.ExtractFirstBlock | c2wasm-api/src/jshooks.ts:96-101 | only the first block counts: when the first `{` opens a block, `hexData` is the digits of that block's literals, in order, whatever follows it |
| HexBlock.Decode | c2wasm-api/src/jshooks.ts:102 | `Buffer.from(hex, 'hex')` gives one byte per pair of digits, dropping an odd last digit |
| HexBlock.DecodeAt | c2wasm-api/src/jshooks.ts:102 | byte `k` is the value of digits `2k` and `2k+1` |
| HexBlock.NoBlockNoBytes | c2wasm-api/src/jshooks.ts:96-102 | text in which `{[^}]+}` matches nowhere once line feeds are dropped (`{}`, `{\n}` and `x{abc` among others) serialises to no bytes |
| HexBlock.NoBraceNoBlock | c2wasm-api/src/jshooks.ts:98 | text without `{` has no block |
| HexBlock.ItemsTokens | c2wasm-api/src/jshooks.ts:99-101 | the literals of the array body `qjsc -c` writes are the two-digit spellings of its bytes, in order |
| HexBlock.DecodeHex2s | c2wasm-api/src/jshooks.ts:101-102 | joining the two-digit spellings and decoding them gives the bytes back |
| HexBlock.ExtractArray | c2wasm-api/src/jshooks.ts:98-101 | in a text that holds the array before any other `{`, the first block is the array and its literals are its bytes' spellings |
| HexBlock.SerializeRecoversArray | c2wasm-api/src/jshooks.ts:94-107 | round trip: for a C file holding the byte array before any other `{`, the bytes serialised are exactly the array's bytes, whatever the line breaks |
| JsHooks.LinkJsFiles | c2wasm-api/src/jshooks.ts:122-135 | `link_js_files` runs `qjsc -c` on the sources, copies `out.c` to the output (throwing when it is missing) and succeeds when the output exists |
| JsHooks.LinkAndDeliver | c2wasm-api/src/jshooks.ts:198-208 | pushing "building bc", linking, serialising and completing equal the `Link` function |
| JsHooks.BuildProject | c2wasm-api/src/jshooks.ts:137-209 | `build_project`'s outcome and final disk equal the `Build` function |
| JsHooks.ValidationOrder | c2wasm-api/src/jshooks.ts:160-197 | as in the C driver, for the output kind `bc`: the order of the checks, their messages, and when each one returns rather than throws |
| JsHooks.LinkOutcome | c2wasm-api/src/jshooks.ts:122-135 | the link step throws exactly when qjsc left no `out.c` or a directory sits at `<base>.bc`, leaving the workspace behind; otherwise it answers "Success" with the bytes scraped from that file |
| JsHooks.BuildAdmitted | c2wasm-api/src/jshooks.ts:174-202 | an accepted request runs qjsc on exactly its files' workspace paths in order, and no option of the request reaches the command |
| JsHooks.NeverBuildError | c2wasm-api/src/jshooks.ts:202-204 | no build completes with "Build error" |
| JsHooks.LinkStaysInside | c2wasm-api/src/jshooks.ts:122-135 | linking changes nothing outside the workspace but the output |
| JsHooks.ReturnedCleansUp | c2wasm-api/src/jshooks.ts:137-209 | a build that returns leaves the disk as it found it, except that the workspace and `<base>.bc` are gone |
| CliResult.NormalizeTask | c2wasm-cli/src/build.ts:192-198 | a task keeps its name and console and passes only when its `success` is exactly `true` |
| CliResult.Normalize | c2wasm-cli/src/build.ts:188-206 | the result succeeds only when `success === true`, keeps the message, keeps the output only on success, and normalises every task in order |
| CliResult.NormalizeSent | c2wasm-cli/src/build.ts:188-206 | a response from the server keeps its verdict and output through the normalisation |
| CliResult.FailedConsolesMembers | c2wasm-cli/src/build.ts:129-133 | the collected texts are exactly the consoles of failed tasks, with a missing console as `""` |
| CliResult.NoFailureIff | c2wasm-cli/src/build.ts:129-135 | nothing is collected exactly when every task passed |
| CliResult.PassedTaskInvisible | c2wasm-cli/src/build.ts:129-133 | a passed task contributes nothing, wherever it stands |
| CliResult.ParseBuildResult | c2wasm-cli/src/build.ts:126-140 | the loop returns the failed consoles joined with line feeds |
| CliResult.ParsedEmptyIff | c2wasm-cli/src/build.ts:135-139 | the text is empty exactly when no task failed, or one task failed with an empty or missing console |
| CliResult.EmptyTextDespiteFailure | c2wasm-cli/src/build.ts:135-139 | a single failed task without a console gives `""`, so an empty text does not mean success |
| CliResult.SaveFileOrError | c2wasm-cli/src/build.ts:142-161 | on failure the log is written at `<outDir>/<stem>.log` and the message thrown; on success the binary is written at `<outDir>/<stem><ext>` |
| CliResult.Receive | c2wasm-cli/src/build.ts:188-209 | with no reply nothing changes; otherwise `outDir` is created when missing and the answer is saved |
| CliResult.SavedOutcome | c2wasm-cli/src/build.ts:142-161 | after a reply, the binary is at the output path exactly when the server said `true`, and otherwise the log is there and the message is thrown |
| SourceTree.ReadFiles | c2wasm-cli/src/build.ts:95-124 | the loop over a listing returns the entries of `Collected`, in listing order |
| SourceTree.ReadNode | c2wasm-cli/src/build.ts:99-121 | one listed node gives its own entry or, for a directory walked into, the entries below it |
| SourceTree.ClassifyKept | c2wasm-cli/src/build.ts:106-121 | a file yields an entry exactly when its extension is recognised; the entry has the file's name, text, kind and options |
| SourceTree.CollectedSnoc | c2wasm-cli/src/build.ts:98-104 | one more listed node adds its entries at the end |
| SourceTree.CollectedAppend | c2wasm-cli/src/build.ts:104 | a directory's entries are spliced in where it is listed |
| SourceTree.CollectedKept | c2wasm-cli/src/build.ts:95-124 | every entry produced, at any depth, has the kind and options its extension calls for |
| SourceTree.FileCollected | js2wasm-cli/src/build.ts:99-115 | every listed file with a recognised extension yields its entry |
| SourceTree.IgnoredDirectory | c2wasm-cli/src/build.ts:101-105 | the C walk yields nothing from an ignored directory, while the JavaScript walk enters every directory |
| Paths.ExtNameShape | c2wasm-cli/src/build.ts:106 | `path.extname` is empty or a dot followed by neither dots nor slashes |
| Paths.ExtNameOfName | c2wasm-cli/src/build.ts:106 | the extension of a plain name is `.x` exactly when the name ends in `.x` after something |
| Paths.BasenameAfterDir | c2wasm-cli/src/build.ts:99 | the base name of `dir/n` is `n` |
| Paths.TsExtension | js2wasm-cli/src/main.ts:85 | `<dir>/<x>.ts` has the extension ".ts" |
| Paths.SubstitutePlain | js2wasm-cli/src/build.ts:226 | the replacement string is expanded as `replace` does (`$$`, `$&`, `` $` `` and `$'` stand for `$`, the match, the text before and the text after it); a replacement without `$` is used as written |
| Paths.SubstituteAppend | js2wasm-cli/src/build.ts:226 | the expansion of a concatenation is the concatenation of the expansions unless a `$` ends the first part and a special character starts the second |
| Paths.ReplaceFirst | js2wasm-cli/src/build.ts:226 | `replace` with a string pattern: an empty pattern puts the expanded replacement in front, and an absent pattern changes nothing |
| Paths.ReplaceFirstSpec | js2wasm-cli/src/build.ts:226 | the first occurrence of the pattern, wherever it is, is replaced by the replacement's expansion for that match, the text before it and the text after it |
| Paths.FirstOccurrenceFound | js2wasm-cli/src/build.ts:226 | `indexOf` returns the first occurrence, for every text and pattern |
| Paths.BeforeTs | js2wasm-cli/src/build.ts:225 | the stem of `<stem>.ts` is `<stem>` when `.ts` does not occur in it |
| Paths.DistStem | js2wasm-cli/src/build.ts:224-226 | the name the bundle of `<dir>/<x>.ts` takes in place of `x` is `x` itself when `x` has no `$` |
| Paths.TsOutputPathOrdinary | js2wasm-cli/src/build.ts:224-226 | an ordinary `<dir>/<x>.ts` is bundled to `<dir>/dist/<y>.js`, `y` being `x` with the `$` patterns expanded, and to `<dir>/dist/<x>.js` when `x` has no `$` |
| Paths.TsOutputPathBare | js2wasm-cli/src/build.ts:224-226 | `<x>.ts` alone is bundled to `dist/<y>.js`, with `y` expanded as above and nothing before or after the match, and to `dist/<x>.js` when `x` has no `$` |
| Paths.TsOutputPathHitsDirectory | js2wasm-cli/src/build.ts:224-226 | the first occurrence of the file name is replaced: `<x>.ts.d/<x>.ts` is bundled to `dist/<y>.js.d/<x>.ts`, not next to the source, the expansion seeing the rest of the path as the text after the match; `y` is `x` when it has no `$` |
| Paths.DoubleDollarStem | js2wasm-cli/src/build.ts:224-226 | a `$$` in the stem comes out as one `$`: `src/a$$b.ts` is bundled to `src/dist/a$b.js` |
| Paths.MatchDollarStem | js2wasm-cli/src/build.ts:224-226 | a `$&` in the stem brings in the file name: `src/a$&b.ts` is bundled to `src/dist/aa$&b.tsb.js` |
| Paths.DollarExpands | js2wasm-cli/src/build.ts:226 | one `$c` between two `$`-free texts expands to what `c` stands for |
| Paths.TsOutputPathNonEmpty | js2wasm-cli/src/build.ts:224-226 | the bundle path is never empty, so `clean` always writes the cleaned bundle back |
| C2WasmCli.PrepareSpec | c2wasm-cli/src/build.ts:61-76 | `buildFile` stops on an unreadable file first, then on a path without ".c"; otherwise it sends a "c" entry with "-O3" and the file's text, named by the path's last segment |
| C2WasmCli.DirectoryPassesTypeCheck | c2wasm-cli/src/build.ts:67-69 | a file in a directory whose name contains ".c" passes the type check, whatever its own name |
| C2WasmCli.StemCutsAtFirst | c2wasm-cli/src/build.ts:168 | the output stem is cut at the first ".c": "hook.cpp" and "hook.c" both give "hook" |
| C2WasmCli.StemWithoutC | c2wasm-cli/src/build.ts:168 | a name without ".c" is its own stem |
| C2WasmCli.ServerView | c2wasm-cli/src/build.ts:170-176 | the server reads the body as a "wasm" request with compress and strip set and no link options; it accepts it exactly when the name is valid and the text is not empty, and then uses the options "-O3" |
| C2WasmCli.PlanO3 | c2wasm-cli/src/build.ts:74 | "-O3" names a level, so a stripped build runs all three stages |
| C2WasmCli.DirBodies | c2wasm-cli/src/build.ts:46-54 | `buildDir` posts one body per collected entry, in order, each with the same headers |
| C2WasmCli.HeaderPostedAlone | c2wasm-cli/src/build.ts:114-121 | a header file in the tree is posted on its own as an "h" entry, like a C file |
| C2WasmCli.BuildWasm | c2wasm-cli/src/build.ts:163-213 | the body posted, and the answer saved as `<stem>.wasm` |
| C2WasmCli.BuildFile | c2wasm-cli/src/build.ts:61-92 | a stop before posting leaves the disk unchanged; otherwise the prepared entry is posted with the collected headers and the answer saved |
| Js2WasmCli.PrepareSpec | js2wasm-cli/src/build.ts:59-81 | a path without ".js" or ".ts" is refused. A ".ts" path is sent as its cleaned bundle, exactly when esbuild succeeds. Any other accepted path is sent with the text read from it, and stops as unreadable exactly when it cannot be read. A sent entry is named by a last segment, typed by the text after its last dot, with "-O3"; nothing is written before a stop |
| Js2WasmCli.EntryShape | js2wasm-cli/src/build.ts:74-81 | the file object has the last path segment as its name, the text after that name's last dot as its type, and the text read as its source |
| Js2WasmCli.StemCutsAtFirstDot | js2wasm-cli/src/build.ts:162 | the output stem is the name up to its first dot |
| Js2WasmCli.JsonPasses | js2wasm-cli/src/build.ts:63-65 | the type check accepts `<x>.json`, which is sent as a "json" file |
| Js2WasmCli.TypeScriptRoute | js2wasm-cli/src/build.ts:69-81 | an ordinary `<dir>/<x>.ts` is sent as `<y>.js` of type "js", holding the cleaned bundle written to `<dir>/dist/<y>.js`, and saved under the stem `y`, `y` being `x` with the `$` patterns of `replace` expanded (`x` itself when it has no `$`) |
| Js2WasmCli.JsEntry | js2wasm-cli/src/build.ts:74-81 | the bundle's path gives a "js" entry named `<x>.js` with stem `x` |
| Js2WasmCli.TsDirectoryRebundles | js2wasm-cli/src/build.ts:69-71 | any path under a directory whose name contains ".ts" is sent through esbuild, even a ".js" file |
| Js2WasmCli.ServerView | js2wasm-cli/src/build.ts:164-169 | the server reads the body as a "bc" request without link options, and accepts it exactly when the name is valid and the text is not empty |
| Js2WasmCli.DirBodies | js2wasm-cli/src/build.ts:43-52 | `buildDir` posts one "bc" body per collected entry, in order |
| Js2WasmCli.CleanFile | js2wasm-cli/src/build.ts:208-221 | `clean` returns the cleaned text of a readable file and writes it when an output path is given; an unreadable file throws and changes nothing |
| Js2WasmCli.CompileTs | js2wasm-cli/src/build.ts:223-236 | `compileTs` returns the rewritten path and, when esbuild succeeds, leaves the cleaned bundle there |
| Js2WasmCli.BuildWasm | js2wasm-cli/src/build.ts:161-206 | the body posted, and the answer saved as `<stem>.bc` |
| Js2WasmCli.SendFile | js2wasm-cli/src/build.ts:73-87 | an unreadable file stops the build; otherwise its entry is posted and the answer saved |
| Js2WasmCli.BuildFile | js2wasm-cli/src/build.ts:59-88 | `buildFile` does what `FileBuilt` describes: type check, bundling, reading, posting and saving |
| LinePatterns.MatchShape | js2wasm-cli/src/build.ts:210-212 | every match starts at a line start and ends at a line end, with the pattern's keyword after the leading white space |
| LinePatterns.ImportAtLine | js2wasm-cli/src/build.ts:210 | an `import …;` line is matched from its start through the `;` |
| LinePatterns.ExportAtLine | js2wasm-cli/src/build.ts:211 | an `export { … };` line is matched, with its braces found |
| LinePatterns.CommentAtLine | js2wasm-cli/src/build.ts:212 | a `//` line is matched to the end of its line |
| LinePatterns.NoMatchUnchanged | js2wasm-cli/src/build.ts:213-215 | replacing a pattern that matches nowhere leaves the text as it is |
| LinePatterns.ReplaceShrinks | js2wasm-cli/src/build.ts:213-215 | replacing with `""` never adds text |
| LinePatterns.KeptSpan | js2wasm-cli/src/build.ts:213-215 | characters where no match starts are kept, in order |
| LinePatterns.DeletedAfterKept | js2wasm-cli/src/build.ts:213-215 | the text before the first match is kept, the match removed, and the replacement goes on after it |
| LinePatterns.CleanPlainText | js2wasm-cli/src/build.ts:208-221 | text without import, export or comment lines is only trimmed |
| Js2WasmMain.NonEmptyMembers | js2wasm-cli/src/main.ts:16 | the filter keeps exactly the non-empty words |
| Js2WasmMain.WordsMembers | js2wasm-cli/src/main.ts:13-16 | a word is a non-empty trimmed comma-separated piece of the list |
| Js2WasmMain.WordsJoin | js2wasm-cli/src/main.ts:13-16 | the words of `x,y` are those of `x` followed by those of `y` |
| Js2WasmMain.ValidateSpec | js2wasm-cli/src/main.ts:12-23 | the list passes iff `Hook` is a word and every word is `Hook` or `Callback`; "Hook is required" iff `Hook` is missing; "Only Hook and Callback" iff `Hook` is there with another word |
| Js2WasmMain.ValidateBySet | js2wasm-cli/src/main.ts:12-23 | the verdict depends only on which words occur |
| Js2WasmMain.ValidateOrderFree | js2wasm-cli/src/main.ts:12-23 | the verdict does not depend on order or repetition |
| Js2WasmMain.ValidateAlone | js2wasm-cli/src/main.ts:12-23 | a single word passes exactly when it is `Hook`, and is otherwise refused for the missing `Hook` |
| Js2WasmMain.FirstExport | js2wasm-cli/src/main.ts:31 | `exportPattern.exec` finds the first match, and no match lies before it |
| Js2WasmMain.FirstExportAt | js2wasm-cli/src/main.ts:31 | a match with no match before it is the one `exec` finds |
| Js2WasmMain.CleanCheckedSpec | js2wasm-cli/src/main.ts:25-46 | `clean` throws "No export found" iff no line matches; it passes iff the first export line's list is valid, and then returns the cleaned text |
| Js2WasmMain.ExportLineChecked | js2wasm-cli/src/main.ts:28-36 | only the first export line's list is validated: for a bundle whose first export line is `export { L };`, `clean` passes iff `L` is valid |
| Js2WasmMain.CleanFile | js2wasm-cli/src/main.ts:25-46 | main.ts's `clean` returns the verdict of `CleanChecked` on the file's text and writes the cleaned text only when it passes |
| Js2WasmMain.Run | js2wasm-cli/src/main.ts:48-108 | `main` does what `MainRan` describes: the exits on its arguments, the output directory check, the ".ts" route through esbuild and `clean`, the directory refusal, and `buildFile` |
| Js2WasmMain.MainExits | js2wasm-cli/src/main.ts:60-83 | the output directory defaults to "build", so "Output directory path is required." never appears; `main` exits with a message iff the input is missing or the output path exists and is not a directory, and then changes nothing |

## Left out

- Js2WasmCli.TypeScriptRoute: states the entry only when the expanded stem has no `.` or `/`; a `$&` or `` $` `` in the stem brings the file name or the directory into the bundle's name, whose last segment and stem are then cut elsewhere, and the route for those names is given only by `Js2WasmCli.PrepareSpec` and `Paths.MatchDollarStem`.

- CliResult.SaveFileOrError: the output and log paths are the plain concatenation `outDir + "/" + stem + ext`. The `path.join` normalisation (collapsing `//`, `.` and `..`) is not modelled, so `-o out/` gives the key `out//x.wasm` where the program writes `out/x.wasm`.
- Text.Before: splitting on the empty string, which JavaScript does character by character, is not modelled. The callers split only on ".c" and ".".
- Workspace.FileSystem.WriteText, Workspace.FileSystem.WriteBytes, Workspace.FileSystem.Open, Workspace.FileSystem.Rename and Workspace.AfterRun: a write onto a path that holds a directory replaces the directory with the file and does not throw. Node's `writeFileSync` and `openSync(p, 'w')` throw `EISDIR` there, and `renameSync` fails onto a non-empty directory. The consequences stated over these writes (`CHooks.BuildAnswers`, `Pipeline.AdmitIsExpected`, `CliResult.SavedOutcome` and the other build and save rows) hold for file systems with no directory at the log, source, bundle or output paths they write.
- Workspace.FileSystem.Rename: only the entry at the old path moves. The driver renames only its output file, so paths below a renamed directory are not carried along.
- The HTTP server and routing, the request schema (`zod`), CORS, the WebSocket language-server proxy and `c2wasm-api/src/index.ts`. Requests enter the model already parsed. `process.cwd()` is the parameter `home`.
- The external tools (clang, wasm-opt, hook-cleaner, qjsc). They are the `Tools` oracle: the model proves what the drivers do with whatever a tool prints, leaves or throws, not what the tools compute.
- `deflateSync` and base64 encoding. A response's `output` records the bytes read and whether they are deflated (`Payload.Encoded`).
- esbuild, the `axios.post` call and `decodeBinary`. Their results are the parameters `bundler`, `reply` and `binary`, and a failed post is `reply == None`.
- Js2WasmCli.BuildWasm: `binary` stands for the bytes written. The hex re-decoding `Buffer.from(Buffer.from(binary).toString(), "hex")` of the `.bc` client is not modelled separately.
- `process.exit`, `console.log` and `console.error`. An exit or a thrown error ends the modelled run and is returned as a value (`exit`, `stop`, `thrown`).
- Concurrency. `Promise.all` in `buildDir` and the asynchronous `fs.mkdir` callback are modelled as if they ran in order, one file at a time. `DirBodies` states which bodies are posted, not how their saves interleave.
- `readdirSync` and `statSync` errors inside `readFiles`. The tree is given as a value, so those errors and the `process.exit(1)` they cause are not modelled.
- `path.join` normalisation in `readFiles`. Entries are named by the listed file name, which is what the code uses.
- Character decoding. Bytes a tool wrote are read one character per byte, which is exact for the ASCII text qjsc produces. UTF-8 decoding of other bytes is not modelled.
- Parent directories. Writing a file does not check that its directory exists: `<dir>/dist/` for a bundle and `<outDir>` for a save are assumed writable.
- Text.ToLower: only ASCII letters are lowered. This is exact for matching "-std=c99" and "-std=c89", since no non-ASCII character lowers to one of their letters.
- Js2WasmMain.CleanFile: requires the file to exist, because `main` calls `clean` only on the bundle esbuild has just written.
- Js2WasmMain.Run: commander's handling of missing arguments is left out. `args` is what `program.args` holds after parsing, and the unreachable "Output directory path is required." branch is proved dead.
- Unhandled promise rejections and the `.catch` on `Promise.all`. An exception thrown inside the `fs.mkdir` callback is returned as `thrown`.
- The per-file `console` logging of the clients (`Built Wasm: …`) and the ANSI colour codes.
