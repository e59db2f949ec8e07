# Efficient Compression Tool: a Dafny model of the orchestrator

Efficient Compression Tool (ECT) is a command-line optimizer for PNG, JPEG, Gzip and ZIP
files. `main` reads the options and the inputs from `argv`. In ZIP mode it gathers every
input into one archive (`zipHandler`). Otherwise it expands the inputs into a file list and
hands each file to `fileHandler`, sequentially or through a pool of worker threads that
share one cursor (`multithreadFileLoop`). `fileHandler` routes a file by its extension to
the PNG optimizer (`OptimizePNG`), the JPEG optimizer (`OptimizeJPEG`) or the Gzip rewrite
transaction (`ECTGzip`). It then adds the file to three global counters, from which
`ECT_ReportSavings` prints the final report. The exit code is the OR of every handler's
result.

This project models that orchestration. The codecs and archive tools it calls are not
modelled; what they do is a parameter ("oracle"). The modules follow the program:

- `CStrings` covers the C and C++ string primitives the decisions rest on:
  `find_last_of` with `npos`, `substr`, `strncmp` and `atoi`.
- `Options` is `ECTOptions` and its defaults.
- `Args` is the argument loop of `main`. It is a fold over `argv` and is proved equal to a
  loop method. The `else if` chain of flag tests is a list of (test, action) rows in
  source order.
- `Disk` is the file system as a class: regular files with sizes, archives with their
  member lists, and directories with their listings. Its methods are `RenameAndReplace`,
  `unlink`, member appends and `ReZipFile`.
- `Gzip` is `ECTGzip`: a specification function of the final files, and a method that
  performs the steps in program order.
- `Codecs` is the decision logic of `OptimizePNG` (mode clamp, filter choice, call plan)
  and of `OptimizeJPEG` (the baseline retry).
- `Dispatch` is `fileHandler`: routing, the size ceiling, and the counters as a class
  with fields.
- `Zip` is `zipHandler`: archive naming, member naming, and the member loop, both as a
  specification and in place.
- `Report` is the duration split and the line structure of `ECT_ReportSavings`.
- `Driver` is the file-list expansion, the sequential loop, the worker-pool cursor, the
  OR-fold of the exit code, and `main` end to end.

## Model

| member | source | states |
|---|---|---|
| CStrings.FindLastOf | src/main.cpp:306 | the result is the last index holding one of the characters, or `npos` when none does |
| CStrings.Extension | src/main.cpp:305-306 | the extension holds no `.`; a name without a dot is its own extension; otherwise the name is the stem, a `.`, and the extension |
| CStrings.StrncmpTake | src/main.cpp:544 | `strncmp(a, b, n) == 0` exactly when the first `n` characters of both strings coincide |
| CStrings.PrefixOfFlag | src/main.cpp:539-547 | for flags under 64 characters, the `strnlen(arg, 64)` matcher accepts exactly the prefixes of the flag, down to a lone `-` |
| CStrings.StartsWithFlag | src/main.cpp:568 | `strncmp(arg, flag, strlen(flag)) == 0` exactly when `arg` starts with `flag` |
| CStrings.Atoi | src/main.cpp:549 | a leading digit run reads as that run (not negative); after a `-` as its negation (at most 0); after a `+` as the run; any other leading non-space character reads as 0 |
| CStrings.AtoiSkipsSpace | src/main.cpp:549 | leading white space does not change what `atoi` reads |
| Args.PaletteSort | src/main.cpp:568-573 | the setting never exceeds `120 << 8`; `N` in 0..120 gives `N << 8`; larger `N` (without wrap-around) and negative `N` give the cap |
| Args.ThreadCountCanBeNegative | src/main.cpp:589 | as written, and reading `max` as a macro or an `unsigned` comparison (its definition is not part of this model), `--mt-file=N` with more negative threads than cores stores a negative count |
| Args.ThreadCount | src/main.cpp:577-594 | the count for `--mt-deflate=N` and `--mt-file=N`, clamped at 0: `N` when positive, otherwise at most the number of cores |
| Args.ThreadCountAgrees | src/main.cpp:577-594 | for `N <= 0` the intended count equals the program's wherever `cores + N` is a non-negative `int`, and is 0 where that sum is negative |
| Args.PerformKeepsSanity | src/main.cpp:544-597 | every branch of the chain keeps the options sane: effort level at least 1, `-zip` implies `Gzip`, palette sort capped, thread counts not negative |
| Args.OnlyHelpAndUnknownQuit | src/main.cpp:557 | the only branches that make `main` return are `-help` and the final unknown-flag `else` |
| Args.ApplyTests | src/main.cpp:544-597 | whatever the chain of tests, the effect of a flag keeps sane options sane |
| Args.ApplyFlag | src/main.cpp:544-597 | every flag the program's own chain handles keeps sane options sane |
| Args.FirstTestDecides | src/main.cpp:544-597 | when test `j` is the first to accept the flag, the flag's effect is exactly action `j`; no later test matters |
| Args.UnknownFlagQuits | src/main.cpp:597 | a flag that no test accepts makes `main` return |
| Args.Step | src/main.cpp:538-597 | an input records its index and bumps `files`; a flag leaves the inputs alone; sanity is kept |
| Args.ExitSticks | src/main.cpp:557 | once the loop has returned, no later argument changes the outcome |
| Args.ArgumentLoop | src/main.cpp:537-598 | the loop with its early `return 0` computes the fold over `argv[1..]` |
| Args.ParseArgs | src/main.cpp:537-604 | the loop, then the `-autorotate` check and the `--reuse` override, give the argument handling of `main` |
| Args.InputsAreNonFlags | src/main.cpp:540-543 | the inputs are exactly the non-flag arguments, as strictly increasing indices, and `files` counts them |
| Args.LoopKeepsSane | src/main.cpp:538-598 | the options after the loop are sane |
| Args.ParseResult | src/main.cpp:598-604 | when `main` proceeds: options sane, `--reuse` excludes `--allfilters`, autorotation only with `-strip`, inputs in argument order |
| Args.PrefixSetsStrip | src/main.cpp:544 | every prefix of `-strip`, down to a lone `-`, sets `strip` |
| Disk.WithMembersAppend | src/main.cpp:436 | appending members in two batches is appending them in one |
| Disk.FileSystem.RenameAndReplace | src/main.cpp:78-84 | the source takes the destination's place, replacing it; a missing source changes nothing |
| Disk.FileSystem.Unlink | src/main.cpp:171-173 | the path is removed and nothing else changes |
| Disk.FileSystem.AddMember | src/main.cpp:436 | one member name is appended to the archive's list; the files are unchanged |
| Disk.FileSystem.ReZip | src/main.cpp:490 | an existing archive is rewritten to the size the tool reports; nothing else changes |
| Gzip.GzipSpec | src/main.cpp:136-175 | an empty file, an unreadable stream, a header-bearing stream under `--strict`, an existing sibling or sidecar, or a failing `ungz` give status 2 and change nothing; plain files (or ZIP mode) get a new sibling and status 1; a rewritten stream gives status 0, leaves no sidecar, and replaces the input only by a strictly smaller stream; the input never grows; no other existing file is touched |
| Gzip.ZopfliGzip | src/main.cpp:154 | the compressor adds only the `.gz` or `.zip` sibling |
| Gzip.RewriteGzip | src/main.cpp:157-174 | the sidecar steps refuse when a sidecar exists or `ungz` fails, and otherwise keep the recompressed stream only when it is smaller |
| Gzip.EctGzip | src/main.cpp:136-175 | the step-by-step transaction has exactly the status and the final files of the specification |
| Codecs.PngMode | src/main.cpp:178-182 | the mode is `Mode % 10000` clamped to 9; it is 1 exactly for `Mode % 10000 == 1` without `--reuse`, which raises that 1 to 2; `Mode % 10000 == 0` gives 0 |
| Codecs.TrialFiltersCover | src/main.cpp:216-230 | `--allfilters-b` tries each strategy 0..14 exactly once; without `-b`, all but 9, 10 and 14 |
| Codecs.ZopfliCalls | src/main.cpp:212-224 | one `Zopflipng` call per filter, each offset by the palette-sort setting |
| Codecs.ChosenFilter | src/main.cpp:199-209 | filter 6 under `--reuse`; 15 for a nonzero `Optipng` choice under `--allfilters-c`; otherwise `Optipng`'s choice, so a choice of 0 stays 0 even under `--allfilters-c` |
| Codecs.OptimizePng | src/main.cpp:177-255 | status 0 or 1; an unreadable file fails with no call; effort level 1 never calls `Zopflipng`; `--reuse` never asks `Optipng` for a filter; the `.bak` comparison of effort level 1 is settled before the `-strip` pass, whose output size is the one the codec reports; under `-1 --allfilters` no codec has run and the comparison keeps the size |
| Codecs.EffortOneNeverGrows | src/main.cpp:242-253 | at effort level 1 the calls are the filter search (unless `--allfilters`), the `.bak` comparison, then the `-strip` pass when asked for; without `-strip` the `.bak` copy is restored when `Optipng`'s output is larger, so the file never grows, and under `--allfilters` it keeps its size exactly; with `-strip` the final size is the strip pass's |
| Codecs.SettlesBakExactly | src/main.cpp:199-249 | the `.bak` comparison (unlink or restore) happens exactly at effort level 1 on a readable file whose filter search did not fail or was skipped under `--allfilters` |
| Codecs.ReuseTakesFilterSix | src/main.cpp:201 | `--reuse` compresses with filter 6 plus the palette offset |
| Codecs.CheapTakesFilterFifteen | src/main.cpp:207-209 | at every effort level but 1, `--allfilters-c` compresses with strategy 15 when `Optipng` chose a nonzero filter (at effort level 9, once the prepass has succeeded) |
| Codecs.AllFiltersTriesEach | src/main.cpp:211-231 | `--allfilters` calls `Zopflipng` on 6, then the fixed list, then the brute-force three, in that order |
| Codecs.RetryGrowsWithEffort | src/main.cpp:260-264 | a baseline retry that happens at some effort level above 1 also happens at every higher level, for the same file and results |
| Codecs.OptimizeJpeg | src/main.cpp:257-267 | the first call is progressive exactly under `-progressive` with effort above 1 or a file over 5000 bytes; the baseline retry happens exactly under the program's condition; the status is 1 exactly when the last call returned 2 |
| Dispatch.RouteOf | src/main.cpp:306-332 | a file is handled exactly when its codec is enabled for its extension or Gzip mode is on at top level; the extension alone then picks the codec |
| Dispatch.GzipModeOverridesDisable | src/main.cpp:310-327 | in Gzip mode a top-level `.png` or `.jpg` still reaches its optimizer even when that optimizer is disabled; an internal call is ignored |
| Dispatch.Counters.Add | src/main.cpp:334-341 | the three `fetch_add`s add to the counters and change nothing else |
| Dispatch.Handle | src/main.cpp:304-355 | an ignored file is untouched; an unreadable one gives 1; a file over the ceiling changes nothing; a refused Gzip transaction gives 1 and changes nothing; a counted file adds 1, its size, and its size less the size of the input or sibling; only the input, its `.bak` backup and its Gzip sibling are touched, the backup can only disappear, and the sibling is the only new file |
| Dispatch.HandleReportsCodecStatus | src/main.cpp:320-331 | for a readable file under the ceiling, the handler's error is the PNG or JPEG optimizer's status and the file takes the size the optimizer leaves, with the `.bak` backup removed when effort level 1 settles it; after a Gzip transaction that did not refuse the error is 0 and the files are the transaction's |
| Dispatch.HandleDropsBak | src/main.cpp:242-249 | an existing `.bak` beside a handled file disappears exactly when the file goes to the PNG optimizer at effort level 1 and the filter search did not fail or was skipped, whether or not `Optipng` wrote that backup |
| Dispatch.HandleNeverGrowsInPlace | src/main.cpp:320-332 | a file sent to the Gzip transaction, or to the PNG optimizer at effort level 1 without `-strip` that settles the `.bak` comparison, never grows |
| Dispatch.OptimizeFile | src/main.cpp:320-332 | the codec step, including the unlink of the `.bak` backup at effort level 1, matches the specification, and a refused transaction changes nothing |
| Dispatch.FileHandler | src/main.cpp:304-355 | the step-by-step handler returns the specification's error and leaves its files and counters |
| Zip.BareNameKeepsExtension | src/main.cpp:378-388 | as written, `data.txt` gives `data.txt.zip` while `dir/data.txt` gives `dir/data.zip` |
| Zip.DerivedName | src/main.cpp:378-388 | the archive name ends in `.zip`; a regular file loses exactly the extension of its base name; other inputs are named as the program names them |
| Zip.DotInBaseName | src/main.cpp:380 | the base name holds a `.` exactly when the last `.` lies after the last separator or there is no separator |
| Zip.DerivedNameDiffers | src/main.cpp:380-382 | the program's name and the intended name differ exactly for a name that has a `.` and no separator |
| Zip.LooseMemberName | src/main.cpp:478 | a loose file's member name is the longest suffix of the path that holds no separator: it is the whole path or follows a separator |
| Zip.ParentPath | src/main.cpp:399 | the parent is empty exactly when the path holds no `/`; otherwise it is the path cut at its last `/` (the root when that is the first character), a prefix shorter than the path unless it is the root |
| Zip.RootChildLosesFirstCharacter | src/main.cpp:399-405 | as written, the member for `/data/a.txt` under the input `/data` is `ata/a.txt` |
| Zip.MemberPrefix | src/main.cpp:399 | the intended prefix lies within the path, and it equals the program's prefix whenever the parent does not end in a separator |
| Zip.MemberNameKeepsFolder | src/main.cpp:398-405 | with the intended prefix, every member below a directory input starts with that directory's own name |
| Zip.TrailingDirectoryReadsPastEnd | src/main.cpp:407-413 | in every walk whose last entry is a directory, the program's read of `paths[j + 1]` for that entry has no element to read; the corrected test counts the entry as empty, and the walk appends `name/` for it unless the writer refuses it |
| Zip.EmptyDirEntryAgrees | src/main.cpp:407-410 | wherever the program's read stays inside the walk, it agrees with the corrected emptiness test; the last entry counts as empty |
| Zip.FileStepOf | src/main.cpp:414-443 | a file is added exactly when it exists, fits in `UINT_MAX` and can be read and added, and then with its size; it fails exactly when it fits but cannot be read or added |
| Zip.AddTreeMembers | src/main.cpp:403-445 | a walk appends, in walk order, `name/` for each empty directory the writer accepts and the erased path of each file it adds, whatever errors occur |
| Zip.AddInputMembers | src/main.cpp:397-487 | one input appends its walk's members, a single `name/` for an empty directory the writer accepts, or a loose file under its base name, and adds the bytes of the files it adds |
| Zip.AddInputsMembers | src/main.cpp:396-488 | the member loop appends the members of every input up to and including the first that fails, in input order |
| Zip.AddInputsBytes | src/main.cpp:396-488 | `local_bytes` grows by the bytes of every input up to and including the first that fails |
| Zip.AddTreeError | src/main.cpp:403-445 | a walk ends without error exactly when none of its files fails |
| Zip.AddInputError | src/main.cpp:397-487 | an input sets the error exactly when one of its files fails |
| Zip.AddInputsError | src/main.cpp:396 | the loop ends without error exactly when no remaining input fails |
| Zip.AddTreeBytes | src/main.cpp:441 | `local_bytes` grows by exactly the sizes of the files a walk adds |
| Zip.AddTreeAppends | src/main.cpp:403-445 | a walk only appends members, at most one per entry |
| Zip.ZipSpec | src/main.cpp:357-499 | the error is 0 or 1; a derived archive name that is taken gives 1 and changes nothing |
| Zip.ConcludeEffect | src/main.cpp:489-498 | once the name is free, only the archive changes; its members are appended in order; the counters grow by the files `ReZipFile` processed, by `local_bytes`, and by `local_bytes` less the archive's final size |
| Zip.ZipErrorIffSomeInputFails | src/main.cpp:395-498 | the handler returns 0 exactly when no input from the first member on fails |
| Zip.ZipMembers | src/main.cpp:395-497 | once the name is free, the archive's member list grows by exactly the members of the inputs up to the first that fails, in input order, and is untouched when there are none |
| Zip.ZipTally | src/main.cpp:489-497 | once the name is free, the counters grow by the files `ReZipFile` processed, by `local_bytes` (the first input's bytes plus those of the inputs up to the first that fails) and by `local_bytes` less the archive's final size |
| Zip.AddFile | src/main.cpp:452-485 | one file is added exactly when the specification says so |
| Zip.AddWalkEntry | src/main.cpp:404-444 | one walk entry in place matches its specification |
| Zip.AddDirectory | src/main.cpp:401-450 | the walk in place matches the specification and appends its members to the archive |
| Zip.AddOneInput | src/main.cpp:397-487 | one input in place matches the specification |
| Zip.ArchiveStart | src/main.cpp:363-393 | the opening of the handler picks the archive, the first input and the initial `local_bytes` as specified |
| Zip.AddNext | src/main.cpp:396-488 | one turn of the member loop keeps the archive equal to the members so far |
| Zip.AddAllInputs | src/main.cpp:395-488 | the member loop in place computes the specification's result and appends exactly its members |
| Zip.ZipHandler | src/main.cpp:357-499 | the handler in place returns the specification's error and leaves its files, archives and counters |
| Report.SplitDuration | src/main.cpp:121-126 | milliseconds under 1000, seconds and minutes under 60, and the fields reassemble the total |
| Report.SplitDurationUnique | src/main.cpp:121-126 | any split within those ranges that reassembles the total is the computed one |
| Report.ReportLines | src/main.cpp:86-135 | no file gives only "No compatible files found"; a net loss stops after "Result is bigger"; otherwise the original size is the byte counter, and saving and result add up to it, then the time |
| Driver.OrFoldAppend | src/main.cpp:646-648 | OR-ing results in two batches is OR-ing them in one |
| Driver.OrFoldZero | src/main.cpp:662 | the exit code is 0 exactly when every handler returned 0 |
| Driver.OrFoldOrderFree | src/main.cpp:508 | the OR depends only on which results occur, so workers finishing in any order give the same exit code |
| Driver.FoldErrors | src/main.cpp:646-648 | when every handler call returns 0 or 1, every result the loop records is 0 or 1, after the earlier ones |
| Driver.FoldKeeps | src/main.cpp:646-648 | when each turn touches only its own file and backup, a file no turn names keeps its size |
| Driver.GainsBound | src/main.cpp:333-342 | turns that each count at most one file count at most one file per turn |
| Driver.FoldCounts | src/main.cpp:333-342 | when each turn adds its gain to the counters, the loop adds the sum of the gains |
| Driver.HandlerTurns | src/main.cpp:304-355 | every `fileHandler` call returns 0 or 1, and the call on `list[k]` touches only that file, its backup (only removing it) and its Gzip sibling |
| Driver.HandlerGains | src/main.cpp:333-342 | every `fileHandler` call adds exactly its turn's gain to the counters |
| Driver.TurnGain | src/main.cpp:333-342 | a turn counts at most one file, and a turn that counts no file adds nothing |
| Driver.HandleUpToErrors | src/main.cpp:646-648 | each handler result is 0 or 1, recorded after the earlier ones |
| Driver.TurnCounts | src/main.cpp:333-342 | one turn counts at most one file, and a turn that counts no file adds nothing |
| Driver.SumCounts | src/main.cpp:333-342 | `n` turns count at most `n` files |
| Driver.SumCountsStep | src/main.cpp:333-342 | the sum over `n` turns is the sum over `n - 1` turns plus the last turn's counts |
| Driver.TurnAddsCounts | src/main.cpp:333-342 | the turn of a file adds to the counters one file, its size and its size less the size of the input or sibling afterwards, exactly when the file is counted at that turn |
| Driver.HandleUpToCounts | src/main.cpp:333-342 | the counters equal their start values plus the sum of the turns' counts; so each file is counted at most once, and the counters of files and bytes never shrink |
| Driver.TurnRecordsError | src/main.cpp:646-648 | one turn appends one result, 0 or 1, after the earlier ones; every file but the turn's own and its `.bak` backup keeps its size, the backup can only disappear, and the only new file is the Gzip sibling |
| Driver.HandleUpToOthers | src/main.cpp:646-648 | a file that is neither in the handled part of the list nor the `.bak` backup of a file in it keeps its size |
| Driver.HandleNext | src/main.cpp:647 | one handler call is the next step of the fold |
| Driver.SequentialLoop | src/main.cpp:645-649 | the sequential loop leaves the fold's files and counters, and its exit code is the OR of the fold's results |
| Driver.WorkerPool | src/main.cpp:501-510 | the workers sharing one cursor handle every file exactly once, in cursor order, with the fold's effect; the cursor ends at the list length plus the worker count; no worker means nothing happens |
| Driver.ListUpTo | src/main.cpp:610-633 | the error flag is 0 or 1, and 0 exactly when every input is a regular file or a directory |
| Driver.ListedPaths | src/main.cpp:610-633 | a path is listed exactly when it is a regular-file input or an entry of a directory input (its walk under `-recurse`) |
| Driver.ListInputs | src/main.cpp:610-633 | the expansion loop computes the listing |
| Driver.HandleList | src/main.cpp:634-649 | the pool or the sequential loop ORs the fold's results into the listing error; a negative thread count starts no worker |
| Driver.OptimizeInputs | src/main.cpp:609-655 | the file-list path leaves the fold's files and counters, and the code is the listing error OR the fold's results |
| Driver.InputArgs | src/main.cpp:612 | each input string is the `argv` entry at its recorded index |
| Driver.Process | src/main.cpp:605-659 | ZIP mode with inputs gives the archive specification's result; otherwise the file-list result, and a negative thread count leaves the listing error with the files and counters unchanged; the report is printed exactly when the savings counter is on |
| Driver.Run | src/main.cpp:512-663 | an early return gives 0 and changes nothing; otherwise ZIP mode or the file list as above, with the parsed inputs |

## Left out

- The codecs and tools are parameters and are not modelled: `Optipng`, `Zopflipng`, `mozjpegtran`, `ZopfliGzip`, `IsGzip`, `ungz`, `IsZIP`, `ReZipFile`, and the miniz archive writer. Only their observable results are kept: return codes, output sizes, and whether an archive member is refused.
- The bytes of files are not modelled, only their sizes. `filesize` is the size of a regular file, or -1 for anything else.
- `Optipng` writes a `.bak` copy at effort level 1. Writing the copy is not modelled; the comparison that unlinks it or renames it over the input removes `Infile.bak` from the files, as the program does, even when that file existed before the run or no codec wrote it (under `-1 --allfilters`).
- Real concurrency is not modelled. The worker pool interleaves turns; each `fileHandler` call and each `fetch_or`/`fetch_add` is atomic. Memory ordering and data races on the file system are out of scope.
- Timestamps under `-keep` (`get_file_time`/`set_file_time`) are not modelled. The `keep` option is parsed.
- `Usage` and every diagnostic `printf` are not modelled. The report keeps each line's kind and exact integer values.
- The sizes in the report are not rendered in binary units, because that is floating-point arithmetic (`log`, `pow`, `setprecision`).
- The time measurement is a parameter: the elapsed milliseconds.
- The number of cores (`hardware_concurrency`) is a parameter.
- The `malloc`/`fopen`/`fread` buffering of `zipHandler` is not modelled. A failed read and a refused append both count as a failing file. The `exit(1)` on allocation failure is left out.
- The MP3 block is compiled out with `#error` and is left out.
- Windows path separators are not modelled. Paths use `/`, and `\` is recognised only where the program searches for both.
- The `std::filesystem` iterators and `canonical` are not modelled. A directory carries its canonical path, its entries and its walk as data.
- `CStrings.Atoi`: does not model overflow of `int`; digit runs are unbounded.
- `Args.PaletteSort`: states the cap only where `N << 8` does not wrap; the wrapped values are computed but not characterised.
- Handle (`Dispatch.Handle`): its own contract does not state the error of a handled file. `Dispatch.HandleReportsCodecStatus` states it: the PNG or JPEG optimizer's status, and 0 after a Gzip transaction that did not refuse.
- `Codecs.OptimizePng`: the final size after a successful main stage is the size the codecs report. The model does not require it to be at most the input size, because the external codecs are not modelled.
- AddMember (`Disk.FileSystem.AddMember`): the archive that each append creates or grows is not reflected in the file sizes during the member loop. So an input or walk entry that is the archive itself, as in `ect -zip dir/a.zip dir` or an archive named again among the inputs, is read at its size before the loop.
- `Driver.WorkerPool`: the model states the fold's order, the cursor order. Workers finishing in another order give the same exit code (`Driver.OrFoldOrderFree`). The file and counter effects of other orders are not modelled.
- The effort-level branch writes `if (!l) l = 1` as `l <= 0`. The two agree because the branch runs only when a digit follows the `-`, so `atoi` reads a count that is not negative.
- The zero-input ZIP case (`-zip` with no input) takes the file-list path, as the program does.

## Findings

| source | as written | input that shows it | evidently intended | confidence | as-written member | corrected member |
|---|---|---|---|---|---|---|
| src/main.cpp:589 | `N > 0 ? N : max(0, hardware_concurrency() + N)` sums in `unsigned`; reading `max` as a macro or an `unsigned` comparison (it is defined outside this model), it never clamps and the wrapped sum is stored in an `int`; the same holds for `--mt-deflate=` at line 580 | `--mt-file=-100` on 8 cores gives -92, so no worker starts and no file is processed | a count clamped at 0 | not executed | Args.ThreadCountCanBeNegative | Args.ThreadCountAgrees |
| src/main.cpp:399-405 | the erase length is the parent's length plus one, even when the parent is the root `/` | `/data/a.txt` under the input `/data` becomes the member `ata/a.txt` | `data/a.txt` | not executed | Zip.RootChildLosesFirstCharacter | Zip.MemberNameKeepsFolder |
| src/main.cpp:380 | `find_last_of(".") > find_last_of("/\\")` with `npos` as the largest `size_t` is false for a name without a separator | `data.txt` gives `data.txt.zip` | the stem of the base name, `data.zip`, as `dir/data.txt` gives `dir/data.zip` | not executed | Zip.BareNameKeepsExtension | Zip.DerivedNameDiffers |
| src/main.cpp:409 | `paths[j + 1]` is read for every directory entry | every walk whose last entry is a directory, e.g. `/d/a.txt` then `/d/e` | the last entry has no successor and counts as empty | not executed | Zip.TrailingDirectoryReadsPastEnd | Zip.EmptyDirEntryAgrees |

For the archive name, the branch that finds a separator strips the extension:
`dir/data.txt` becomes `dir/data.zip`. A bare `data.txt` should become `data.zip` in the
same way, but the code gives `data.txt.zip`. The model keeps the code's behaviour as
`Zip.DerivedNameAsWritten` and uses the intended name, `Zip.DerivedName`.
`Zip.DerivedNameDiffers` proves the two differ exactly for names with a `.` and no
separator. The rest of the model uses the corrected definitions: `Args.ThreadCount`,
`Zip.MemberPrefix`, `Zip.DerivedName` and `Zip.IsEmptyDirEntry`.
