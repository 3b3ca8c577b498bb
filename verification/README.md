# Verified models of the fixpp CI and performance tools

This project models the parts of fixpp's tooling that decide something: which CMake text can
change a compiler flag, whether a benchmark run is evidence, whether a spawned closure can outlive
its context, which tokens make up a type definition, and the burst protocol of the performance
driver. Each model follows the tool's own branches and edge cases, and each comes with theorems
over every input, every run or every reachable state.

Tools that work by changing things step by step are methods, classes and loops here, proved
against specification functions; the theorems are then lemmas about those functions.

- `Text.dfy`, `Basics.dfy`: the string primitives (`str.find`, `str.isspace`, decimal digits) and a
  few facts about sets and reals that the other modules share.
- `CMakeParse.dfy`, `CMakeGrammar.dfy`, `CMakePrint.dfy`: the CMake reader, a grammar of CMake text,
  and the printer. The reader accepts exactly the grammar and returns its meaning.
- `CMakeBlocks.dfy`, `CMakeSubdirs.dfy`, `CMakeFiles.dfy`, `LanePruner.dfy`, `CMakeSurface.dfy`,
  `CMakeValues.dfy`, `CMakeEdits.dfy`, `Presets.dfy`: nested blocks, the pruned subdirectory walk with
  an execution semantics of CMake, the file worklist, the known-false analysis and the runs of a lane,
  the two surface fixpoints, what commands mean under the values of variables, what an edit does to
  the surface, preset inheritance.
- `BurstWindow.dfy`: the burst workload as a machine of interleaved steps.
- `CtestLog.dfy`, `AbaVerdict.dfy`: the ctest log reader and the A-B-A verdict.
- `BenchResults.dfy`, `PairedGate.dfy`: results validation and the paired benchmark gate.
- `SpawnAudit.dfy`, `Lifetimes.dfy`: the named-closure classifier, and a machine of blocks, calls,
  statements and destructors in which its two SAFE verdicts are sound.
- `OdrCensus.dfy`, `HeadReaders.dfy`: the definition slicer and the class-head readers.
- `CxxBlank.dfy`, `BraceBlocks.dfy`: the C++ blanker, the brace walk, the line table.
- `PeakRss.dfy`, `SplitArgs.dfy`: the process-tree sampler and the shell-argument splitter.

`dafny verify dfyconfig.toml` checks the whole project.

## Model

| member | source | states |
|---|---|---|
| CMakeParse.QuoteClose | ci/ccache-flag-surface.py:207-212 | the quote loop stops at the first quote that no backslash takes with it, or past the end |
| CMakeParse.ReadElement | ci/ccache-flag-surface.py:195-242 | one turn of the argument loop does to index, arguments, depth and open token what the argument grammar's step says, errors included |
| CMakeParse.ParseArgs | ci/ccache-flag-surface.py:191-242 | the argument loop gives the argument tokens and the index after the closing parenthesis, or the error |
| CMakeParse.ParseCommand | ci/ccache-flag-surface.py:181-243 | a command is its lower-case name and its tokens; a bad start, a missing parenthesis and unbalanced text are errors |
| CMakeParse.ParseCMake | ci/ccache-flag-surface.py:160-246 | the whole reader equals the command function that the grammar theorems below characterise |
| CMakeGrammar.BracketEndIs | ci/ccache-flag-surface.py:147-157 | what the bracket scan skips is a bracket of some level whose body holds no closer of that level |
| CMakeGrammar.CommentIs | ci/ccache-flag-surface.py:173-179 | what is skipped at a hash is a line comment, a bracket comment, or the last line without its newline |
| CMakeGrammar.ArgsOfElems | ci/ccache-flag-surface.py:191-242 | every well-formed, balanced element list is read back as its tokens |
| CMakeGrammar.ElemsOfArgs | ci/ccache-flag-surface.py:191-242 | every argument list the reader accepts is the text of a well-formed, balanced element list whose tokens are the result |
| CMakeGrammar.ParseOfText | ci/ccache-flag-surface.py:160-246 | the text of any well-formed file, whatever its layout and comments, is read as exactly its commands |
| CMakeGrammar.ParseIsMeaning | ci/ccache-flag-surface.py:160-246 | the reader succeeds with a command list if and only if the text is that of a well-formed file with that meaning |
| CMakePrint.PrintTokens | ci/ccache-flag-surface.py:191-242 | arguments printed with any gaps between them are read as the same arguments |
| CMakePrint.PrintedFileParses | ci/ccache-flag-surface.py:160-246 | any list of commands, printed with any mix of whitespace, line comments and bracket comments between commands and between arguments, is parsed as exactly that list |
| CMakeBlocks.SplitBlocks | ci/ccache-flag-surface.py:263-286 | the stack loop builds the tree of the recursive nesting, or fails with its error |
| CMakeBlocks.SplitIsNesting | ci/ccache-flag-surface.py:263-286 | splitting gives a tree if and only if the commands are the serial form of that well-nested tree |
| CMakeBlocks.SplitFailsExactly | ci/ccache-flag-surface.py:263-286 | splitting fails if and only if the commands are not well nested |
| CMakeBlocks.FlatOfSplit | ci/ccache-flag-surface.py:263-297 | flattening the tree gives the original commands with only the closers removed, in order |
| CMakeSubdirs.PruningSound | ci/ccache-flag-surface.py:340-359 | in every execution, over all branch choices, loop counts, routine calls and early exits, in which no accepted head outside a function or macro body was decided true, every executed `add_subdirectory` is yielded |
| CMakeSubdirs.AcceptedYieldsExactly | ci/ccache-flag-surface.py:348-356 | of an `if` whose head is accepted, exactly the calls that stand after a branch head are yielded |
| CMakeSubdirs.ExecWithin | ci/ccache-flag-surface.py:340-359 | whatever a file's execution runs or reaches is one of the file's own commands |
| CMakeSubdirs.PrunedYieldsLess | ci/ccache-flag-surface.py:340-359 | what is yielded with a pruner is yielded without one |
| CMakeSubdirs.YieldsTheRest | ci/ccache-flag-surface.py:340-359 | the walk yields, in order, exactly the calls of the tree without the accepted first branches |
| CMakeFiles.EnqueueCalls | ci/ccache-flag-surface.py:382-397 | one file's calls append each new readable target once, in order, or fail on an unreadable one |
| CMakeFiles.CollectFiles | ci/ccache-flag-surface.py:362-398 | the growing worklist terminates with the list of the recursive walk |
| CMakeFiles.TargetExactly | ci/ccache-flag-surface.py:383-394 | a call leads to a file if and only if its first argument, without the quotes around it, is a relative path without references and the file below it is inside the tree |
| CMakeFiles.EdgeExactly | ci/ccache-flag-surface.py:377-397 | one file leads to another if and only if it is a CMakeLists.txt and one of its searched calls leads there |
| CMakeFiles.FilesAreReachable | ci/ccache-flag-surface.py:362-398 | the list is exactly the paths reachable over the yielded calls, none twice, and collection fails if and only if a reachable file cannot be loaded |
| CMakeFiles.PrunedFilesAreFewer | ci/ccache-flag-surface.py:362-398 | when both succeed, the pruned list is included in the unpruned one |
| CMakeFiles.LaneFilesCovered | ci/ccache-flag-surface.py:362-398 | every file a configure run of the lane reaches is in the pruned list |
| CMakeFiles.FilesFollowCommands | ci/ccache-flag-surface.py:362-398 | the list depends on the texts only through the commands they parse to |
| LanePruner.DecideKnownFalse | ci/ccache-flag-surface.py:658-678 | the loop over all tracked commands decides exactly: not mentioned, never written, at most one `option`, and a CMake-false lane value or default |
| LanePruner.AcceptedStaysFalse | ci/ccache-flag-surface.py:658-678 | at every point of every run of the tracked commands an accepted variable has the value the lane gave it or, when the lane gave none, is unset or OFF |
| LanePruner.FalseIsOffExactly | ci/ccache-flag-surface.py:634-645 | a value the tool calls false is off for CMake, which compares it as it stands, if and only if it has no surrounding white space and any NOTFOUND form is in capitals |
| LanePruner.AcceptedHeadIsFalseExactly | ci/ccache-flag-surface.py:680-687 | under CMake's own reading of `if(name)`, an accepted head is true at some point of some run if and only if it is misread: its name is a true constant or a number to CMake, or the lane's value for it is not written as CMake reads it |
| LanePruner.MisreadDropsCall | ci/ccache-flag-surface.py:340-359 | the failure: for every misread head there is a file and a run of the lane that executes an `add_subdirectory` which is not yielded |
| LanePruner.MisreadLanes | ci/ccache-flag-surface.py:634-687 | two such lanes: `ON` set to `OFF`, and `X` set to `OFF` after a blank |
| LanePruner.LaneRunObeys | ci/ccache-flag-surface.py:648-687 | in a run of the lane, with tracked commands of other files before, between and after those of the file, whose bare-name conditions are decided by the values of the variables, no accepted head of the file that is not misread is decided true |
| LanePruner.LanePruningSound | ci/ccache-flag-surface.py:340-359 | end to end: with the lane's own pruner every `add_subdirectory` that any such run executes in a file is yielded, when no accepted head of the file is misread |
| LanePruner.LaneRunsAreCovered | ci/ccache-flag-surface.py:362-398 | every directory reached by configurations in such runs is in the list the lane's surface is read from |
| CMakeSurface.FlagPass | ci/ccache-flag-surface.py:538-545 | one pass stays below every closed set, and a pass without a change means the set is closed |
| CMakeSurface.FlagRoutines | ci/ccache-flag-surface.py:535-545 | the loop terminates with the least set of routines holding the readers and closed under direct flags and calls |
| CMakeSurface.FlagRoutinesReach | ci/ccache-flag-surface.py:535-545 | a routine is in that set if and only if a chain of routines, each calling the next or passing its name, leads from it to a file reader or to a body that sets a flag |
| CMakeSurface.WalkAllIsFilter | ci/ccache-flag-surface.py:570-597 | the recursive walk emits exactly the filtered list of sites, each with the heads that gate it |
| CMakeSurface.SitesExactly | ci/ccache-flag-surface.py:570-597 | the sites of a tree are exactly its commands and routines outside routine bodies, each gated by the heads of its enclosing blocks and, of each chain, the branch heads before it |
| CMakeSurface.EmittedExactly | ci/ccache-flag-surface.py:570-597 | a line is emitted if and only if it comes from a site the filter keeps |
| CMakeSurface.Surface | ci/ccache-flag-surface.py:599-608 | the closure loop terminates; the closure is what the emitted lines read, and the least such set |
| CMakeSurface.WritesOfReadsAreEmitted | ci/ccache-flag-surface.py:599-608 | every directory-scope write of a variable that an emitted line reads is itself emitted |
| CMakeSurface.OnlyNeededIsEmitted | ci/ccache-flag-surface.py:587-597 | a kept command is a flag, a call of a flag routine, a return, or a write of a variable an emitted line reads |
| CMakeValues.MeaningDependsExactly | ci/ccache-flag-surface.py:547-554 | under CMake's expansion of arguments, and of bare names in conditions, what a command means depends only on the variables `reads` collects if and only if it computes no name |
| CMakeValues.ComputedNamesAreMissed | ci/ccache-flag-surface.py:547-554 | the failure: `if(${X})` and a nested reference read variables that `reads` does not collect |
| CMakeValues.EmittedLinesSuffice | ci/ccache-flag-surface.py:599-608 | in every run of directory-scope commands the emitted ones, where they compute no name, mean what they mean when only they are run: no write that is left out can change them |
| CMakeValues.CommandEmittedExactly | ci/ccache-flag-surface.py:587-597 | a directory-scope command is emitted if and only if it sets a flag, mentions a flag-bearing routine, is a return, or writes a variable that an emitted line reads |
| CMakeEdits.SurfaceOf | ci/ccache-flag-surface.py:834-862 | files, routines, flag routines and closure composed: the lines are the surface of the listed trees, and there is one if and only if the files can be collected |
| CMakeEdits.SurfaceIsUnique | ci/ccache-flag-surface.py:528-608 | some files have one surface |
| CMakeEdits.RoutinesAreDefinitions | ci/ccache-flag-surface.py:401-413 | the routines collected from a tree are all the function and macro heads among its commands, nested ones included, in order |
| CMakeEdits.DefsAreLast | ci/ccache-flag-surface.py:401-413 | the definitions have exactly the names of those routines, and for each the body of the last one |
| CMakeEdits.ReprintIsLayoutEdit | ci/ccache-flag-surface.py:160-246 | printing the same commands with other gaps is a layout edit |
| CMakeEdits.NewCommentIsLayoutEdit | ci/ccache-flag-surface.py:160-246 | so is adding a comment or space between any two commands |
| CMakeEdits.LayoutNeverMovesSurface | ci/ccache-flag-surface.py:834-862 | layout edits in any of the files, tracked or listed, change neither what the lane prunes, nor the list, nor the trees, nor the surface |
| CMakeEdits.SurfaceMovesExactly | ci/ccache-flag-surface.py:570-608 | what the lines show changes if and only if what is shown of the kept sites does or a kept call becomes or stops being a file reader's, at any two closures and any two sets of routines |
| CMakeEdits.FlagRoutineExactly | ci/ccache-flag-surface.py:535-545 | a routine is flag-bearing if and only if it is a file reader or the definition kept for its name holds a flag or calls a flag-bearing routine |
| CMakeEdits.RoutineKeptExactly | ci/ccache-flag-surface.py:401-413 | on every surface, a routine is emitted if and only if the last definition of its name earns it, whatever its own body holds |
| CMakeEdits.EarlierFlagIsLost | ci/ccache-flag-surface.py:401-413 | the failure: a routine defined with a flag and again without one leaves the surface empty, whatever the flag |
| CMakeEdits.FlagEditMovesSurface | ci/ccache-flag-surface.py:528-608 | a flag edit reaches the surface: flag commands, routines that hold flags, or gating heads that differ in more than prose give different surfaces, when no routine that holds a flag is replaced by a definition without one |
| Presets.FailsExactlyOnDeadEnds | ci/ccache-flag-surface.py:700-717 | resolution terminates, and fails if and only if some inherits path reaches a missing name or a preset already on that path |
| Presets.FirstDefinerWins | ci/ccache-flag-surface.py:700-717 | each key has the value of the first definer in preorder of the inherits tree |
| BurstWindow.PerfApp.SendOne | perf/fixpp_perf_driver.cpp:1306-1328 | stores the send time and the body of the next id and nothing else |
| BurstWindow.PerfApp.Correlate | perf/fixpp_perf_driver.cpp:433-477 | records, for an outstanding id only, the stamp of the reply less the send time |
| BurstWindow.PerfApp.WaitFor | perf/fixpp_perf_driver.cpp:1331-1342 | a recorded reply is taken and all three entries erased; a timeout changes nothing |
| BurstWindow.IdInjective | perf/fixpp_perf_driver.cpp:1306-1321 | two messages never share a correlation id |
| BurstWindow.StepKeeps | perf/fixpp_perf_driver.cpp:1306-1400 | every step of sender, network and callbacks keeps the invariant of window, maps, wire and clock |
| BurstWindow.EveryRunIsSafe | perf/fixpp_perf_driver.cpp:1306-1400 | in every interleaving outstanding ids are at most the depth, responses are within sent, sent equals bodies, and every spawned send has its own body |
| BurstWindow.BodyStaysUntilReply | perf/fixpp_perf_driver.cpp:1323-1340 | a body stays as it is until a wait takes its recorded reply, after its send has run |
| BurstWindow.TakenIsRoundTrip | perf/fixpp_perf_driver.cpp:1331-1342 | the value a wait takes is the clock when the reply arrived less the clock when the message was sent, the reply being the last one locked before the wait ended |
| BurstWindow.EverySampleIsMeasured | perf/fixpp_perf_driver.cpp:1371-1400 | in every run sample j of the histograms is that round trip of the j-th measured message, in whole microseconds and at least 1, under the depth of its phase |
| BurstWindow.OnlyTimeoutsStall | perf/fixpp_perf_driver.cpp:1331-1400 | the sentinel of the wait is unambiguous: only a timeout stalls |
| BurstWindow.UnstalledRunIsComplete | perf/fixpp_perf_driver.cpp:1347-1400 | a run that ends without a stall has recorded four times the measured count and leaves the maps empty |
| BurstWindow.SenderNeverStuck | perf/fixpp_perf_driver.cpp:1347-1400 | until it ends or stalls the sender always has a next step |
| CtestLog.ParseCtestLog | ci/parallelism-verdict.py:152-275 | the line loop computes the fields of the log function, anomalies included |
| CtestLog.CleanMeans | ci/parallelism-verdict.py:152-275 | a log without anomalies has exactly `ran` starts, completions and durations, one summary and one total, and nothing left in flight |
| CtestLog.CleanExactly | ci/parallelism-verdict.py:152-275 | a log has no anomaly if and only if it has one summary and one total, each start is of a test that is not open and each completion of one that is, none is open at the end, and starts, completions and durations are as many as the summary says |
| CtestLog.CleanLogIsMatched | ci/parallelism-verdict.py:152-275 | every completion closes an earlier open start of the same test |
| CtestLog.MaxInflightIsMaximum | ci/parallelism-verdict.py:152-275 | the reported level is the maximum over all prefixes of starts minus completions |
| CtestLog.LevelOneAlternates | ci/parallelism-verdict.py:152-275 | a level of one forces strict alternation of starts and completions |
| AbaVerdict.InstrumentsOf | ci/parallelism-verdict.py:406-844 | an instrument failure is found if and only if one is there |
| AbaVerdict.DefectsOf | ci/parallelism-verdict.py:568-770 | a defect is found if and only if one is there |
| AbaVerdict.VoidsOf | ci/parallelism-verdict.py:666-1016 | the sample is void if and only if some condition voids it |
| AbaVerdict.Judge | ci/parallelism-verdict.py:349-1029 | the exit status follows from the three lists in the documented order |
| AbaVerdict.ExitExactly | ci/parallelism-verdict.py:349-1029 | each exit status exactly, from the fields of the sample: 2 when it is not a measurement, else 1 when parallel running changed tests, colour, sanitizer reports, profiles or coverage, else 3 when something moved under the experiment, else 0 |
| AbaVerdict.ExitZeroExactly | ci/parallelism-verdict.py:1018-1029 | status 0 if and only if the sample is evidence: passes shaped 1/N/1 and green, equal test counts, positive walls, one test in flight in each serial pass and at least N in the parallel one, drift within the tolerance, and a machine that stood still |
| AbaVerdict.CertifiedConcurrency | ci/parallelism-verdict.py:406-566 | in a certified sample no serial log ever has two tests open, and the parallel one at some point has at least N |
| AbaVerdict.SpeedupIsRobust | ci/parallelism-verdict.py:1040-1043 | the printed speedup differs from that against either serial pass alone by at most the tolerance over 200 times itself |
| BenchResults.CheckRow | tools/bench_compare.py:224-351 | no finding if and only if the row is acceptable |
| BenchResults.RowExactly | tools/bench_compare.py:224-351 | a row is acceptable if and only if it is a named object without an error, its unit and iterations are absent or valid, and both times are finite and positive, zero being allowed for a dispersion and for a fit that is no iteration |
| BenchResults.CanonicalExactly | tools/bench_compare.py:224-351 | two values count as one in a row's identity if and only if they are equal, or equal as numbers with a boolean as 0 or 1 |
| BenchResults.ValidateResults | tools/bench_compare.py:224-351 | no finding if and only if all rows are acceptable, no row is repeated and no benchmark has two units |
| BenchResults.PairedSeries | tools/bench_compare.py:402-486 | a series if and only if every reported benchmark has exactly one usable median, and then those medians |
| BenchResults.SeriesPositive | tools/bench_compare.py:402-486 | on a validated leg every compared value is positive |
| PairedGate.ReadManifest | tools/bench_compare.py:148-188 | a manifest is read if and only if every line is well formed and no executable is listed twice |
| PairedGate.ManifestExactly | tools/bench_compare.py:148-188 | a manifest is read as a list of rows if and only if these are, in order, the rows of all lines that are not blank or comments, there is one, and no two have one base name |
| PairedGate.BaseNameIs | tools/bench_compare.py:148-188 | a base name is what follows the last slash of the path |
| PairedGate.ChooseRows | tools/bench_compare.py:665-786 | which binaries are compared, and that an excluded or narrowed row is refused |
| PairedGate.CompareBinary | tools/bench_compare.py:887-1028 | no finding if and only if the four legs of the binary pass; only noise if and only if nothing else is wrong |
| PairedGate.RunPaired | tools/bench_compare.py:790-1076 | exit 0 if and only if the gate passes, exit 2 if and only if noise is the only finding |
| PairedGate.BaseIsCompared | tools/bench_compare.py:665-786 | every binary paired at the merge-base was compared by a passing gate |
| PairedGate.OnlyNewIsExcluded | tools/bench_compare.py:665-786 | a paired binary is left out only when a base-run manifest lacks it and a base manifest shows that it was not paired |
| PairedGate.ComparedArePaired | tools/bench_compare.py:665-786 | every compared binary is paired in the manifest and listed in the base-run manifest, where one is given |
| PairedGate.PassesExactly | tools/bench_compare.py:887-1028 | a binary passes if and only if its rows do: valid legs, one median for each reported benchmark, the same benchmarks in both legs of a tree and all those of the base in the candidate, and medians whose CPU times hold |
| PairedGate.BenchmarkHolds | tools/bench_compare.py:973-1028 | each benchmark that a row of a base leg names has one median row in all four legs, with one unit, both spreads of the CPU times within the noise band, and for each base time a candidate time at most (1 + band/100) times it |
| PairedGate.NoiseCannotHide | tools/bench_compare.py:1008-1027 | slowing noise on one base leg cannot hide a regression of the CPU time |
| SpawnAudit.FindClosure | tools/audit_co_spawn_named_closure.py:852-863 | the candidate closure with the greatest offset, or none if there is no candidate |
| SpawnAudit.NearestExactly | tools/audit_co_spawn_named_closure.py:852-863 | whenever the key is declared before the site in its file and in a block around it, a closure is found, and none declared later fits |
| SpawnAudit.CollectAliases | tools/audit_co_spawn_named_closure.py:877 | the last alias record of a key wins |
| SpawnAudit.BasesExactly | tools/audit_co_spawn_named_closure.py:877-894 | the bases followed from a key are those of its last alias record, and none without one |
| SpawnAudit.Resolve | tools/audit_co_spawn_named_closure.py:880-904 | the recursive walk terminates on every alias graph and appends the paths of the path function |
| SpawnAudit.PathsAreExact | tools/audit_co_spawn_named_closure.py:880-904 | the resolved paths are exactly the acyclic alias paths that end at no base, an empty base or a cycle |
| SpawnAudit.DrivingClosures | tools/audit_co_spawn_named_closure.py:943-953 | exactly the local closures whose body drives a context of the path |
| SpawnAudit.ClassifyOn | tools/audit_co_spawn_named_closure.py:921-975 | the verdict for one path: outlives, driven or flag, by the declarative conditions |
| SpawnAudit.Classify | tools/audit_co_spawn_named_closure.py:851-918 | the verdict for a site is that of the declarative classification |
| SpawnAudit.VerdictIsWorstPath | tools/audit_co_spawn_named_closure.py:905-918 | MANUAL if and only if no closure or no executor is found; otherwise the worst verdict over the acyclic paths, attained on one |
| SpawnAudit.SafeExactly | tools/audit_co_spawn_named_closure.py:905-918 | SAFE if and only if the closure is found, the executor is resolved and every acyclic path is safe on its own |
| SpawnAudit.UnrelatedNeverMatters | tools/audit_co_spawn_named_closure.py:865-918 | contexts and drives keyed outside the paths, any number of them anywhere, never change the verdict |
| SpawnAudit.Merge | tools/audit_co_spawn_named_closure.py:2093-2114 | for exactly the reported sites the merge keeps a report of the worst rank |
| SpawnAudit.MergeIgnoresOrder | tools/audit_co_spawn_named_closure.py:2108-2114 | the merged sites and verdicts depend only on which reports there are, not on their order |
| Lifetimes.ContextDiesFirst | tools/audit_co_spawn_named_closure.py:927-937 | in every run of blocks, calls and reverse-order destruction, a context the scope-and-order test accepts is destroyed before the closure of its activation |
| Lifetimes.OutlivesIsSound | tools/audit_co_spawn_named_closure.py:841-848 | a SAFE-OUTLIVES site has on each executor path such a context |
| Lifetimes.DriveIsAlive | tools/audit_co_spawn_named_closure.py:955-972 | in every run in which the spawn and a driving call that stands after it in the closure's block share an activation, the call runs after the spawn and the closure is alive from the one to the other and through whatever the call runs |
| Lifetimes.DrivenIsSound | tools/audit_co_spawn_named_closure.py:905-972 | every executor path of a safe site has a context that dies before the closure or such a driving call, its own or that of a called local closure |
| Lifetimes.FlagExactly | tools/audit_co_spawn_named_closure.py:905-975 | FLAG if and only if the closure is found, the executor is resolved, and on some path no context is declared later in or inside the closure's block and no driving call stands after the spawn in it |
| OdrCensus.Parse | ci/odr-hooks-census.py:479-578 | the map holds the definitions of the text under the keys that scope path, name and ordinal give them, each with the tokens from the first of its head to the closing brace of its body, and its first and last line |
| OdrCensus.Parser.Feed | ci/odr-hooks-census.py:520-575 | one token keeps type frames and accumulators one to one, each accumulator holding the text since its head, and the head, stack and definitions in step with the specification |
| OdrCensus.Parser.OpenType | ci/odr-hooks-census.py:541-550 | a type body pushes one frame and one fresh accumulator that starts with the head |
| OdrCensus.Parser.CloseType | ci/odr-hooks-census.py:559-563 | closing a type pops its frame with its accumulator and records the slice |
| OdrCensus.HeadIsWhole | ci/odr-hooks-census.py:525-575 | the head is all tokens since the last one that ended a head, with its own semicolons and braces inside balanced expression braces |
| OdrCensus.DefinitionsAreExact | ci/odr-hooks-census.py:479-578 | the recorded definitions are exactly the matched bodies of heads read as types; two are apart or one lies in the other's body and says so |
| OdrCensus.NamesHold | ci/odr-hooks-census.py:540-550 | every definition's scope key ends with its name, and no two definitions have one scope key and ordinal |
| OdrCensus.NamesExactly | ci/odr-hooks-census.py:540-550 | a definition's scope key is made of the scopes open where its body opens and of its own name, and its ordinal is one more than the number of types with that key that opened before |
| OdrCensus.OpenExactly | ci/odr-hooks-census.py:525-575 | the scopes open at a token are exactly those of the scope braces not closed before it, outermost first |
| OdrCensus.ScopeKeyIsJoined | ci/odr-hooks-census.py:540-545 | a scope key is the tags of the open scopes that have one, outermost first, and the name, with `::` between |
| OdrCensus.OtherTag | ci/odr-hooks-census.py:555-556 | a scope that is no type and no namespace is tagged with its head in braces, cut after 60 characters |
| OdrCensus.KeyInjective | ci/odr-hooks-census.py:546-547 | scope keys that do not end in a hash sign and digits give different keys to different names |
| OdrCensus.NameEndsPlain | ci/odr-hooks-census.py:430-443 | a text that ends in an identifier, in `::` or in a closed angle list never ends so |
| OdrCensus.TypeNamesArePlain | ci/odr-hooks-census.py:430-452 | when type names are put together from identifiers, `::` and angle lists, unnamed types being `<anon:…>`, no type of any text has a name that ends so |
| OdrCensus.NoDefinitionIsLost | ci/odr-hooks-census.py:540-563 | when no type's name ends in a hash sign and digits, the map has exactly one entry per definition, each with the definition's own tokens |
| HeadReaders.SkipGroup | ci/odr-hooks-census.py:233-244 | the index after the balanced close, and none if and only if the group stays open |
| HeadReaders.Angles | ci/odr-hooks-census.py:247-270 | the list reader always advances, stops only at the end or after the closing `>`, and is at the end when a list is open |
| HeadReaders.AngleDepth | ci/odr-hooks-census.py:247-270 | the loop terminates with that reading |
| HeadReaders.SkipAngle | ci/odr-hooks-census.py:273-277 | past the closing `>`, or none when the list does not close |
| HeadReaders.SkipId | ci/odr-hooks-census.py:316-330 | past the names, lists and `::` of an id-expression, or none when a list does not close |
| HeadReaders.SkipRequiresExpression | ci/odr-hooks-census.py:309-315 | past the body, or which of the reasons applies: the head ends where the body would open, or something does not close or does not belong |
| HeadReaders.SkipAttributes | ci/odr-hooks-census.py:280-292 | advances if and only if an attribute starts, and leaves none unread |
| HeadReaders.ClauseFrom | ci/odr-hooks-census.py:295-340 | a clause that ends, ends inside the head with no connective after it |
| HeadReaders.SkipRequires | ci/odr-hooks-census.py:295-340 | the loop terminates with the clause's end, or with the reason its first failing primary gives |
| CxxBlank.IsDigitSeparator | ci/cxx_blank.py:54-77 | an apostrophe between alphanumerics whose token begins with a digit, or with a dot and a digit |
| CxxBlank.BlankNonCode | ci/cxx_blank.py:80-201 | the state machine writes exactly the blanked text of the part function |
| CxxBlank.KeptExactly | ci/cxx_blank.py:80-201 | every character of a code part is kept and every other one is blanked |
| CxxBlank.PartExactly | ci/cxx_blank.py:93-142 | what begins at a place of the code: a raw string, a comment, a literal at every double quote and at every apostrophe that is no digit separator, or code |
| CxxBlank.RawOpens | ci/cxx_blank.py:48-50 | a raw string opens at every encoding prefix, `R`, quote, delimiter of at most 16 characters and parenthesis, and its text begins after them |
| CxxBlank.SeparatorExactly | ci/cxx_blank.py:54-77 | an apostrophe separates digits if and only if it stands between alphanumerics in a run that begins with a digit or with a dot and a digit |
| CxxBlank.OffsetsArePreserved | ci/cxx_blank.py:80-201 | equal length, and each character unchanged or a space in place of a non-newline |
| CxxBlank.NothingOpens | ci/cxx_blank.py:80-201 | the result holds no double quote and nothing that opens a comment |
| CxxBlank.LineCommentEnds | ci/cxx_blank.py:144-179 | a line comment ends with the first newline not continued by a backslash, with or without a carriage return |
| CxxBlank.LiteralPartEnds | ci/cxx_blank.py:191-199 | a literal ends with the first quote that an even number of backslashes precedes |
| CxxBlank.BlockCommentEnds | ci/cxx_blank.py:182-189 | a block comment ends with the first closing mark after its opening |
| CxxBlank.RawStringEnds | ci/cxx_blank.py:102-111 | a raw string ends with the first closing parenthesis, delimiter and quote after its opening one |
| BraceBlocks.BraceBlocks | ci/cxx_blank.py:299-315 | none if and only if some prefix has more closers than openers; otherwise exactly the matched pairs, by close offset |
| BraceBlocks.ContentsAreBalanced | ci/cxx_blank.py:299-315 | the contents of a matched pair are balanced |
| BraceBlocks.NestedOrDisjoint | ci/cxx_blank.py:299-315 | two matched pairs are nested or disjoint |
| BraceBlocks.BlankUnevaluated | ci/cxx_blank.py:220-275 | exactly the characters of the operands that close are blanked; one that does not close is left alone |
| BraceBlocks.LineStarts | ci/cxx_blank.py:318-324 | the offset of each line |
| BraceBlocks.LineIndexOf | ci/cxx_blank.py:327-329 | the last line that starts at or before the offset |
| BraceBlocks.LineOf | ci/cxx_blank.py:318-329 | over the split text the two give the number of newlines before the offset |
| PeakRss.TreeRss | ci/measure-peak-rss.py:181-206 | on any parent map, cyclic ones included, sum, maximum and count of the sizes over exactly the root and its descendants, each once |
| PeakRss.Sampler.Run | ci/measure-peak-rss.py:416-427 | the peak is the largest total, with the other fields from one snapshot that has it |
| PeakRss.PeakIsBounded | ci/measure-peak-rss.py:416-427 | the peak is at least every single reading and at most the sum of the per-process peaks |
| SplitArgs.SplitArgs | ci/assert-ccache-floor-callers.py:119-175 | the loop gives the tokens of the scan function |
| SplitArgs.SplitIsTokens | ci/assert-ccache-floor-callers.py:119-175 | on every text: the result is a token list if and only if the text is a well-formed sequence of pieces with those tokens, unquoted dollar signs, unclosed quotes and unclosed expressions included |
| SplitArgs.ExpressionStaysWhole | ci/assert-ccache-floor-callers.py:119-175 | in every text an unquoted `${{ … }}` stays inside a single token |
| SplitArgs.SplitUndoesQuoting | ci/assert-ccache-floor-callers.py:119-175 | quoting then splitting is the identity on every list of tokens over any characters |

## Left out

- Foreign calls and I/O: libclang cursors, the preprocessor, git, YAML, TOML and JSON loading, process spawning, `/proc`, clocks and the network. The models start from events, tokens, rows, log lines and maps; the network answers only messages already written.
- All message text, table formatting and annotations.
- Case mapping is ASCII: `str.lower` and `str.upper` on other letters are not modelled. `str.isalnum` and `str.isdigit` are parameters of the C++ blanker.
- ci/ccache-flag-surface.py: the flag-variable and flag-property patterns, the relative-path arithmetic of `add_subdirectory` and which routines are file readers are parameters; `reader_value` and the text `fmt` joins its tokens to are not modelled, only which tokens it shows. A variable written under a computed name is outside the known-false analysis, as the tool documents.
- CMakeSubdirs.PruningSound: which heads are true is a choice of the run; execution covers nested blocks, conditions, loops, function and macro calls, `return`, `break` and `continue`; `include` and generated code are not modelled.
- LanePruner.LanePruningSound: false where an accepted head is misread (LanePruner.MisreadDropsCall): a variable whose name CMake takes for a true constant or a number (`ON`, `YES`, `TRUE`, `Y`, `INF`, `INFINITY`, `NAN` in any case), or a lane value such as ` OFF` or `x-notfound` that the tool strips or capitalises before it compares. The hypothesis is that the accepted heads of the file are not misread; LanePruner.AcceptedHeadIsFalseExactly shows that this is the exact condition on a head.
- CMakeEdits.FlagEditMovesSurface: false for a flag in a routine that a later definition without a flag replaces (CMakeEdits.EarlierFlagIsLost), though the tool's documentation promises every flag-bearing routine whole; CMakeEdits.RoutineKeptExactly gives the exact condition.
- CMakeValues.EmittedLinesSuffice: false where an emitted command computes a name, `if(${X})` or a reference inside a reference (CMakeValues.ComputedNamesAreMissed); CMakeValues.MeaningDependsExactly gives the exact condition. A variable is written by `set`, `unset`, `option`, `string` and `list` only, and a written value is a function of what the command means and of the value before: list operands and loop variables that are read or set by name are outside the model, as are other commands that write, which the tool names as not covered.
- CMakeBlocks.SplitBlocks: a nested block is a value, so the sharing of one list between the stack and the parent block is not captured; branch heads are a constructor of their own where the code uses a tagged tuple.
- BurstWindow.StepKeeps: the loops of the driver are control states of the machine and each critical section is one step; percentiles, TLS, teardown and the multi-session variant of the same loop are left out. Times are whole nanoseconds, so the rounding of the division to microseconds in floating point is not modelled.
- AbaVerdict.ExitZeroExactly: holds for well-formed steal counters; a counter that does not parse stands that check down, as in the code. The rounding of `sum_s` is not modelled.
- PairedGate.RunPaired: values are reals, so rounding and NaN are not modelled apart from non-finite tolerances; results fields that are neither text nor numbers are one kind of value.
- SpawnAudit.Merge: which of several equally bad reports is kept, and so its explanation, depends on the order; only the verdict does not.
- Lifetimes.OutlivesIsSound: a lambda body is a block of its enclosing one, or a call of its own; a closure and a context count as one activation only within one call.
- Lifetimes.DrivenIsSound: says when a driving call runs, not that it does: like the tool it does not look at reachability. It covers runs in which the spawn and the call share an activation of the innermost block around both, and block activations that go forward in source order and run no statement once they destroy variables, so a backward jump past a declaration is outside it.
- OdrCensus.Parse: what a head means (`read_head`, `classify_head`, `declarator_name`) is a parameter that opens no type on an empty head, so the theorems hold for every reading of heads; tokenising, line markers, `line_type` and the list of unread heads are left out.
- BraceBlocks.BlankUnevaluated: where the `decltype` pattern matches is given.
- PeakRss.Sampler.Run: the time of the peak and a sampler thread that dies are left out, as is the Windows backend.
- The policy and population checkers, coverage and seed tools, `blank_non_code` run twice (not idempotent by design) and tools/check_co_spawn_lambda.py: they would add only easy members or repeat the lexer.
