# Orca: verified models of its stateful core

Dafny models of the parts of Orca whose correctness depends on order, time or exact text, with proofs of what
they promise. `dafny verify dfyconfig.toml` checks everything. File contents, clocks, power assertions, the
collation order and the command index are parameters; each I/O call is a step that succeeds or fails.

**Active view preference.** One small file remembers the top-level view. `set` debounces, asynchronous writers
queue on a promise chain, `flushOrThrow` writes synchronously and may run at any await of a writer, the drain
writes until it owns the newest generation, the quit flush is last, and maintenance pauses saving.
`ActiveViewProtocol.dfy` is the state machine: one event for each call and for each end and continuation of an
awaited file call, so the rename and the code behind it are two steps. `ActiveViewPreference.dfy` is the class;
each of its methods is proved to do one step. The results are in the other `ActiveView*.dfy` files:
`ActiveViewCalls` (what each call requests, returns and enqueues, and the correction after a failed veto),
`ActiveViewSafety` (a flush is never undone), `ActiveViewTempPaths` (temp paths are not shared),
`ActiveViewDrain` (the drain and the quit flush), `ActiveViewDelivery` (what is in the file when all calls
succeed), `ActiveViewQuiescence` (when a quiet writer shows the active view), `ActiveViewStaleMarker` (a run in
which it does not), and `ActiveViewExactness`, `ActiveViewSetBack` and `ActiveViewQuit` with `ActiveViewEarlySaves`
(exactly when the calls that believe the marker are right).

One promise fails. After views A, B, A the rename of B can land once the second A is accepted; the marker
`persistedActiveView` then still says A although the file holds B. The early exits at lines 159 and 226 of
`src/main/active-view-preference.ts`, and the check at line 265, believe the marker and stop the debounce that
would have repaired the file; while saving is paused, a set back to the view the marker names has the same effect.
`StaleIsReached` and `StaleMarkerLosesView` give a run. `QuietFileShowsView` proves the promise for every run,
pauses included, that never takes such an exit while a debounce is armed and never sets back in a pause.
`FlushExact`, `DrainExact`, `DrainTurnExact`, `PauseExact`, `SetBackExact` and, for the quit flush, whose loss nothing
repairs, `QuitExact` give exact guards: they read only the fields of the object, and where one of them fails the same
fields can stand over a file that shows another view.

A drain that has returned stays the pending one until its promise settles (lines 205-213). A quit flush called in that
synchronous stretch joins it and takes no turn of its own; `JoinReturnedExact` says exactly when it is still the last
write.

**Awake lease and service.** A timer looks again when the next status row goes stale; the service publishes
whether the computer is kept awake and owns one power blocker whose calls may throw. The clock is an integer that
never runs backwards. A row renewed in its very last millisecond is eligible, but `scheduleAt` returns at line 81
without arming a timer, where `scheduleNextExpiry` would have looked one millisecond later; `RenewExact` says
exactly when a renewal keeps the coverage, and `FastPathExact` when it keeps what is published; `LastMillisecondSticks`
shows the effect.

**Printers and parsers.** The Windows argument quoter is checked against the splitting rules of "Parsing C++
command-line arguments" (Microsoft), with both treatments of a doubled quote inside quotes; the two POSIX quoters
(section 2.2 of the POSIX.1-2017 Shell Command Language) against `parseCommandLine` and against a reading by the
shell's own rules (`ShellReading.dfy`); and the argument parser of the CLI against its canonical rendering.
`CommandLines.dfy` says what `parseCommandLine` makes of every line, quotes, escapes and open quotes included, by a
grammar of words and pieces; `CliForms.dfy` says which flags take the token after them and which of several values
stays.

**Search and trees.** Edit distance and the pruned ranking of suggestions, reachability in the build guard, the
stack search and the in-place compaction of browser tabs in the accessibility bridge. `CommandOffers.dfy` states the
candidates and the guard on destructive commands by the tokens of the line and of the registry, `TabLines.dfy` the
compaction by the characters of the lines.

**Trust-file locks.** Writers that nest one lock per `config.toml`. The mutex in
`src/main/codex/codex-trust-config-mutation-queue.ts` serves callers in order and lets a caller through that
already holds the key, so a repeated file does not block its own writer; the comment at line 39 of
`src/main/agent-workspace-trust.ts` says that it would. The model follows the code. The launch of an agent with an
account home takes that account's file after the system one, the hook installer of the account home before it, so the
order that the comments at line 7 of `src/main/codex/codex-hook-trust-queue.ts` and line 175 of
`src/main/agent-trust-presets.ts` call common is not: `MixExact` says exactly which mixes of callers can deadlock.

## Model

| member | source | states |
|---|---|---|
| ActiveViewSafety.FileNeverGoesBack | src/main/active-view-preference.ts:94-181 | over every run, failures included, a landing in the file is always of a later generation and never a torn write |
| ActiveViewSafety.FlushIsNeverUndone | src/main/active-view-preference.ts:149-181 | whatever the interleaving, no write that was enqueued or had landed before a successful flushOrThrow reaches the file after it |
| ActiveViewSafety.UnlinkVetoes | src/main/active-view-preference.ts:162-175 | once the claimed temp file is unlinked or found gone, no writer is left whose rename could land |
| ActiveViewSafety.StepKeeps | src/main/active-view-preference.ts:60-269 | every step keeps the order of generations, the claim on the temp path, whole temp files and the veto |
| ActiveViewCalls.SetRequestsSave | src/main/active-view-preference.ts:60-92 | an accepted set over a different marker, an armed debounce or a pending write takes a new generation and arms the debounce unless paused; otherwise, and after quit, it requests nothing; a refused value changes nothing |
| ActiveViewCalls.FlushReports | src/main/active-view-preference.ts:149-181 | which of its four ways a flush ends, for every outcome of its file calls, what it then leaves in the file and the marker, and that it enqueues only when the unlink failed |
| ActiveViewCalls.FailedVetoEnqueues | src/main/active-view-preference.ts:165-175 | when the claimed temp file cannot be removed, the flush throws and leaves the active view at the end of the chain at the newest generation |
| ActiveViewCalls.FailedVetoDelivers | src/main/active-view-preference.ts:165-175 | with successful calls from then on and no further call, the file shows that view as soon as nothing is pending, over every run |
| ActiveViewCalls.FlushPendingJoins | src/main/active-view-preference.ts:193-205 | a call whose signal has fired changes nothing, and one made while a drain runs adds its one consumer and nothing else |
| ActiveViewCalls.FlushPendingStarts | src/main/active-view-preference.ts:205-228 | without a drain it enqueues the active view at a new generation with itself as the one consumer, or ends at once if there is nothing to write |
| ActiveViewCalls.DrainAbortsExact | src/main/active-view-preference.ts:217-246 | a drain with another write to do gives up if and only if it has no consumer without a signal and every signal of its consumers has fired |
| ActiveViewCalls.MaintenancePauses | src/main/active-view-preference.ts:254-269 | a pause drops the debounce once and not after quit; its end arms a save if and only if view and marker differ and no quit flush has begun |
| ActiveViewTempPaths.TempPathsAreNotShared | src/main/active-view-preference.ts:111-140 | no temp path about to be written exists already, and a non-null claim names the file of the one writer inside its rename |
| ActiveViewTempPaths.EnqueuedGenerationsGrow | src/main/active-view-preference.ts:76-108 | every write enqueued in a run has a greater generation than all that were enqueued before it, pending or not |
| ActiveViewTempPaths.StepEnqueuesNewer | src/main/active-view-preference.ts:94-108 | a step enqueues nothing, or one write at the end of the chain with a greater generation than the last one |
| ActiveViewDrain.DrainEndsQuiet | src/main/active-view-preference.ts:217-238 | a drain that is not aborted returns with no debounce armed and no write queued |
| ActiveViewDrain.RoundsArePaidFor | src/main/active-view-preference.ts:217-238 | the rounds of a drain after the first are no more than the generation bumps of other callers since it began |
| ActiveViewDrain.EachRoundIsPaidFor | src/main/active-view-preference.ts:229-236 | a drain takes another round only if the generation was bumped during the await before it |
| ActiveViewDrain.QuitFlushIsFinal | src/main/active-view-preference.ts:76-80 | once the quit flush's drain has ended only another flushPendingAsync changes the file |
| ActiveViewDelivery.IdleLeavesNoTemp | src/main/active-view-preference.ts:138-146 | with successful calls an idle writer leaves no temp file |
| ActiveViewDelivery.DrainDelivers | src/main/active-view-preference.ts:229-236 | a drain that returns after its own write has that view in the file, in the marker and, before quit, as the active view |
| ActiveViewExactness.MarkerIsRight | src/main/active-view-preference.ts:159-161 | on every ordinary run, a call that finds nothing to write and no debounce armed finds the active view in the file |
| ActiveViewExactness.AnotherFileIsPossible | src/main/active-view-preference.ts:124-128 | whatever the fields, with a debounce armed and nothing to write the same fields are reached over a file that shows another view |
| ActiveViewExactness.FlushExact | src/main/active-view-preference.ts:153-181 | with successful calls flushOrThrow leaves the active view in the file, in every ordinary run that leads to the same fields, if and only if it does not drop an armed debounce with nothing to write |
| ActiveViewExactness.DrainExact | src/main/active-view-preference.ts:222-228 | the same of a drain that finds nothing to write when it starts: right if and only if no debounce is armed |
| ActiveViewExactness.DrainTurnExact | src/main/active-view-preference.ts:219-237 | the same of a later turn of a running drain |
| ActiveViewExactness.PauseExact | src/main/active-view-preference.ts:254-269 | whatever happens in a maintenance pause, its end with no write pending arms a save or leaves the active view in the file, in every run that leads to the fields at its start, if and only if the pause did not stop an armed debounce over a marker that names the active view; one harmless shape of pending write is excepted |
| ActiveViewSetBack.SetBackExact | src/main/active-view-preference.ts:60-84 | a set, in a pause, back to the view the marker names is safe whatever happens until the end of the pause, in every run that leads to the same fields, if and only if it neither gives up a view still to be saved nor overtakes a pending write over a file that may show another view |
| ActiveViewQuit.QuitExact | src/main/active-view-preference.ts:184-228 | with successful calls and no further call the quit flush resolves with the active view in the file, in every ordinary run that leads to the same fields, if and only if no debounce is armed over a marker that names the active view while nothing is pending or a drain runs |
| ActiveViewQuit.JoinReturnedExact | src/main/active-view-preference.ts:202-212 | a quit flush that joins a drain which has returned but is not cleared yet is the last write if and only if no debounce has been armed since |
| ActiveViewEarlySaves.IdleDebounceIsLate | src/main/active-view-preference.ts:64-91 | a debounce armed with nothing to write takes two save requests, and three while a drain runs |
| ActiveViewQuiescence.QuietFileShowsView | src/main/active-view-preference.ts:60-147 | after an accepted set, with no timer, no pending write and no pause, file, active view and marker agree on every run, pauses included, that never stops an armed debounce on the marker's word and never sets back in a pause |
| ActiveViewQuiescence.PlainRunsAreOrdinary | src/main/active-view-preference.ts:60-147 | runs of sets, debounce firings and writer steps are all of that kind |
| ActiveViewStaleMarker.StaleIsReached | src/main/active-view-preference.ts:124-128 | the run A, B, A that leaves the marker stale with all calls successful |
| ActiveViewStaleMarker.StaleMarkerLosesView | src/main/active-view-preference.ts:159-161 | from there a flush, a drain and a maintenance pause each leave the wrong view in the file with nothing on its way |
| ActiveViewPreferences.ActiveViewPreference.constructor | src/main/active-view-preference.ts:48-54 | a whole stored view is active and in the marker; else the marker is empty and the legacy view, or the terminal, is active; nothing is armed or pending |
| ActiveViewPreferences.ActiveViewPreference.Set | src/main/active-view-preference.ts:60-74 | one Set step; reports whether the view changed |
| ActiveViewPreferences.ActiveViewPreference.RequestSave | src/main/active-view-preference.ts:76-92 | bumps the generation and arms the debounce unless quitting or paused |
| ActiveViewPreferences.ActiveViewPreference.FireTimer | src/main/active-view-preference.ts:88-91 | one TimerFires step |
| ActiveViewPreferences.ActiveViewPreference.Enqueue | src/main/active-view-preference.ts:94-108 | the write goes behind all pending ones |
| ActiveViewPreferences.ActiveViewPreference.ContinueAfterTmpWrite | src/main/active-view-preference.ts:119-124 | a stale writer turns to removing its temp file, the newest claims it and starts its rename |
| ActiveViewPreferences.ActiveViewPreference.ContinueAfterRename | src/main/active-view-preference.ts:124-146 | the marker moves only for the newest generation, and the claim is released only by its owner |
| ActiveViewPreferences.ActiveViewPreference.FlushOrThrow | src/main/active-view-preference.ts:149-181 | one Flush step with each of its outcomes: refused, skipped, threw, wrote; FlushReports and FailedVetoEnqueues say what they are |
| ActiveViewPreferences.ActiveViewPreference.FlushPendingAsync | src/main/active-view-preference.ts:193-215 | joins a running drain or starts one; an aborted signal is refused |
| ActiveViewPreferences.ActiveViewPreference.FlushAsync | src/main/active-view-preference.ts:184-191 | the quit flush starts once |
| ActiveViewPreferences.ActiveViewPreference.TurnDrain | src/main/active-view-preference.ts:217-230 | one iteration of the drain loop up to its await or its end |
| ActiveViewPreferences.ActiveViewPreference.ResumeDrain | src/main/active-view-preference.ts:231-237 | what the drain does when its write has settled |
| ActiveViewPreferences.ActiveViewPreference.PauseForMaintenance | src/main/active-view-preference.ts:254-262 | one Pause step; a second pause and a pause after quit are refused |
| ActiveViewPreferences.ActiveViewPreference.ResumeAfterMaintenance | src/main/active-view-preference.ts:263-268 | one Unpause step |
| ActiveViewPreferences.ActiveViewPreference.Perform | src/main/active-view-preference.ts:31-270 | every enabled event, carried out on the fields, is the step of the state machine |
| AwakeLease.EveryRowIsCovered | src/main/agent-awake-status-lease.ts:22-97 | over every run with fresh renewals each eligible row has an armed timer due no later than its expiry plus one |
| AwakeLease.RenewExact | src/main/agent-awake-status-lease.ts:28-36 | renew keeps that coverage if and only if it does not renew a row exactly at its expiry without an armed timer |
| AwakeLease.LastMillisecondRenewal | src/main/agent-awake-status-lease.ts:79-85 | a row renewed in its last millisecond is eligible and uncovered |
| AwakeLease.TimerStops | src/main/agent-awake-status-lease.ts:62-97 | with k distinct expiries left and no new calls the timer fires at most 2k+1 times, and when none is armed no row is eligible |
| AwakeLease.EarliestExists | src/main/agent-awake-status-lease.ts:65-73 | there is an earliest next check whenever a row is eligible |
| AwakeLease.LastRowsAreKept | src/main/agent-awake-status-lease.ts:22-25 | the same of the lease as a value: exactly the keys of the rows, each with its last row |
| AwakeLease.ReplaceCounts | src/main/agent-awake-status-lease.ts:22-47 | after a replacement some row is eligible, and a timer armed, if and only if the last row of some key is working, observed, and at most two hours old |
| AwakeStatusLease.AgentAwakeStatusLease.Replace | src/main/agent-awake-status-lease.ts:22-25 | a key is stored if and only if some row has it, with the last such row, and the timer is set to the earliest next check |
| AwakeStatusLease.AgentAwakeStatusLease.Renew | src/main/agent-awake-status-lease.ts:28-36 | the row is stored; if eligible the timer moves to an earlier due time only |
| AwakeStatusLease.AgentAwakeStatusLease.CountEligible | src/main/agent-awake-status-lease.ts:38-47 | the number of eligible rows |
| AwakeStatusLease.AgentAwakeStatusLease.FindEarliest | src/main/agent-awake-status-lease.ts:65-73 | the loop finds the minimum of the next checks, or none |
| AwakeStatusLease.AgentAwakeStatusLease.ScheduleNextExpiry | src/main/agent-awake-status-lease.ts:62-77 | clears the timer and arms the earliest next check |
| AwakeStatusLease.AgentAwakeStatusLease.ArmAt | src/main/agent-awake-status-lease.ts:79-97 | an armed timer is only ever replaced by an earlier one |
| AwakeStatusLease.AgentAwakeStatusLease.OnTimer | src/main/agent-awake-status-lease.ts:88-92 | the timer rearms itself for the rows left |
| AwakeService.PublishedStatusIsKept | src/main/agent-awake-service.ts:95-180 | in auto mode, on every run before dispose without a renewal in the last millisecond of its row that finds no timer, an eligible row implies "active" is published, and "active" published implies a timer is armed |
| AwakeService.FastPathExact | src/main/agent-awake-service.ts:110-117 | in auto mode a renewal keeps both of these promises if and only if it does not arrive in the last millisecond of its row and find no timer armed |
| AwakeService.FastPathIsRecount | src/main/agent-awake-service.ts:110-117 | the fast path with the literal count 1 makes the decision of a full recount |
| AwakeService.LastMillisecondSticks | src/main/agent-awake-service.ts:110-117 | a renewal in the last millisecond publishes "active" with no timer to take it back |
| AwakeService.AtMostOneBlocker | src/main/agent-awake-service.ts:186-293 | whichever blocker calls throw, on every run at most one blocker is live and it is the remembered one |
| AwakeService.DecideNeverLeaks | src/main/agent-awake-service.ts:150-166 | one decision never leaks a blocker |
| AwakeService.DecisionTakesEffect | src/main/agent-awake-service.ts:150-166 | with a blocker whose start and stop take effect, a blocker is live after the decision if and only if it wants one |
| AwakeService.StatusesDecide | src/main/agent-awake-service.ts:104-107 | in auto mode setStatuses publishes "active", and arms a timer, if and only if the last row of some agent has worked recently |
| AwakeService.StatusesTakeEffect | src/main/agent-awake-service.ts:150-166 | and then, with a blocker whose start and stop take effect, one is live if and only if that holds and the Mac assertion is not active |
| AwakeService.ModeDecides | src/main/agent-awake-service.ts:95-102 | a change of mode publishes "active" if and only if the mode is on, or auto with a row that has worked recently |
| AwakeService.FreshnessDecides | src/main/agent-awake-service.ts:110-117 | a renewal stores its row, moves the timer up to the end of its two hours if it has worked recently, and in auto mode then publishes "active" unless that is published |
| AwakeService.FiringDecides | src/main/agent-awake-service.ts:63-63 | a firing publishes "active" if and only if the mode is on, or auto with a row that has worked recently |
| AgentAwakeServices.AgentAwakeService.SetMode | src/main/agent-awake-service.ts:95-102 | the same mode changes nothing, another one refreshes |
| AgentAwakeServices.AgentAwakeService.SetStatuses | src/main/agent-awake-service.ts:104-107 | the lease keeps the last row of each key, then the service refreshes; StatusesDecide says what it publishes |
| AgentAwakeServices.AgentAwakeService.ObserveStatusFreshness | src/main/agent-awake-service.ts:110-117 | renews, and decides only in auto mode while "active" is not published |
| AgentAwakeServices.AgentAwakeService.OnStaleExpiry | src/main/agent-awake-service.ts:63-63 | a firing rearms the lease and refreshes |
| AgentAwakeServices.AgentAwakeService.GetStatus | src/main/agent-awake-service.ts:119-125 | reads the mode and whether it keeps the computer awake now |
| AgentAwakeServices.AgentAwakeService.Dispose | src/main/agent-awake-service.ts:137-143 | the timer is cleared, power resumes are no longer heard, the blocker is stopped and both platform assertions are disposed of |
| AgentAwakeServices.AgentAwakeService.ApplyDecision | src/main/agent-awake-service.ts:150-166 | starts or stops the blocker and, in the order of the code, both platform assertions, then publishes |
| AgentAwakeServices.AgentAwakeService.Publish | src/main/agent-awake-service.ts:168-180 | listeners are told the status if and only if it is not the one published last, so never the same twice in a row |
| AgentAwakeServices.AgentAwakeService.StartBlocker | src/main/agent-awake-service.ts:186-204 | starts one only if none is remembered or the remembered one has ended |
| AgentAwakeServices.AgentAwakeService.StopBlocker | src/main/agent-awake-service.ts:255-272 | stops the remembered blocker and forgets it only when it has ended |
| AgentAwakeServices.AgentAwakeService.ReconcileBlocker | src/main/agent-awake-service.ts:274-293 | forgets a blocker that is reported ended; a throw counts as running |
| WindowsQuoting.QuoteArgument | native/windows-cli-launcher/OrcaCliLauncher.cs:89-127 | the loop builds the quoted form of the value |
| WindowsQuoting.BuildArguments | native/windows-cli-launcher/OrcaCliLauncher.cs:78-87 | splitting the command line gives back the path and the arguments, under both conventions for a doubled quote |
| WindowsQuoting.SplitUndoesBuild | native/windows-cli-launcher/OrcaCliLauncher.cs:78-127 | splitting undoes quoting and joining for every list of strings |
| WindowsQuoting.PlainArgumentsAreKept | native/windows-cli-launcher/OrcaCliLauncher.cs:89-103 | an argument is left as it is if and only if it is not empty and has no quote and no white space; any other starts and ends with a quote |
| RecoveryCommand.ParseCommandLine | src/cli/orchestration-mutation-recovery.ts:107-158 | the loop computes the words of the line, or nothing if a quote stays open or there is no word, as CommandLines describes them |
| CommandLines.ReadingDecides | src/cli/orchestration-mutation-recovery.ts:107-158 | a line read as white space, words of quoted, escaped and plain pieces, and perhaps an open quote gives one argument a word, or nothing if a quote is open or there is no word |
| CommandLines.EveryLineIsRead | src/cli/orchestration-mutation-recovery.ts:107-158 | every line has such a reading |
| CommandLines.DoubleQuotedReads | src/cli/orchestration-mutation-recovery.ts:123-134 | any value in double quotes, with a backslash before each double quote and backslash, reads as the value |
| CommandLines.EscapedReads | src/cli/orchestration-mutation-recovery.ts:143-145 | a value outside quotes with a backslash before each space, quote and backslash reads as the value |
| CommandLines.SpacedWordsAreParsed | src/cli/orchestration-mutation-recovery.ts:137-157 | words with any white space between them and at the ends parse to their values; with a quote left open behind them nothing does |
| CommandLines.SpacesAre | src/cli/orchestration-mutation-recovery.ts:137-137 | white space is the class of ECMAScript, line terminators included |
| RecoveryCommand.ParseUndoesRender | src/cli/orchestration-mutation-recovery.ts:160-168 | parsing undoes POSIX rendering for every non-empty list of strings |
| RecoveryCommand.ShellQuoteReads | src/cli/orchestration-mutation-recovery.ts:207-212 | a quoted value reads as the value wherever it stands |
| RecoveryCommand.ParseUndoesCliRender | src/cli/shell-command-quote.ts:1-9 | parsing undoes the other POSIX quoter, joined by spaces, too |
| ShellReading.ShellReadsQuoted | src/cli/orchestration-mutation-recovery.ts:207-212 | both POSIX quoters print one word that a shell reads as the value, for every value |
| ShellReading.PlainWordsAreKept | src/cli/orchestration-mutation-recovery.ts:207-212 | a value is printed as it is if and only if it has letters, digits and the ten marks of the pattern only |
| ShellReading.PlainArgumentsAreKept | src/cli/shell-command-quote.ts:1-4 | the same of the other quoter and its five marks |
| RecoveryCommand.ResolvedKeepsArguments | src/cli/orchestration-mutation-recovery.ts:170-181 | resolving changes the program name of an orca command and no argument; other commands stay as they are |
| CliArgs.ParseArgs | src/cli/args.ts:61-120 | the loops over tokens and entries compute the path and the flag map that CliForms describes token by token |
| CliForms.SpaceMeansEquals | src/cli/args.ts:74-104 | behind a command `--k v` means `--k=v` for a flag that is not boolean and a value that is no flag token |
| CliForms.PairIsRead | src/cli/args.ts:97-104 | a command followed by one such pair has that one flag with that value |
| CliForms.LoneFlagTakesNothing | src/cli/args.ts:87-102 | a boolean flag, a last flag and a flag before a flag are bare, and the tokens behind them are read as if they were not there |
| CliForms.FlagBeforeCommand | src/cli/args.ts:91-104 | a flag in front of the command takes the next token as its value unless the command starts there; then it is bare and that token begins the path |
| CliForms.LastValueWins | src/cli/args.ts:27-39 | the last value of a flag that does not repeat stays; that of one that repeats stands behind the others |
| CliForms.LastBareWins | src/cli/args.ts:112-118 | a flag given last without a value is bare |
| CliForms.RepeatableExactly | src/cli/args.ts:107-110 | the flags that repeat are `label`, `skill` and those the most specific matching spec declares |
| CliArgs.SpecForPathPrefix | src/cli/args.ts:41-59 | the loop finds the most specific spec |
| CliArgs.MostSpecificIsFirstLongest | src/cli/args.ts:41-59 | it is the first of those with the longest path that prefixes the given one, and none only if none matches |
| CliArgs.LongestPrefixIsLongest | src/cli/args.ts:48-54 | the length credited to a spec is that of its longest matching path |
| CliArgs.RenderedParsesBack | src/cli/args.ts:61-120 | path tokens, then `--k=v`, then bare `--k` parse back to the same path and flag map under every registry and command index |
| CliArgs.WalkCollects | src/cli/args.ts:70-105 | no token between them takes a `--name=value` token for its value |
| CliArgs.RepeatedFlagReadsBack | src/cli/flags.ts:69-77 | a repeated flag reads back as the given values in order if and only if none is empty or holds a NUL |
| CliForms.BareIsRefused | src/cli/flags.ts:69-77 | the accessor refuses a flag given last without a value and has no values for one not mentioned |
| EditDistance.Levenshtein | src/shared/edit-distance.ts:1-23 | the two-row loop computes the recursive edit distance |
| EditDistance.FillRow | src/shared/edit-distance.ts:13-17 | one row of the table from the row before |
| EditDistance.NoScriptIsCheaper | src/shared/edit-distance.ts:1-23 | no edit script that turns one string into the other costs less than the distance |
| EditDistance.SomeScriptIsAsCheap | src/shared/edit-distance.ts:1-23 | some edit script costs just that |
| EditDistance.GapIsALowerBound | src/cli/command-suggestion.ts:36-46 | the difference of the lengths never exceeds the distance |
| EditDistance.ZeroMeansEqual | src/cli/command-suggestion.ts:56-56 | distance zero, which the ranking drops, means equal strings |
| CommandSuggestion.DestructiveVerbsOf | src/cli/command-suggestion.ts:21-31 | the last tokens of all paths of destructive specs, as GuardOpensExactly uses them |
| CommandSuggestion.IntendsDestructionPruned | src/cli/command-suggestion.ts:36-46 | true if and only if some destructive verb is within distance 1, the length test notwithstanding |
| CommandSuggestion.SuggestCommands | src/cli/command-suggestion.ts:63-95 | the loops compute the ranking of the distinct candidate labels without any pruning; SuggestionsExactly says which these are |
| CommandSuggestion.SynonymComesFirst | src/cli/command-suggestion.ts:126-128 | the synonym step keeps the order of the ranking and drops only what has no room |
| CommandSuggestion.PruningScoresTheSame | src/cli/command-suggestion.ts:89-91 | the length test removes no candidate that the ranking would keep |
| CommandSuggestion.RankingIsBestThree | src/cli/command-suggestion.ts:54-60 | the ranking is the first three, by distance and label, of the candidates at distance 1 to 3: none twice, none out of order, none better left out |
| CommandSuggestion.CommandSuggestionsAreBest | src/cli/command-suggestion.ts:63-95 | so are the command suggestions |
| CommandOffers.GuardOpensExactly | src/cli/command-suggestion.ts:14-46 | destructive commands are allowed if and only if the last token typed is at most one edit from the last token of a destructive name |
| CommandOffers.CandidatesExactly | src/cli/command-suggestion.ts:71-88 | a label is a candidate if and only if some name of a spec, not hidden and not destructive while the guard is shut, has as many tokens and joins to it, or a single token was typed and it is the name's first |
| CommandOffers.SuggestionsExactly | src/cli/command-suggestion.ts:54-95 | the suggestions are at most three of these at distance one to three, none twice, nearest first and then by name, and a near one is left out only for three that are not farther |
| CommandOffers.FarFromDestruction | src/cli/command-suggestion.ts:65-76 | with the last token two edits or more from the last token of every destructive name, every suggestion is the name of a command neither hidden nor destructive |
| CommandOffers.NearDestruction | src/cli/command-suggestion.ts:65-76 | with it at most one edit from one, every destructive command that is not hidden is a candidate by each of its names |
| CommandSuggestion.SuggestFlags | src/cli/command-suggestion.ts:117-129 | the loop computes the unpruned ranking with the synonym step |
| CommandSuggestion.FlagSuggestionsAreBest | src/cli/command-suggestion.ts:117-129 | distinct valid flags give the best three; for `from` a valid `terminal` comes first, then the best three in their order without it, none dropped while there is room |
| ChunkGraph.CollectReachableChunks | config/build-plugins/plain-node-entry-guard.ts:75-98 | ends on any graph and returns each known chunk reachable by imports once and nothing else |
| ChunkGraph.AssertNoElectronRequire | config/build-plugins/plain-node-entry-guard.ts:100-116 | fails if and only if some reachable chunk requires electron, naming such a chunk |
| ChunkGraph.ClosedIsReachable | config/build-plugins/plain-node-entry-guard.ts:82-96 | when the stack is empty the names seen are exactly those some chain of imports leads to |
| FirstDescendant.Find | native/computer-use-linux/runtime.py:589-609 | on any graph visits at most max_nodes distinct nodes, each the root or a child of an earlier one, and returns the first match among them; a failure below max_nodes has visited the root and every child of a node met above max_depth; where the document order repeats no node the visited nodes are its beginning |
| FirstDescendant.FindInTree | native/computer-use-linux/runtime.py:589-609 | on a tree within the limits it returns what the recursive search returns |
| FirstDescendant.PendingOfFrames | native/computer-use-linux/runtime.py:606-608 | children pushed last to first stand for their subtrees in document order |
| FirstDescendant.SearchIsFirstMatch | native/computer-use-linux/runtime.py:589-609 | the recursive search finds the first match of the document order |
| FirstDescendant.SearchFindsEarliest | native/computer-use-linux/runtime.py:589-609 | the recursive search finds a match if and only if some path of at most max_depth steps down the children leads to one, and then the one at the earliest such path in document order |
| TabCompaction.RenderedLists.FindTabs | native/computer-use-linux/runtime.py:448-452 | the positions of the direct tab lines, in order |
| TabCompaction.RenderedLists.FindInactive | native/computer-use-linux/runtime.py:455-460 | those that are not active |
| TabCompaction.RenderedLists.DeleteLines | native/computer-use-linux/runtime.py:464-474 | deleting from the last to the first removes exactly the inactive lines and collects exactly the indexes they name |
| TabCompaction.RenderedLists.KeepRecords | native/computer-use-linux/runtime.py:477-477 | exactly the records with an omitted index go |
| TabCompaction.RenderedLists.CompactTabs | native/computer-use-linux/runtime.py:447-478 | both lists are unchanged, or one marker with the true count stands at the first tab's position in place of the inactive tabs |
| TabCompaction.KeptInOrder | native/computer-use-linux/runtime.py:467-474 | each line that is not omitted moves up by the number of lines omitted above it |
| TabCompaction.KeptComesFromLines | native/computer-use-linux/runtime.py:467-474 | nothing else is kept |
| TabCompaction.CompactionLength | native/computer-use-linux/runtime.py:474-478 | one line replaces all the inactive tabs |
| TabCompaction.RecordKept | native/computer-use-linux/runtime.py:477-477 | a record survives if and only if no omitted line names its index |
| TabCompaction.RecordsKeptInOrder | native/computer-use-linux/runtime.py:477-477 | each record that is not omitted moves up by the number of records omitted before it |
| TabCompaction.RecordsLeft | native/computer-use-linux/runtime.py:477-477 | as many records are left as were not omitted |
| TabCompaction.InactiveRecordsGo | native/computer-use-linux/runtime.py:455-477 | with distinct record indexes exactly the records of the inactive tabs go |
| TabCompaction.DecimalReadsBack | native/computer-use-linux/runtime.py:520-523 | a printed number reads back as itself |
| TabCompaction.CompactionIsIdempotent | native/computer-use-linux/runtime.py:447-498 | compacting a second time changes nothing: the tabs left are still active by their surviving records, and the marker is no tab |
| TabLines.TabLinesExactly | native/computer-use-linux/runtime.py:481-488 | the tab lines are: indentation, digits, a space, one of the three words in any case, and nothing more of a word |
| TabLines.ActiveExactly | native/computer-use-linux/runtime.py:491-498 | a tab line is active if and only if "(selected" stands somewhere in it or the last record with its number is active |
| TabLines.WhenNothingChanges | native/computer-use-linux/runtime.py:453-463 | with fewer than ten tabs, none active or all active both lists stay as they are |
| TabLines.MarkerStands | native/computer-use-linux/runtime.py:466-478 | otherwise the lines before the first tab stay, and in its place stands the one line with the number of the inactive tabs |
| TabLines.OthersFollow | native/computer-use-linux/runtime.py:467-474 | and behind it every line but the inactive tabs follows in order |
| TrustLocks.WritersNeverOverlap | src/main/agent-trust-presets.ts:176-184 | two writers that write at once have no file in common |
| TrustLocks.FinishedHasWritten | src/main/agent-trust-presets.ts:176-184 | a finished writer has written the files of its list in order, each once, and all of them unless a step of its own threw |
| TrustLocks.StepKeeps | src/main/codex/codex-trust-config-mutation-queue.ts:20-46 | every step keeps each lane to the writers that hold or await its key, each once, the holder first |
| TrustLocks.FirstComeFirstServed | src/main/codex/codex-trust-config-mutation-queue.ts:32-39 | a writer enters a lane only after those ahead of it have been inside |
| TrustLocks.NoDeadlock | src/main/agent-trust-presets.ts:173-184 | with lists ascending in one global order some writer can always go on until all have finished |
| TrustLocks.RunsEnd | src/main/agent-trust-presets.ts:173-184 | every run is bounded, so with such lists every run that goes on as long as it can ends with all writers finished |
| TrustLocks.CommonFirstLockIsEnough | src/main/codex/codex-home-paths.ts:50-56 | lists that all begin with the managed file never deadlock, whatever their order behind it, and all writers finish |
| TrustLocks.CrossedListsDeadlock | src/main/agent-trust-presets.ts:173-184 | two writers with opposite orders can block each other for good |
| TrustCallers.MixExact | src/main/codex/codex-hook-trust-queue.ts:9-16 | launches, hook installers and callers of one lock can get stuck if and only if some account home is both launched with and installed into |
| TrustCallers.UnmixedRunsEnd | src/main/agent-workspace-trust.ts:33-43 | in every other mix every run that goes on as long as it can ends with all callers finished |
| TrustLocks.OverrideRepeatsNothing | src/main/agent-workspace-trust.ts:33-43 | the override keeps the list free of repeats, in order, and adds only its own file |

## Left out

- ActiveViewDelivery.DrainDelivers: says nothing of runs in which a file call fails, where the source promises only a log line.
- ActiveViewSafety.FlushIsNeverUndone: takes a file call at its word, so a rename that reports failure has not landed and a missing file reports ENOENT.
- Promise microtasks: the settling of one writer and the start of the next are one step, and so are the drain's return and its `finally`, except in ActiveViewQuit.JoinReturnedExact.
- WindowsQuoting.SplitUndoesBuild: strings are sequences of Unicode scalars, so lone surrogates are not modelled; the same holds of the other text models.
- AwakeLease.EveryRowIsCovered: assumes an integer clock that never runs backwards and delays below 2^31 ms, and leaves out renewals exactly at the expiry that find no timer in time, which RenewExact covers.
- ActiveViewQuit.QuitExact: speaks of a quit flush that starts a drain or joins a running one; one that joins a drain just returned is ActiveViewQuit.JoinReturnedExact.
- AwakeService.AtMostOneBlocker: assumes that a throwing `start` starts nothing and a false `isStarted` is true to fact; a listener or an assertion that calls back into the service is not modelled.
- CommandSuggestion.FlagSuggestionsAreBest: asks for distinct flags, since `suggestFlags` does not drop repeats; `localeCompare` is any total preorder.
- TabCompaction.RenderedLists.CompactTabs: digits and letter case of the tab pattern are ASCII; with compaction on, indexes are not claimed unique over a whole render, because line 408 numbers by a length that line 477 has shrunk.
- FirstDescendant.FindInTree: a tree is a document order that repeats no node; on other graphs Find states what still holds.
- TrustCallers.MixExact: one managed and one system home; the hook installers' work in the lanes is not modelled beyond its steps, nor the bookkeeping that drops an idle lane from the map.
- Windows branches of `renderCommand` and `quoteCliCommandArgument`: the cmd and PowerShell encoders are not part of this model, and the latter does not double trailing backslashes, so it has no round trip.
- `findCliCommandIndex`, path normalisation and `CODEX_HOME` trimming are parameters.
- `normalizeCommandPositionals`, help paths, flag accessors other than the repeated one, and error reporting: thin validation.
- `runDaemonEntry`, the plugin hooks and the regular expression on chunk code: each chunk carries whether it requires electron.
- AT-SPI, input, clipboard and screenshot code of the accessibility bridge: the tree, its records and lines are inputs.
- Trust-file contents and path canonicalisation: file I/O and appends.
- UI wiring, request builders, formatting and help text: easy members only.
