# Verification of the stoat-and-ferret cores

A Dafny model of the small cores of stoat-and-ferret that hold state, arithmetic or a protocol,
with the properties its code and documentation promise of them. `dafny verify dfyconfig.toml`
checks the whole project.

| file | models |
|---|---|
| `calendar.dfy`, `timestamp_text.dfy` | the build stamp: epoch seconds to a Gregorian date and time in closed form, and its ISO 8601 text |
| `batch_store.dfy`, `batch_poller.dfy`, `batch_poller_proofs.dfy` | the batch job store and the polling hook as a transition system over its refs and its outstanding asynchronous work |
| `journey_runner.dfy`, `journey_runner_proofs.dfy` | the dependency-aware journey scheduler, root causes and exit code |
| `json_values.dfy`, `workspace.dfy`, `workspace_proofs.dfy` | the workspace layout store with its persistence and sanitising reload |
| `shortcuts.dfy`, `shortcuts_proofs.dfy`, `shortcut_spelling.dfy` | the normal form and the parser of shortcut combos, the reserved check, and what of the spelling matters |
| `shortcut_settings.dfy`, `shortcut_settings_proofs.dfy` | editable bindings and their persistence |
| `shortcut_registry.dfy`, `shortcut_dispatch.dfy` | the registry shared by all mounted shortcut hooks, and what its dispatch answers to |
| `video_search.dfy` | the full-text index triggers on `videos` |
| `clip_migrations.dfy`, `clip_migrations_proofs.dfy` | the two table-rebuild migrations of `clips` |
| `filter_escape.dfy` | the filter-text escaper |
| `effect_stack.dfy` | the effect stack and its client ids |
| `license_headers.dfy`, `license_headers_proofs.dfy` | the licence-header writer and checker |

A class stands for each object the source updates in place. Its methods are proved against
functions on a value that holds the whole state (`Step`, `Act`, `Execute`), and the lemmas are about
those functions over every run. Methods that only set fields are proved the same way and have no row
below.

## Where the code and its documentation differ

The model follows the code.

- `useBatchJobs.ts` says polling runs until all jobs are terminal. After a switch of batch, a
  continuation of the old batch can clear the new batch's only timer
  (`BatchPollerProofs.SwitchCanStrand`); `PollingLostExactlyWhen` says exactly which step does it,
  and `IdleUntilMounted` that nothing but a new mount repairs it.
- `settingsStore.ts` says reserved combos must not be rebound. The check reads the first key and
  keeps `meta` apart, the dispatcher reads the last key and takes `meta` for Ctrl, so the check errs
  both ways: a combo with `meta`, or with a free key before a reserved one, slips past
  (`ShortcutsProofs.MetaEvadesTheCheck`, `FirstKeyEvadesTheCheck`), and a free combo whose first key
  is reserved is stopped. `CheckErrsExactlyWhen` says for every string which error, if any, is made,
  and `ShortcutSettingsProofs.KeptComboBindableExactlyWhen` which reserved combos some run can bind.
  Stored bindings are loaded unchecked (`ShortcutSettingsProofs.StoredReservedIsLoaded`).
- `useKeyboardShortcuts.ts` says the first registration wins. A mount gets only what is free when it
  mounts; a combo freed later goes to the next mount, past an earlier one still waiting for it
  (`ShortcutRegistry.FreedComboPassesTheWaiting`). The first live mount that lists a combo owns it
  exactly when no owner of it has unmounted since that mount (`FirstListingOwnsExactlyWhen`).
- `effectStackStore.ts` says rows keep a stable identity across the delete and refetch. A reply sent
  before a delete and landing after it moves ids onto other effects
  (`EffectStack.StaleReplyMovesIds`); `FetchKeepsPrefixExactlyWhen` says when a fetch keeps every id
  on its own effect.
- `add_license_headers.py` says it avoids a double blank line after a Python header; the branch
  builds the same three lines either way, so there are two exactly when the text went on with a
  blank line (`LicenseHeadersProofs.DoubleBlankExactlyWhen`, `LeadingBlankIsDoubled`). It prints
  misplaced headers as modified (`LicenseHeadersProofs.ModifiedCountsMisplaced`). A shebang or
  cookie line without its newline swallows the SPDX line
  (`LicenseHeadersProofs.PyWrittenValidExactlyWhen`).
- `batchStore.ts` says progress never decreases unless the job is re-queued; `addJob` is not guarded
  (`BatchStore.AddOverwritesProgress`).
- `compute_exit_code` documents 0 as every non-pass result being a registered failure; skipped
  journeys are not registered and do not block (`JourneyRunnerProofs.SkipExitsZero`). The exit code
  is as documented exactly when it is not zero or no dependency failed before a journey that lists
  it (`ExitIsAsDocumentedExactlyWhen`).
- The two migrations copy the clips across, and lose some values without saying so. Columns that the
  application's own start-up code may have added before (clip type, generator parameters, source
  asset) are overwritten on the way up, and a missing source video becomes the empty text on the way
  down. `ClipMigrationsProofs.CellKeptExactlyWhen` says which value survives which migration;
  `UpAndDownRestores` and `DownAndUpRestoresExactlyPlain` which rows survive there and back.

## Model

| member | source | states |
|---|---|---|
| `Calendar.YearStartClosedForm` | rust/stoat_ferret_core/build.rs:83-85 | adding up year lengths under the leap rule, forward or backward from 1970, gives the closed day count that the era formula relies on |
| `Calendar.NextDayCounts` | rust/stoat_ferret_core/build.rs:70-92 | in the reference calendar, the next day by the month table is a date whose day number is one more |
| `Calendar.PrevDayCounts` | rust/stoat_ferret_core/build.rs:70-92 | and the preceding day one whose day number is one less |
| `Calendar.StepsUndoEachOther` | rust/stoat_ferret_core/build.rs:70-92 | stepping forward and stepping back undo each other |
| `Calendar.DayNumberOrders` | rust/stoat_ferret_core/build.rs:70-92 | counting days keeps calendar order, so no two valid dates share a day number |
| `Calendar.YearOfEraAt` | rust/stoat_ferret_core/build.rs:84-84 | the division chain for the year of era finds year 100c + 4k + r from each of its days |
| `Calendar.EraIsFloor` | rust/stoat_ferret_core/build.rs:77-82 | the truncating era formula is floor division for negative and non-negative days, and the day of era is in 0..146096, so the unsigned cast is exact |
| `Calendar.LinearMonthIsTable` | rust/stoat_ferret_core/build.rs:87-89 | the linear month formula gives the month starts and lengths of the calendar, from March on, February of a leap year being cut off by the end of the year |
| `Calendar.MarchYearIsCalendarYear` | rust/stoat_ferret_core/build.rs:86-90 | the linear month formula on March-based years names the date with that day number, month lengths and leap day included |
| `Calendar.CivilFromDays` | rust/stoat_ferret_core/build.rs:76-92 | for every day count of an i64 the result is a valid date whose counted day number is the input, with every intermediate in its Rust type (no overflow, no unsigned underflow) |
| `Calendar.EpochToYmdHms` | rust/stoat_ferret_core/build.rs:69-93 | for every i64 second count the result is a valid date and time whose counted second number is the input |
| `Calendar.EpochIsABijection` | rust/stoat_ferret_core/build.rs:69-93 | a valid date-time is the image of a second count exactly when that count is its second number, so of exactly one |
| `Calendar.AddOneDay` | rust/stoat_ferret_core/build.rs:69-93 | adding 86400 seconds moves to the calendar's next day and leaves the time of day |
| `Calendar.ClosedFormIsWalking` | rust/stoat_ferret_core/build.rs:69-93 | the closed form gives the date reached by walking day by day from 1970-01-01, in either direction |
| `Calendar.CastKeepsBits` | rust/stoat_ferret_core/build.rs:57-65 | the cast of the clock to i64 keeps its value modulo 2^64 |
| `TimestampText.ParseUndoesFormat` | rust/stoat_ferret_core/build.rs:64-64 | a printed date-time of a four-digit year reads back as itself |
| `TimestampText.FormatUndoesParse` | rust/stoat_ferret_core/build.rs:64-64 | every text the fixed-width reader accepts is what the printer prints for the value read |
| `TimestampText.StringOrderIsTimeOrder` | rust/stoat_ferret_core/build.rs:64-64 | for four-digit years string order is time order, both ways |
| `TimestampText.StampFaithful` | rust/stoat_ferret_core/build.rs:57-65 | until the end of year 9999 the stamp has 20 characters and reads back to the clock's second count |
| `TimestampText.StampsSort` | rust/stoat_ferret_core/build.rs:57-65 | and two stamps sort as their clocks do |
| `TimestampText.StampReadsBackExactlyWhen` | rust/stoat_ferret_core/build.rs:57-65 | for every u64 clock, the wrap of the cast to i64 included, the stamp reads back exactly up to second 253402300799; after that, short of the wrap, it does not read at all |
| `TimestampText.FormatIntReads` | rust/stoat_ferret_core/build.rs:64-64 | any integer prints as a minus sign if negative and digits that read as its size, zero-padded just to the width |
| `TimestampText.FormatOfAnyYear` | rust/stoat_ferret_core/build.rs:64-64 | whatever the year, the text is the year's followed by what the same instant of year 2000 prints after its own |
| `BatchStore.Store.AddJob` | gui/src/stores/batchStore.ts:62-73 | replaces the record of the same id in place, or appends |
| `BatchStore.Store.UpdateJob` | gui/src/stores/batchStore.ts:75-97 | merges the patch into the first record of that id under the progress guard, or changes nothing |
| `BatchStore.ApplyKeepsIdsUnique` | gui/src/stores/batchStore.ts:62-106 | no action ever stores two jobs under one id |
| `BatchStore.UpdateIsLocalAndMonotone` | gui/src/stores/batchStore.ts:75-97 | a patch writes only its fields of only its job, and progress falls only when the job ends up queued |
| `BatchStore.AddOverwritesProgress` | gui/src/stores/batchStore.ts:62-73 | re-adding a job lowers its progress exactly when the incoming record is lower, whatever its status |
| `BatchStore.AddReplacesOrAppends` | gui/src/stores/batchStore.ts:62-73 | adding a job puts its record where the one of its id stood, or at the end, and moves no other |
| `BatchStore.RemoveIsSplice` | gui/src/stores/batchStore.ts:99-106 | removing a job takes its record out and moves no other; a reset empties the list |
| `BatchPoller.Hook.FlushQueue` | gui/src/hooks/useBatchJobs.ts:89-103 | empties the queue into the store, row by row in order, and clears the scheduled flag |
| `BatchPoller.Hook.QueueUpdates` | gui/src/hooks/useBatchJobs.ts:105-115 | appends the rows and schedules one flush if none is scheduled; no rows, no effect |
| `BatchPoller.Hook.ComputeAllJobsTerminal` | gui/src/hooks/useBatchJobs.ts:117-123 | true exactly when the batch has a job and all of its jobs are terminal |
| `BatchPoller.Hook.PollOnce` | gui/src/hooks/useBatchJobs.ts:125-130 | sends a request unless cancelled or one is in flight, in which case its continuation is ready at once |
| `BatchPoller.Hook.SettleRequest` | gui/src/hooks/useBatchJobs.ts:130-150 | a settled request is heard only if not cancelled and its batch is active; then rows or an error count; always releases the polling flag |
| `BatchPoller.Hook.FireTimer` | gui/src/hooks/useBatchJobs.ts:154-163 | a fired timer polls its own batch unless cancelled or finished |
| `BatchPoller.Hook.RunContinuation` | gui/src/hooks/useBatchJobs.ts:157-161 | after a poll, schedules the next one for its own batch with the current backoff unless cancelled or finished |
| `BatchPoller.Hook.MountEffect` | gui/src/hooks/useBatchJobs.ts:165-177 | activates the batch, clears cancellation and errors, and polls at once |
| `BatchPoller.Hook.Cleanup` | gui/src/hooks/useBatchJobs.ts:179-185 | cancels and disarms the timer held |
| `BatchPollerProofs.RunKeepsInvariant` | gui/src/hooks/useBatchJobs.ts:80-192 | over all runs of mounts, unmounts, replies, continuations, timers, flushes and store actions: one request at most, one armed timer at most, one flush at most, a non-empty queue has one coming, rows in the store plus the queue are the accepted rows in order, flags match the error count |
| `BatchPollerProofs.ReplyHeardWhenMounted` | gui/src/hooks/useBatchJobs.ts:135-147 | in every reachable state a reply changes rows or errors exactly when its batch is the one mounted now |
| `BatchPollerProofs.SettleReleases` | gui/src/hooks/useBatchJobs.ts:130-150 | a settled request is over and its continuation ready, whatever it brought; timers, store and lifecycle stand |
| `BatchPollerProofs.FireSends` | gui/src/hooks/useBatchJobs.ts:152-163 | in every reachable state a fired timer is gone and its batch is polled, unless it is finished: it has a job and none is queued or running |
| `BatchPollerProofs.ContinueArms` | gui/src/hooks/useBatchJobs.ts:157-161 | in every reachable state a continuation of an unfinished batch leaves exactly one timer, for that batch, with the delay the errors call for; otherwise it arms none |
| `BatchPollerProofs.MountStarts` | gui/src/hooks/useBatchJobs.ts:165-177 | a mount makes the batch active, clears the errors, and polls it: a request, or a ready continuation if one is out |
| `BatchPollerProofs.UnmountAndRefresh` | gui/src/hooks/useBatchJobs.ts:179-192 | an unmount cancels and disarms, a refresh clears the errors, and neither does anything else |
| `BatchPollerProofs.ErrorsAreFailuresInARow` | gui/src/hooks/useBatchJobs.ts:125-192 | over every run the error count is the number of failures heard in a row since the last mount, refresh or heard reply, with one flag from the first and the other from the second |
| `BatchPollerProofs.UnmountIsQuiet` | gui/src/hooks/useBatchJobs.ts:179-185 | from an unmount to the next mount no timer is armed and no row accepted; the requests out are those that were out, or none; the error state stands, or is cleared |
| `BatchPollerProofs.CoercionReadsNames` | gui/src/hooks/useBatchJobs.ts:34-45 | each status is read from its own spelling; every other raw status becomes queued |
| `BatchPollerProofs.RowsNeverRegress` | gui/src/hooks/useBatchJobs.ts:89-103 | flushing rows that never requeue a job leaves its progress at least where it was and where each row put it |
| `BatchPollerProofs.StoredFromLastRow` | gui/src/hooks/useBatchJobs.ts:89-103 | after rows are stored each job has the error of the last row that names it, the status that row's string spells (queued if none), the progress its rows lead to, and everything else as it was; a job no row names is untouched |
| `BatchPollerProofs.PollingNeverRegresses` | gui/src/hooks/useBatchJobs.ts:89-150 | over any stretch of a run without interface actions a job's progress falls only if a row not yet flushed at its start reports it queued or with an unknown status |
| `BatchPollerProofs.BackoffSchedule` | gui/src/hooks/useBatchJobs.ts:48-52 | delays start at one second, double from the second error, never fall as errors grow, and sit at the cap exactly from the fifth error on |
| `BatchPollerProofs.PollingLostExactlyWhen` | gui/src/hooks/useBatchJobs.ts:152-177 | for a mounted unfinished batch with work outstanding, a step leaves it with none exactly when it is another unfinished batch's continuation run while the mounted batch has only its timer |
| `BatchPollerProofs.SwitchCanStrand` | gui/src/hooks/useBatchJobs.ts:152-186 | for any two batches there is a run that switches between them and leaves the second mounted, unfinished and without any work, now and in every continuation that does not mount it again |
| `BatchPollerProofs.IdleUntilMounted` | gui/src/hooks/useBatchJobs.ts:125-177 | a batch without work outstanding gets none in any continuation of the run that does not mount it |
| `BatchPollerProofs.OneBatchKeepsPolling` | gui/src/hooks/useBatchJobs.ts:152-186 | if no mount names another batch, a mounted batch has work outstanding unless its jobs were all terminal at some point |
| `JourneyRunner.ShouldSkipJourney` | scripts/uat_runner.py:569-587 | the first listed dependency that failed or was skipped, with which of the two, or none exactly when no dependency is bad |
| `JourneyRunner.ExecuteJourneys` | scripts/uat_runner.py:722-774 | the loop over journeys with its failed and skipped sets yields the results of the run, one per journey in order |
| `JourneyRunner.FindRootCauses` | scripts/uat_runner.py:898-918 | the failed journeys without a failed or skipped dependency, sorted |
| `JourneyRunner.ComputeExitCode` | scripts/uat_runner.py:217-241 | zero exactly when no result is an unregistered failure or not implemented |
| `JourneyRunner.SortedSorts` | scripts/uat_runner.py:918-918 | sorting is an ascending permutation |
| `JourneyRunnerProofs.SkippedIffBlocked` | scripts/uat_runner.py:569-587 | a journey is skipped exactly when an earlier dependency failed or was skipped, and otherwise reports what running it reports |
| `JourneyRunnerProofs.ReasonNamesFirstBadDep` | scripts/uat_runner.py:569-587 | a skipped journey names the first of its listed dependencies that failed or was skipped before it, and says which; one that ran gives no reason |
| `JourneyRunnerProofs.SkippedIffBackwardChain` | scripts/uat_runner.py:722-774 | for any dependency map, cyclic or not, and any list, repeated or not, a journey is skipped exactly when a chain of ever earlier dependencies leads to one that ran and failed |
| `JourneyRunnerProofs.SkippedIffReachesFailure` | scripts/uat_runner.py:722-774 | with distinct journeys and dependencies first, skipped is exactly transitive reachability of a failure within the run |
| `JourneyRunnerProofs.RootCausesAreAllFailuresExactlyWhen` | scripts/uat_runner.py:898-918 | the root causes are all the failures exactly when no failed journey precedes a dependency that went bad |
| `JourneyRunnerProofs.RootCausesAre` | scripts/uat_runner.py:898-918 | among any results the root causes are, ascending, exactly the failed journeys none of whose dependencies failed or was skipped, each as often as it failed |
| `JourneyRunnerProofs.RootCausesWhenDepsFirst` | scripts/uat_runner.py:898-918 | with dependencies first the root causes are exactly the failed ids, sorted |
| `JourneyRunnerProofs.ZeroExitExplainsSkips` | scripts/uat_runner.py:217-241 | a zero exit gives every skipped journey a dependency chain to a registered known failure |
| `JourneyRunnerProofs.ZeroExitIffRootCausesKnown` | scripts/uat_runner.py:217-241 | with dependencies first the exit is zero exactly when every root cause is registered and nothing run is unimplemented |
| `JourneyRunnerProofs.ExitIsAsDocumentedExactlyWhen` | scripts/uat_runner.py:217-241 | for every graph and run, exit 0 coincides with every result being passed or a registered failure exactly when the exit is not 0 or no dependency failed before a journey that lists it |
| `JourneyRunnerProofs.SkipExitsZero` | scripts/uat_runner.py:217-241 | a run of two journeys that exits 0 although one is skipped |
| `JourneyRunnerProofs.RunsListDepsFirst` | scripts/uat_runner.py:548-566 | on a graph numbered upward, every run the CLI can ask for is distinct and lists dependencies first |
| `JourneyRunnerProofs.FullRunIsTheTable` | scripts/uat_runner.py:548-566 | a run of all journeys holds exactly the ids the table lists, in ascending order, each once if its key is |
| `JourneyRunnerProofs.NamedRunExactlyWhen` | scripts/uat_runner.py:557-565 | a named journey runs alone exactly when the table lists it, and is refused otherwise |
| `JourneyRunnerProofs.DepsAreTheEntrys` | scripts/uat_runner.py:569-587 | the dependencies looked up for a listed journey are those of its entry |
| `JourneyRunnerProofs.UnlistedHasNoDeps` | scripts/uat_runner.py:569-587 | and those of a journey not listed are none |
| `JourneyRunnerProofs.ShippedGraphIsSound` | scripts/uat_runner.py:51-79 | the shipped table numbers every journey above its dependencies and has distinct keys |
| `JourneyRunnerProofs.CliRunsAreExact` | scripts/uat_runner.py:548-774 | any CLI run on such a graph skips by reachability and reports every failure as a root cause |
| `Workspace.Store.LoadPanelSizes` | gui/src/stores/workspaceStore.ts:238-245 | keeps, over a base, exactly the entries that name a panel with a finite size in 0..100 |
| `Workspace.Store.LoadPanelVisibility` | gui/src/stores/workspaceStore.ts:247-254 | keeps exactly the entries that name a panel with a boolean |
| `Workspace.Store.SanitizeSizesByPreset` | gui/src/stores/workspaceStore.ts:221-236 | keeps exactly the named presets with at least one accepted size |
| `Workspace.Store.LoadWorkspaceState` | gui/src/stores/workspaceStore.ts:260-289 | the layout read from stored content, with defaults for each part that is missing or malformed |
| `Workspace.Store.ComputePresetSizes` | gui/src/stores/workspaceStore.ts:317-324 | the preset's sizes under its in-range overrides |
| `Workspace.Store.ChoosePreset` | gui/src/stores/workspaceStore.ts:331-350 | new layout and stored content of a preset choice; throws exactly on an unknown name |
| `Workspace.Store.Resize` | gui/src/stores/workspaceStore.ts:366-387 | an accepted resize sets the panel, becomes custom, and records the override under the anchor; a rejected one changes nothing |
| `WorkspaceProofs.ActKeepsValid` | gui/src/stores/workspaceStore.ts:331-392 | every action keeps sizes in range and override maps non-empty |
| `WorkspaceProofs.AcceptedExactlyWhen` | gui/src/stores/workspaceStore.ts:331-392 | an action does something exactly when its preset or panel is one of the known names and its size a number from 0 to 100 |
| `WorkspaceProofs.WrittenExactlyWhen` | gui/src/stores/workspaceStore.ts:291-305 | storage changes only by an accepted action with storage available: a reset clears it, choosing custom again leaves it, any other leaves what loads as the new layout |
| `WorkspaceProofs.PresetTablesAgree` | gui/src/stores/workspaceStore.ts:70-122 | in each named preset the sizes add up to 100 and exactly the panels with a size are visible |
| `WorkspaceProofs.FirstRunShowsPreview` | gui/src/stores/workspaceStore.ts:125-149 | at first exactly the preview is visible, and only it has the full size |
| `WorkspaceProofs.LoadIsFieldwise` | gui/src/stores/workspaceStore.ts:221-289 | from any stored value, each size, visibility and override loaded is the acceptable value stored last under its names, or its default |
| `WorkspaceProofs.LoadedLabels` | gui/src/stores/workspaceStore.ts:260-289 | from any stored value the preset loaded is the known one named, or edit; the anchor the named preset stored for it, or the preset's own, or edit; and what is no object or array loads the initial layout |
| `WorkspaceProofs.LoadIsValid` | gui/src/stores/workspaceStore.ts:221-289 | whatever is stored, loading yields such a layout |
| `WorkspaceProofs.LoadUndoesSave` | gui/src/stores/workspaceStore.ts:260-305 | loading what was saved gives back the layout |
| `WorkspaceProofs.LoadSaveLoad` | gui/src/stores/workspaceStore.ts:260-305 | on arbitrary stored content load-save-load is load |
| `WorkspaceProofs.ReloadIsInvisible` | gui/src/stores/workspaceStore.ts:326-393 | with storage available, after any run of actions from any stored content, reloading gives exactly the layout in memory |
| `WorkspaceProofs.OverridesAreLastResizes` | gui/src/stores/workspaceStore.ts:366-387 | the overrides of a preset are exactly the last accepted resizes made since the last reset while it was the anchor |
| `WorkspaceProofs.ChoosingShowsOverlay` | gui/src/stores/workspaceStore.ts:331-350 | after any run, choosing a preset shows per panel its last such resize or its canonical size |
| `WorkspaceProofs.ShownIsAnchorOverlay` | gui/src/stores/workspaceStore.ts:317-392 | once a named preset has been chosen since the last reset, the sizes shown are always the anchor's overlay |
| `WorkspaceProofs.ShownBeforeChoosing` | gui/src/stores/workspaceStore.ts:366-392 | until then they are the first-run defaults under the resizes made |
| `WorkspaceProofs.VisibleIsBaseFlipped` | gui/src/stores/workspaceStore.ts:331-364 | a panel is visible as its preset says, flipped once per toggle since the preset was chosen |
| `WorkspaceProofs.LabelIsLastChosen` | gui/src/stores/workspaceStore.ts:331-392 | over every run the preset label is the one last chosen, custom after an accepted resize, edit after a reset |
| `Shortcuts.ComputeParse` | gui/src/hooks/useKeyboardShortcuts.ts:48-64 | reads modifiers and the last key token by token |
| `ShortcutsProofs.SplitUndoesJoin` | gui/src/stores/settingsStore.ts:57-82 | tokens without a plus sign survive joining and splitting |
| `ShortcutsProofs.SortIsStable` | gui/src/stores/settingsStore.ts:71-71 | the modifier sort keeps each rank's members in their original order |
| `ShortcutsProofs.SortAscends` | gui/src/stores/settingsStore.ts:71-71 | the modifier sort is ascending by rank |
| `ShortcutsProofs.NormalizeIsIdempotent` | gui/src/stores/settingsStore.ts:57-82 | normalising twice is normalising once, for every string |
| `ShortcutSpelling.CaseIsIgnored` | gui/src/stores/settingsStore.ts:57-86 | combos equal but for the case of letters have the same tokens, normal form, parse and verdict |
| `ShortcutSpelling.TokensAreLower` | gui/src/stores/settingsStore.ts:60-60 | no token has a capital letter |
| `ShortcutSpelling.BlanksAreIgnored` | gui/src/stores/settingsStore.ts:57-62 | spaces, tabs and line breaks around the pieces of a combo do not matter |
| `ShortcutSpelling.ParsedFlags` | gui/src/hooks/useKeyboardShortcuts.ts:48-64 | the parser's flags are set exactly by the names ctrl, control, cmd, meta, alt, option and shift, wherever they stand |
| `ShortcutSpelling.ParsedKey` | gui/src/hooks/useKeyboardShortcuts.ts:48-64 | its key is the last token that is none of these names |
| `ShortcutSpelling.FirstKeyAt` | gui/src/stores/settingsStore.ts:57-82 | the key of the normal form is the first non-empty token that is none of these names |
| `ShortcutSpelling.NormalFormReads` | gui/src/stores/settingsStore.ts:57-82 | the normal form of a combo with a key lists the modifiers that occur, each once, by rank and then by first occurrence, and the key |
| `ShortcutsProofs.NormalizeMeansParseExactlyWhen` | gui/src/stores/settingsStore.ts:57-82 | the normal form is the rendering of what the parser understood exactly when no token is meta, the first key token is the last key token (an empty piece counting as a key), and a combo without a key repeats no modifier |
| `ShortcutsProofs.SameNormalFormIffSameMeaning` | gui/src/stores/settingsStore.ts:57-82 | on such combos two normal forms are equal exactly when the parses are |
| `ShortcutsProofs.ReservedExactlyWhen` | gui/src/stores/settingsStore.ts:84-86 | for every string the reserved check fires exactly when no token is meta and the modifiers with the first key mean a reserved combo |
| `ShortcutsProofs.CheckErrsExactlyWhen` | gui/src/stores/settingsStore.ts:84-86 | for every string: a combo the dispatcher reads as reserved is accepted exactly when its last key is reserved under its modifiers and it has meta or a first key that is not; a combo read as free is stopped exactly when it has no meta and only its first key is reserved |
| `ShortcutsProofs.ReservedByMeaningExactlyWhen` | gui/src/stores/settingsStore.ts:84-86 | so the check is decided by meaning, not spelling, exactly on the other strings |
| `ShortcutsProofs.AgreeableIsDecidedByMeaning` | gui/src/stores/settingsStore.ts:84-86 | among them all combos on which normal form and parser agree |
| `ShortcutsProofs.MetaEvadesTheCheck` | gui/src/stores/settingsStore.ts:84-86 | every reserved Ctrl or Ctrl+Shift combo has a Meta spelling that parses the same and is not stopped |
| `ShortcutsProofs.FirstKeyEvadesTheCheck` | gui/src/hooks/useKeyboardShortcuts.ts:48-64 | under any modifiers, a free key before a reserved one gives a combo read as reserved and accepted; the reserved key first gives one read as free, and stopped unless it has meta |
| `ShortcutDispatch.ReadsReservedIffMatchesReserved` | gui/src/hooks/useKeyboardShortcuts.ts:66-77 | a combo reads as reserved exactly when the dispatcher answers it to some key event the browser keeps, the lenient test of Shift included |
| `ShortcutSettings.Store.LoadShortcuts` | gui/src/stores/settingsStore.ts:109-126 | the defaults overlaid with the non-empty strings stored for registered actions |
| `ShortcutSettings.Store.Update` | gui/src/stores/settingsStore.ts:171-185 | rebinds and saves, or reports which of the three checks failed and changes nothing |
| `ShortcutSettingsProofs.UpdateAnswers` | gui/src/stores/settingsStore.ts:171-191 | an update answers with the first check that fails and changes nothing, or rebinds that action alone; blank means spaces, tabs and line breaks only |
| `ShortcutSettingsProofs.WrittenExactlyWhen` | gui/src/stores/settingsStore.ts:171-191 | a rejected update writes nothing, a reset clears storage, an accepted update leaves what loads as the new bindings |
| `ShortcutSettings.LoadIsFieldwise` | gui/src/stores/settingsStore.ts:109-126 | whatever is stored, each action loads the non-empty string stored last under its name, or its default |
| `ShortcutSettings.LoadIsValid` | gui/src/stores/settingsStore.ts:109-126 | whatever is stored, exactly the registered actions are bound, none to the empty string |
| `ShortcutSettings.ReloadIsInvisible` | gui/src/stores/settingsStore.ts:109-191 | after any run of updates and resets, reloading gives the bindings in memory |
| `ShortcutSettings.ReservedOnlyFromStorage` | gui/src/stores/settingsStore.ts:171-191 | a binding is one the check would stop exactly when storage held it so and nothing has rebound it since |
| `ShortcutSettingsProofs.ShippedDefaultsAreFree` | gui/src/stores/settingsStore.ts:21-26 | no shipped default is reserved, by spelling or as the dispatcher reads it |
| `ShortcutSettingsProofs.NeverReservedFromDefaults` | gui/src/stores/settingsStore.ts:171-191 | from free defaults no run ever binds a combo the check stops |
| `ShortcutSettingsProofs.BindableExactlyWhen` | gui/src/stores/settingsStore.ts:171-191 | some run binds a combo to an action exactly when it is the one found at the start, the default, or neither blank nor reserved |
| `ShortcutSettingsProofs.ReadsReservedExactlyWhen` | gui/src/stores/settingsStore.ts:171-191 | after any run an action answers to a combo the dispatcher reads as reserved exactly when it did at the start and nothing has rebound it, or the last update accepted for it slipped past the check |
| `ShortcutSettingsProofs.KeptComboBindableExactlyWhen` | gui/src/stores/settingsStore.ts:171-191 | of the combos read as reserved, other than the one found at the start and the default, some run binds exactly those whose tokens slip past the check |
| `ShortcutSettingsProofs.StoredReservedIsLoaded` | gui/src/stores/settingsStore.ts:117-121 | a reserved combo stored for a registered action is loaded as it is |
| `ShortcutRegistry.Registry.MountEffect` | gui/src/hooks/useKeyboardShortcuts.ts:116-130 | adds, in order, the first binding of each combo not yet registered, and remembers which it added |
| `ShortcutRegistry.Registry.Cleanup` | gui/src/hooks/useKeyboardShortcuts.ts:131-133 | deletes the combos this mount added |
| `ShortcutRegistry.Registry.HandleKeyDown` | gui/src/hooks/useKeyboardShortcuts.ts:66-93 | fires the first registered match and no other, and none for a form control |
| `ShortcutRegistry.MatchesExactlyWhen` | gui/src/hooks/useKeyboardShortcuts.ts:66-77 | an event matches exactly the combo held down and that combo without Shift |
| `ShortcutRegistry.EntriesInOrder` | gui/src/hooks/useKeyboardShortcuts.ts:115-135 | over every run the registry holds its entries by the time their mounts mounted and then in the order of their bindings |
| `ShortcutRegistry.FirstRegisteredFires` | gui/src/hooks/useKeyboardShortcuts.ts:84-93 | of the registered bindings that match a key event, the one that fires was registered before all others |
| `ShortcutRegistry.RunKeepsOwnership` | gui/src/hooks/useKeyboardShortcuts.ts:115-135 | over every interleaving of mounts and unmounts combos are distinct, each owned by exactly one live mount and bound to that mount's first binding of it |
| `ShortcutRegistry.UnmountRemovesOnlyItsOwn` | gui/src/hooks/useKeyboardShortcuts.ts:131-133 | an unmount removes exactly its own combos and no other mount's |
| `ShortcutRegistry.MountOwnsWhatIsFree` | gui/src/hooks/useKeyboardShortcuts.ts:119-130 | a mount gets exactly those of its combos that no live mount owns |
| `ShortcutRegistry.FirstListingOwnsExactlyWhen` | gui/src/hooks/useKeyboardShortcuts.ts:115-135 | over every run, of the live mounts that list a combo the first one mounted owns it exactly when no mount owning the combo has unmounted since it mounted |
| `ShortcutRegistry.SomeMountIsFirst` | gui/src/hooks/useKeyboardShortcuts.ts:115-135 | whenever a live mount lists a combo there is such a first one |
| `ShortcutRegistry.LeaveKillsExactlyWhen` | gui/src/hooks/useKeyboardShortcuts.ts:131-133 | an unmount leaves a combo unregistered while a live mount still lists it exactly when the leaving mount owned it, or no one did, and another live mount lists it |
| `ShortcutRegistry.FreedComboPassesTheWaiting` | gui/src/hooks/useKeyboardShortcuts.ts:115-135 | a run in which a freed combo goes to a later mount while an earlier live one that lists it stays without |
| `VideoSearch.Connection.InsertRow` | alembic/versions/c3687b3b7a6a_initial_schema.py:27-64 | inserts row and postings, or nothing on a constraint violation |
| `VideoSearch.Connection.DeleteWhere` | alembic/versions/c3687b3b7a6a_initial_schema.py:67-72 | deletes rows one by one with their postings |
| `VideoSearch.Connection.UpdateWhere` | alembic/versions/c3687b3b7a6a_initial_schema.py:75-82 | updates rows one by one with both trigger statements, or restores rows and index on a constraint violation |
| `VideoSearch.RunKeepsIndexInStep` | alembic/versions/c3687b3b7a6a_initial_schema.py:48-82 | after any run of statements, committed or rolled back, each posting of the current rows is indexed exactly once and no other posting is |
| `VideoSearch.TableIsAsWithoutTriggers` | alembic/versions/c3687b3b7a6a_initial_schema.py:27-82 | after any run the table holds what the same statements leave in a table without triggers |
| `VideoSearch.RunKeepsUnique` | alembic/versions/c3687b3b7a6a_initial_schema.py:27-45 | no two rows ever share an id or a path |
| `VideoSearch.SearchIsScan` | alembic/versions/c3687b3b7a6a_initial_schema.py:48-82 | a token search through the index returns the rows a scan of the table returns, column by column |
| `ClipMigrations.Database.SelectParts` | alembic/versions/a8516edf859e_generator_clips.py:57-59 | the append loop yields the base columns, then each optional column or NULL |
| `ClipMigrations.Database.InsertSelect` | alembic/versions/a8516edf859e_generator_clips.py:87-92 | builds every row by position, or fails on a missing column or a forbidden NULL |
| `ClipMigrations.Database.UpgradeGeneratorClips` | alembic/versions/a8516edf859e_generator_clips.py:42-96 | the rebuilt table, or no change on failure |
| `ClipMigrations.Database.DowngradeGeneratorClips` | alembic/versions/a8516edf859e_generator_clips.py:101-154 | the rebuilt table, or no change on failure |
| `ClipMigrations.Database.UpgradeSourceAsset` | alembic/versions/i1b2c3d4e5f6_add_source_asset_id_to_clips.py:36-101 | the rebuilt table, or no change on failure |
| `ClipMigrations.Database.DowngradeSourceAsset` | alembic/versions/i1b2c3d4e5f6_add_source_asset_id_to_clips.py:110-171 | the rebuilt table, or no change on failure |
| `ClipMigrations.ListsPairByName` | alembic/versions/a8516edf859e_generator_clips.py:46-62 | in all four migrations, for any set of existing columns, every insert column meets by position the select item of the same name |
| `ClipMigrations.ListsAreSchemas` | alembic/versions/i1b2c3d4e5f6_add_source_asset_id_to_clips.py:70-90 | each insert list names exactly the columns of the table created |
| `ClipMigrationsProofs.SucceedsExactlyWhen` | alembic/versions/a8516edf859e_generator_clips.py:42-92 | each migration succeeds exactly when the table has the columns it reads unconditionally and a value in each that the target declares NOT NULL; otherwise it changes nothing |
| `ClipMigrationsProofs.MigrationCarries` | alembic/versions/a8516edf859e_generator_clips.py:42-92 | on such a table it keeps the rows in order, fills each column from the one of its name or NULL, and meets the NOT NULL columns |
| `ClipMigrationsProofs.CellKeptExactlyWhen` | alembic/versions/i1b2c3d4e5f6_add_source_asset_id_to_clips.py:37-97 | on any such table a value survives a migration exactly when the target has its column and the migration does not overwrite it with another: a source asset already there survives the upgrade only as NULL |
| `ClipMigrationsProofs.UpAndDownRestores` | alembic/versions/i1b2c3d4e5f6_add_source_asset_id_to_clips.py:30-173 | up through both migrations and down through both, whatever optional columns there were, restores the value of every column of the old schema, absent ones as NULL and a missing source video as the empty text; a row comes back whole exactly when it had only columns of the old schema and a source video |
| `ClipMigrationsProofs.DownAndUpRestoresExactlyPlain` | alembic/versions/a8516edf859e_generator_clips.py:101-154 | down through both and up again restores exactly the file clips that have a source video, no generator parameters and no asset |
| `FilterEscape.PyEscapeFilterText` | benchmarks/bench_filter_escape.py:30-45 | the loop's result is the character-by-character escape |
| `FilterEscape.EscapeDistributes` | benchmarks/bench_filter_escape.py:30-45 | escaping distributes over concatenation |
| `FilterEscape.DecodeUndoesEscape` | benchmarks/bench_filter_escape.py:18-45 | a left-to-right decoder undoes escaping on every string |
| `FilterEscape.EscapeIffDecode` | benchmarks/bench_filter_escape.py:18-45 | a text is the escape of a string exactly when it decodes to it, so the code is uniquely decodable |
| `FilterEscape.EscapedIsGuarded` | benchmarks/bench_filter_escape.py:18-45 | every colon, bracket and semicolon of escaped text follows a maximal backslash run of odd length |
| `FilterEscape.EscapedIsOneLine` | benchmarks/bench_filter_escape.py:25-26 | escaped text has no line break |
| `FilterEscape.EscapeAddsJust` | benchmarks/bench_filter_escape.py:18-45 | escaping adds three characters for an apostrophe, one for each other coded character, and nothing to any other text |
| `EffectStack.Store.FinishFetch` | gui/src/stores/effectStackStore.ts:53-76 | installs the fetched effects with ids kept and fresh ids appended, or all fresh when the list shrank |
| `EffectStack.RunKeepsLockstep` | gui/src/stores/effectStackStore.ts:37-114 | under every interleaving of actions and late replies ids and effects have one length and ids are pairwise distinct |
| `EffectStack.RunShows` | gui/src/stores/effectStackStore.ts:37-114 | over every interleaving the selection, the error and the loading flag are what the events leave |
| `EffectStack.RunShowsEffects` | gui/src/stores/effectStackStore.ts:37-114 | and the effects shown are those last fetched less the indices deleted since, none after a selection or reset |
| `EffectStack.DeleteKeepsSurvivors` | gui/src/stores/effectStackStore.ts:85-104 | a finished delete keeps every survivor with its own id and effect, in order |
| `EffectStack.FetchKeepsPrefixExactlyWhen` | gui/src/stores/effectStackStore.ts:59-71 | a fetch keeps the whole id list as a prefix exactly when it does not shrink the list, and keeps no id otherwise; it keeps every id on its own effect exactly when the effects shown are a prefix of those found |
| `EffectStack.StaleReplyMovesIds` | gui/src/stores/effectStackStore.ts:15-20 | a run in which the reply of a fetch sent before a delete lands after it and puts the survivor's id on another effect |
| `EffectStack.IdsAreNeverReused` | gui/src/stores/effectStackStore.ts:50-83 | an id once dropped never comes back |
| `LicenseHeaders.ComputeInsertPyHeader` | scripts/add_license_headers.py:113-129 | the three header lines are put after an optional shebang and cookie, in both branches |
| `LicenseHeaders.Tree.ProcessFile` | scripts/add_license_headers.py:141-179 | reports a correct header, writes only a missing one in write mode, and refuses a file outside the root |
| `LicenseHeaders.Tree.RunWrite` | scripts/add_license_headers.py:182-191 | writes file by file up to the first refusal and counts the files that were not correct |
| `LicenseHeaders.Tree.RunCheck` | scripts/add_license_headers.py:194-208 | reports exactly the files that are not correct, once each and in order, exit 1 when there are any, and changes none |
| `LicenseHeadersProofs.PyInsertionUndone` | scripts/add_license_headers.py:113-129 | with the kept lines terminated, deleting the three inserted lines restores the text |
| `LicenseHeadersProofs.PyKeepsPreamble` | scripts/add_license_headers.py:113-129 | a `#!` line that starts the text stays first, a `# -*- coding` line after or without it stays above the header, and the rest follows it unchanged |
| `LicenseHeadersProofs.PyWrittenValidExactlyWhen` | scripts/add_license_headers.py:87-129 | a written Python header passes the check exactly when the lines kept above it end in newlines |
| `LicenseHeadersProofs.DoubleBlankExactlyWhen` | scripts/add_license_headers.py:113-129 | for every text, the blank line put after a Python header is followed by another exactly when the text went on with a blank line there |
| `LicenseHeadersProofs.LeadingBlankIsDoubled` | scripts/add_license_headers.py:123-127 | a text that starts with a blank line gets two after its header |
| `LicenseHeadersProofs.RsWrittenValid` | scripts/add_license_headers.py:106-138 | a written Rust header always passes |
| `LicenseHeadersProofs.RsTextKept` | scripts/add_license_headers.py:132-138 | the text is kept below a written Rust header, after exactly one blank line more if it did not start with one |
| `LicenseHeadersProofs.RsValidExactlyWhen` | scripts/add_license_headers.py:106-110 | a Rust header is valid exactly when the text starts with its two lines |
| `LicenseHeadersProofs.PresentExactlyWhen` | scripts/add_license_headers.py:82-84 | a header counts as present exactly when the marker stands in the text with fewer than five newlines before it |
| `LicenseHeadersProofs.RsInsertionCollides` | scripts/add_license_headers.py:132-138 | two Rust texts get the same result exactly when they are equal up to one leading newline that one lacks |
| `LicenseHeadersProofs.ShippedStylesAreProper` | scripts/add_license_headers.py:27-35 | the shipped header lines are single, distinct, marked, and neither shebang nor cookie |
| `LicenseHeadersProofs.CheckAfterWrite` | scripts/add_license_headers.py:141-208 | a check after a write reports, up to the first file it refused, exactly the misplaced headers and the Python files whose unterminated shebang or cookie swallowed the header, and from there on exactly the files not correct before |
| `LicenseHeadersProofs.SecondWriteChangesNothing` | scripts/add_license_headers.py:141-191 | a second write changes no file and stops at the same refusal, if any |
| `LicenseHeadersProofs.ModifiedCountsMisplaced` | scripts/add_license_headers.py:182-191 | the number printed as modified is the files changed plus the misplaced headers left alone |
| `LicenseHeadersProofs.WriteChangesExactly` | scripts/add_license_headers.py:141-191 | a write changes exactly the files without a header before the first such file outside the root, and is refused exactly when there is one |

## Left out

- React rendering, HTTP, the DOM, subprocesses and the file system: replies, journey outcomes, clock readings and file contents are arbitrary inputs.
- The two awaits of `pollOnce` are one outstanding request that settles once; nothing changes state between them.
- `.then` callbacks and microtasks may run in any order, which includes the order JavaScript fixes.
- IEEE rounding, NaN and negative zero in progress and sizes: reals are used, with one value standing for the non-finite numbers.
- Full Unicode case folding, trimming and line breaks: lower-casing and trimming are ASCII, and `\n` is the only line terminator.
- JavaScript prototype names looked up with `in`: tables have just their own keys.
- SQLite internals, foreign-key enforcement, indexes and `INSERT OR REPLACE`; tokenizing is an arbitrary function.
- A failed rebuild migration leaves `clips` as it was; the half-filled new table it may leave behind is not modelled.
- The theme setting, panel routes, error text, printing and console warnings.
- Known-failure registry loading, reports and annotations of the journey runner.
- Collisions of random UUIDs: each id issued is new.
- The Rust and Python engines (timeline, compose, render, batch) and the selectors and modals of the interface.
