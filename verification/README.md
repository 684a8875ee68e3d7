# Iris: models and proofs of the agent's state-keeping core

Iris is a terminal coding agent. This project models, in Dafny, the parts of it
that keep state which must never go wrong quietly, and proves what they are for:

- **The goal runtime** (`src/goal.rs`): a long-running goal with a token and a
  time budget, charged turn by turn while users and the model edit, pause,
  resume, replace and clear it. `GoalRuntime.dfy` holds the object whose fields
  the operations update one by one, `GoalState.dfy` the function each operation
  is proved against, `GoalRuns.dfy` runs of any length with a ledger kept beside
  them, `GoalTheorems.dfy` what every run keeps, calls that return an error
  included, `GoalHistories.dfy` what becomes of one goal in the course of a run, and
  `GoalOutcomes.dfy` what each call answers and leaves, field by field.
- **The process-group table** (`src/process_group.rs`): 256 atomic cells that
  registrations, guard drops and a signal scan touch one atomic step at a time,
  under every interleaving (`ProcessGroups.dfy`).
- **The output store** (`src/handles.rs`): content-addressed files written by
  temporary file and rename, stopping at any point (`HandleStore.dfy`), and the
  oversized goal objectives that rely on it (`ObjectiveStorage.dfy`).
- **The settings** (`src/config.rs`): nested updates of a JSON tree
  (`SettingsFile.dfy`), the merge and the check of the compaction ladder
  (`Settings.dfy`), the saves as a transaction on the user's file
  (`SettingsSave.dfy`), and what one save and any number of saves do to the settings
  projects start from (`SettingsRuns.dfy`).
- **Usage arithmetic** (`src/metrics.rs`, `Metrics.dfy`) and **prompt-cache
  economics** (`src/compaction_bench.rs`, `CacheEconomics.dfy`).
- **Text and tree transformations**: path escaping (`DisplayPath.dfy`), XML
  escaping (`XmlEscape.dfy`), redaction of JSON bodies (`Telemetry.dfy`), and the
  detector of spent tool results with its mass bookkeeping (`FoldDetector.dfy`).

`Prelude.dfy` and `Json.dfy` hold the shared vocabulary: optional values, 64-bit
saturating arithmetic, durations in nanoseconds, and JSON values.

## How the model maps to the program

- Code that changes fields, files or arrays step by step is a class or a method
  with the same branches and loops, each proved equal to a function of the old
  state; the properties are proved about those functions.
- The monotonic clock is a parameter of every call that reads it. An operation
  that reads it twice (to charge elapsed time and to start the next span) has two
  parameters. Wall-clock seconds are a parameter as well.
- Goal ids are drawn fresh: a run is legal only if every id it introduces is new.
  A run starts where construction or a session swap leaves the runtime; a swap
  starts a new run.
- Statuses set from outside are limited, in runs, to the ones the harness sets:
  paused, active, and usage-limited on a goal that is unfinished.
- The goal a first session loads is assumed to be one the program could have written: a
  budget-limited goal has reached a budget. Every session leaves such a goal for the
  next (`GoalTheorems.SessionsJoinUp`).
- The digest is any function to 32 bytes. Injectivity is assumed only for contents
  that were actually put.

## Where code and comments differ, and other surprises

The model follows the code.

- `src/handles.rs:96` says an existing file already holds exactly the content put.
  That is so exactly when the content stored first under the id is the one put
  (`HandleStores.PutThenGetExactlyWhen`, `HandleStores.CollidingContentsAreConfused`).
- `src/process_group.rs:70` gives a full table as the reason for an inert guard.
  Under concurrency the table need not be full at any instant
  (`ProcessGroups.InertThoughNeverFull`); each cell was occupied when it was tried
  (`ProcessGroups.InertExactlyWhenEachCellWasOccupied`), and
  `ProcessGroups.InertTableIsFullExactlyWhen` says when the table is full.
- `src/compaction_bench.rs:302` says reads plus writes equal the request by
  construction; they may exceed it by one token
  (`CacheEconomics.SplitCostsAtMostOneToken`).
- `src/config.rs:1433` says an emptied block is left in place; the code removes it
  (`SettingsFile.BlockUpdateIsNestedThenDrop`).
- `scripts/measure-residual-tool-mass.py:18` names later reads, edits and writes as
  what supersedes a read; the code counts a later `ls` of the path too, so the
  model's `FoldDetector.TouchedLater` does.
- An edit reopens a complete goal without looking at its budget
  (`src/goal.rs:383`), although usage is still charged to complete goals
  (`src/goal.rs:480`). So an active goal over its budget is reachable
  (`GoalTheorems.ActiveOverBudgetIsReachable`);
  `GoalTheorems.EditOfCompleteKeepsBudgetExactlyWhen` is the exact condition for one
  edit, `GoalTheorems.UnfinishedGoalsAreUnderBudgetExactlyWhen` for a whole run.
- `src/config.rs:1532-1540` checks a save against the project it is made in. Another
  project's ladder may still end out of order
  (`SettingsRuns.SavesMaySpoilOtherProjects`);
  `SettingsRuns.ProjectsKeepPassingExactlyWhen` is the exact condition.
- `src/config.rs:1481-1507` keeps every key off the update path but replaces an array
  that stands where a block has to be
  (`SettingsFile.OffPathsAreKeptExactlyWhen`), although a load reads such an array as
  a block (`Settings.PositionalHolds`). So even a save that touches no threshold can
  spoil a ladder or drop the worker model (`SettingsRuns.ArraysMaySpoilProjects`,
  `SettingsRuns.ArraysMayLoseTheRoute`); `SettingsRuns.SaveKeepsPassingExactlyWhen` and
  `SettingsRuns.ProjectsCannotReroute` are the exact conditions.
- A call that charges elapsed time stops the clock, and only an edit or a resume that
  leaves an active goal starts it again (`src/goal.rs:366`, `src/goal.rs:389`). So the
  rest of a turn is not timed after an edit that finds the time budget spent, and,
  when tokens limited the goal in mid-turn and its clock still ran, after any edit,
  pause, resume or model update, a refused one included
  (`GoalTheorems.EditMayLoseTime`, `GoalTheorems.LimitedGoalsMayLoseTime`).
  `GoalTheorems.CallSplitsTheTurnExactlyWhen` is the exact condition for one call;
  while the goal is active no time of an open turn is lost
  (`GoalTheorems.ClockRunsOnlyInTurns`).

## Model

| member | source | states |
|---|---|---|
| `Objective.MaterializedIsFinal` | src/goal.rs:104-134 | an accepted objective is non-blank and trimmed, and accepting it again changes nothing; it passes the inline limit if and only if it is short itself or its handle leaves the reference short, as every handle the store mints does |
| `Objective.MaterializeFailsExactlyWhen` | src/goal.rs:104-134 | an objective is refused if and only if it is all white space, or is oversized and cannot be stored |
| `Objective.TrimTakesOffWhiteSpace` | src/goal.rs:108-124 | trimming takes white space off both ends, all of it and nothing else |
| `Objective.WhiteSpaceIsThese` | src/goal.rs:108-124 | the 25 characters of the White_Space property |
| `ObjectiveStorage.OversizedObjectivesStayReadable` | src/goal.rs:112-120 | the goal keeps a valid reference to an oversized objective, and its handle reads back the whole trimmed objective if and only if no other content was stored under that handle first |
| `GoalState.CandidatesAreFresh` | src/goal.rs:71-91 | every granted request gives a goal that runs may start on: active, uncharged, under the drawn id, with no budget already spent |
| `GoalOutcomes.RequestsAreGrantedExactlyWhen` | src/goal.rs:71-141 | a goal is granted if and only if its objective is not blank, is short or can be kept by reference, and no budget is zero; it has the trimmed objective or the reference, each budget in its place, nothing used and the time of the request |
| `GoalOutcomes.RefusedRequestsSayWhy` | src/goal.rs:71-141 | each refusal names the first of its reasons |
| `GoalOutcomes.InstallingIsGrantedExactlyWhen` | src/goal.rs:275-349 | a replacement needs a saved session; a creation also that no goal is active, paused, blocked or usage-limited |
| `GoalOutcomes.InstallingLeaves` | src/goal.rs:287-357 | the new goal in place with no carry and no steering, timed at once in an open turn, and tied to its usage only if the model made it |
| `GoalOutcomes.EditsAnswer` | src/goal.rs:359-394 | an edit is granted for any goal in a saved session; it changes the objective and the time of the change, and wakes a complete goal, and a limited one whose budgets are not reached, and no other |
| `GoalOutcomes.EditsLeave` | src/goal.rs:359-394 | usage and clock are tied to the goal again exactly when the edit leaves it active in an open turn; the rest is as elapsed time left it, and all of it after a refusal |
| `GoalOutcomes.StatusChangesAnswer` | src/goal.rs:396-426 | a pause is granted unless the goal is limited or complete, a resume if it is paused, blocked, usage-limited or active, any other status always, each judged after elapsed time |
| `GoalOutcomes.StatusChangesLeave` | src/goal.rs:396-426 | usage and clock are tied to the goal again exactly by a granted resume in an open turn |
| `GoalOutcomes.ModelUpdatesAnswer` | src/goal.rs:428-448 | the model may only complete or block, and only a goal that is neither limited nor complete once elapsed time is charged |
| `GoalOutcomes.ModelUpdatesLeave` | src/goal.rs:428-448 | a granted update stops the clock and changes only the status and the time of the change |
| `GoalOutcomes.ClearsLeave` | src/goal.rs:450-462 | a clear leaves no goal and no bookkeeping, in the same turn, to be saved if there was a goal |
| `GoalOutcomes.UsagesLeave` | src/goal.rs:464-492 | a usage reaches only the goal it is tied to, charges uncached input plus output, and limits an unfinished goal exactly when its token budget is used up |
| `GoalOutcomes.ElapsedTimeLeaves` | src/goal.rs:563-589 | elapsed time limits a goal exactly when it is active and its time budget is used up, and raises the steering flag then |
| `GoalOutcomes.TurnsLeave` | src/goal.rs:213-264 | a turn ties only an active goal at its begin, and closes with usage and clock untied; a session starts with nothing pending |
| `GoalRuntimes.GoalRuntime.constructor` | src/goal.rs:213-227 | a new runtime is clean, outside a turn, with no clock and no steering |
| `GoalRuntimes.GoalRuntime.ReplaceFromSession` | src/goal.rs:508-518 | a session swap leaves exactly the state construction would |
| `GoalRuntimes.GoalRuntime.AccrueSpan` | src/goal.rs:570-589 | whole seconds of carried plus new time are charged, the fraction is carried, an active goal that reaches its time budget is limited and steers |
| `GoalRuntimes.GoalRuntime.Accrue` | src/goal.rs:563-568 | a running clock is stopped and its span charged once; a stopped clock changes nothing |
| `GoalRuntimes.GoalRuntime.Begin` | src/goal.rs:245-256 | opens the turn, and ties usage and the clock to the goal only if it is active |
| `GoalRuntimes.GoalRuntime.Finish` | src/goal.rs:258-264 | charges the running span, then closes the turn and unties usage |
| `GoalRuntimes.GoalRuntime.Replace` | src/goal.rs:275-302 | installs a fresh goal, untied from usage but timed when a turn is open; on error nothing changes |
| `GoalRuntimes.GoalRuntime.Create` | src/goal.rs:304-321 | refuses beside an unfinished goal, otherwise replaces without a time budget |
| `GoalRuntimes.GoalRuntime.CreateByModel` | src/goal.rs:333-357 | as a creation with both budgets, and usage of the open turn is tied to the new goal |
| `GoalRuntimes.GoalRuntime.Edit` | src/goal.rs:359-394 | time is charged first, also when there is no goal to edit; a complete goal, or a limited one under budget, becomes active and is tied to the open turn |
| `GoalRuntimes.GoalRuntime.SetStatus` | src/goal.rs:396-426 | time is charged first, also when the change is then refused; terminal goals cannot be paused or resumed |
| `GoalRuntimes.GoalRuntime.Update` | src/goal.rs:428-448 | the model may only complete or block an unfinished goal; time is charged before the refusal of a terminal one |
| `GoalRuntimes.GoalRuntime.Clear` | src/goal.rs:450-462 | removes the goal and all its bookkeeping; dirty only if there was one |
| `GoalRuntimes.GoalRuntime.Account` | src/goal.rs:464-492 | charges uncached input plus output to the associated goal, limits an unfinished goal that reaches its budget, and answers whether it did |
| `GoalRuntimes.GoalRuntime.TakeBudgetSteering` | src/goal.rs:494-497 | hands the flag out and lowers it |
| `GoalRuntimes.PersistGoal` | src/wayland/mod.rs:632-642 | saving appends at most the goal in memory and keeps the session file right whenever the runtime is clean; it fails, and leaves the goal pending, exactly when there is something to save and the append fails |
| `GoalRuntimes.GoalRuntime.MarkPersisted` | src/goal.rs:504-506 | lowers the dirty flag and nothing else |
| `GoalRuns.NextIsTheOperation` | src/goal.rs:245-506 | charging elapsed time and then doing the rest is exactly each operation, so invariants may be proved half by half |
| `GoalTheorems.StepKeeps` | src/goal.rs:245-506 | every operation, failing or not, keeps the runtime, steering, token, time and durability invariants together |
| `GoalTheorems.ReachableStatesAreSound` | src/goal.rs:245-518 | every state of every run satisfies every invariant |
| `GoalTheorems.BudgetLimitedAbsorbs` | src/goal.rs:359-448 | a goal once budget-limited is, after any further run, still limited or no longer in place, and never comes back |
| `GoalTheorems.GoalsSteerAtMostOnce` | src/goal.rs:482-497 | over any run each goal is limited at most once and its steering flag is handed out at most once, and is pending exactly in between |
| `GoalTheorems.UnfinishedGoalsAreUnderBudgetExactlyWhen` | src/goal.rs:359-492 | an unfinished goal is strictly under both its budgets in every state of a run, error returns included, if and only if no granted edit in the run finds a complete goal that has spent a budget |
| `GoalTheorems.EditOfCompleteKeepsBudgetExactlyWhen` | src/goal.rs:372-386 | an edit of a complete goal keeps that if and only if the goal was under budget while complete |
| `GoalTheorems.ActiveOverBudgetIsReachable` | src/goal.rs:383 | a legal run of four operations ends with an active goal over its token budget |
| `GoalTheorems.UsageLimitKeepsBudgetExactlyWhen` | src/goal.rs:396-426 | a usage limit set from outside keeps the goal under budget if and only if, before the call, no budget was spent and the running span fits in the time left |
| `GoalTheorems.HarnessUsageLimitKeepsBudgetExactlyWhen` | src/wayland/mod.rs:1445-1451 | set after the turn is finished and on an active goal, as the harness does, a usage limit keeps the goal under budget if and only if it was |
| `GoalTheorems.UsageIsNeverDiscarded` | src/goal.rs:464-492 | an associated goal is always the one in place in an open turn, its tokens are the saturated sum of exactly the usages reported while they belonged to it, and the id check never drops one |
| `GoalTheorems.ReplacementIsNotCharged` | src/goal.rs:293-320 | a goal the user puts in place, by replacing or creating, is charged no tokens until a turn begins, or an edit, a resume or a creation by the model follows |
| `GoalTheorems.TimeIsConserved` | src/goal.rs:563-589 | over any run, seconds used plus the carried fraction equal the starting seconds plus every span of clock readings in a ledger that is kept from the operations, the goal's status and whether a turn is open, and not from the clock, the carry or the counters; the fraction is under a second |
| `GoalTheorems.TimeNeverRunsAhead` | src/goal.rs:245-448 | under a clock that never goes back no time is charged twice: a goal is charged at most what the run took |
| `GoalTheorems.ClockRunsOnlyInTurns` | src/goal.rs:245-448 | the clock runs exactly while that ledger times a span, since the reading that began it, and then in an open turn on an active or budget-limited goal; and in an open turn an active goal is always timed |
| `GoalTheorems.AccruingTwiceIsAccruingTheSum` | src/goal.rs:570-589 | charging two spans leaves the same whole state as charging their sum, status and flags included |
| `GoalTheorems.CallSplitsTheTurnExactlyWhen` | src/goal.rs:359-448 | any edit, status change or model update in mid-turn, granted or refused, leaves the turn charged the same time if and only if it finds the goal active with the running span fitting in the time left, is an edit or a resume, and restarts the clock at the reading it stopped it at, or comes at the turn's end |
| `GoalTheorems.EditSplitsTheTurnExactlyWhen` | src/goal.rs:359-394 | an edit in mid-turn changes nothing but the objective, by the end of the turn, if and only if it finds the goal active with the running span fitting in the time left, or comes at the turn's end |
| `GoalTheorems.EditMayLoseTime` | src/goal.rs:359-394 | a legal run in which an edit that finds the time budget spent leaves one second charged of a turn of three |
| `GoalTheorems.LimitedGoalsMayLoseTime` | src/goal.rs:359-426 | legal runs in which an edit, and a refused pause, of a goal its tokens limited in mid-turn leave one second charged of a turn of three |
| `GoalTheorems.CleanMeansDurable` | src/goal.rs:494-506 | whenever the dirty flag is down the session file holds the goal in memory, over every run with failed saves and error returns |
| `GoalTheorems.SessionsJoinUp` | src/goal.rs:499-518 | over any number of sessions, each loading what the one before saved, the session file never holds a limited goal that has not spent a budget |
| `GoalHistories.StatusesMoveByTheDiagram` | src/goal.rs:359-492 | a goal that stays in place moves only along the status diagram: time ends only active goals, usage any unfinished one, only an edit leaves complete, nothing leaves budget-limited |
| `GoalHistories.RepliesTellTheState` | src/goal.rs:266-448 | a granted call answers with the goal it leaves in place, marked to be saved; a refused one leaves behind at most the time it charged first and the clock it stopped for that |
| `GoalHistories.RefusedCallsRepeatForFree` | src/goal.rs:359-448 | repeating a refused call at the same reading changes nothing more and is refused for the same reason |
| `GoalHistories.GoalsKeepTheirTerms` | src/goal.rs:245-589 | over any run a goal still in place keeps its budgets and creation time, and its tokens and time never go down |
| `GoalHistories.CompleteStaysUntilEdited` | src/goal.rs:359-492 | a complete goal stays complete, over any run, until an edit of it is granted or it is no longer in place |
| `ProcessGroups.RunIsSound` | src/process_group.rs:71-109 | in every state of every interleaving live guards own distinct cells holding exactly their ids, and every occupied cell has a guard |
| `ProcessGroups.ScanKillsLiveGroups` | src/process_group.rs:87-96 | a scan that starts after a registration and ends before its guard drops kills that group, whatever happens in between |
| `ProcessGroups.ScanKillsOnlyWhatItRead` | src/process_group.rs:87-96 | whatever a scan kills stood in a cell when the scan read it, as the id of a guard live at that moment |
| `ProcessGroups.PassedCellsWereOccupied` | src/process_group.rs:73-80 | a registration passes a cell only after finding it occupied at a moment of its own scan |
| `ProcessGroups.InertExactlyWhenEachCellWasOccupied` | src/process_group.rs:69-83 | a registration of a positive id that has returned is inert if and only if it found each of the 256 cells occupied, each at its own moment |
| `ProcessGroups.InertTableIsFullExactlyWhen` | src/process_group.rs:69-83 | a registration that gives up leaves a full table if and only if every cell freed behind it was claimed again meanwhile |
| `ProcessGroups.InertTableIsFullWithoutDrops` | src/process_group.rs:69-83 | so the table is full whenever no guard was dropped since the registration began |
| `ProcessGroups.InertThoughNeverFull` | src/process_group.rs:69-83 | a run in which a registration ends inert although some cell is free in every single state |
| `ProcessGroups.FirstFree` | src/process_group.rs:73-80 | the least free cell from a position on, or none when all are taken |
| `ProcessGroups.AloneTakesTheFirstFree` | src/process_group.rs:71-83 | without interference the stepwise registration takes the first free cell, and is inert exactly when there is none |
| `ProcessGroups.ScanAloneKillsEveryLiveId` | src/process_group.rs:87-96 | without interference the stepwise scan kills exactly the positive ids in the table and changes no cell |
| `ProcessGroups.GroupTable.Register` | src/process_group.rs:71-83 | the loop claims the first free cell for a positive id and changes no other |
| `ProcessGroups.GroupTable.Unregister` | src/process_group.rs:103-109 | clears the guard's cell; an inert guard clears nothing |
| `ProcessGroups.GroupTable.KillAll` | src/process_group.rs:87-96 | the loop kills the positive ids of the table in cell order |
| `ProcessGroups.PositiveIsEveryLiveId` | src/process_group.rs:87-96 | those are exactly the positive ids some cell holds |
| `ProcessGroups.PositiveInOrder` | src/process_group.rs:87-96 | they come in the order of their cells, each as often as it stands there |
| `HandleStores.ComputeHandleId` | src/handles.rs:116-123 | the loop writes the hexadecimal form of the leading 16 digest bytes |
| `HandleStores.MintedIds` | src/handles.rs:116-130 | minted ids are 32 characters and pass the check for untrusted ids; two contents share one exactly when the leading digest bytes agree |
| `HandleStores.MintedIdsReadBack` | src/handles.rs:116-123 | the digits of an id, two to a byte and high half first, read back the leading 16 bytes of the digest |
| `HandleStores.CheckedIdsAreDigits` | src/handles.rs:125-130 | an id passes the check if and only if it is some hexadecimal digits, so none with a separator, a dot or a colon does |
| `HandleStores.HandleStore.PutFile` | src/handles.rs:91-110 | write to a temporary file and rename, with the file state and the answer for every point where it can stop |
| `HandleStores.HandleStore.GetFile` | src/handles.rs:74-86 | nothing for a malformed id or an absent file, otherwise the file's content |
| `HandleStores.PutKeepsAddressed` | src/handles.rs:91-110 | wherever a put stops, every final file still holds a content its name is the id of, and no existing one changes |
| `HandleStores.PutTouchesItsOwnFiles` | src/handles.rs:91-110 | a put touches no file but the two named after its content's id, and leaves no temporary file when it has stored the content |
| `HandleStores.PutRefinesTheMap` | src/handles.rs:91-110 | a put that returns is one abstract map insertion that overwrites nothing; one that stops short is that or nothing |
| `HandleStores.GetReadsTheMap` | src/handles.rs:74-86 | a get answers what the abstract map holds, for forged ids as well |
| `HandleStores.FirstStoredIsRead` | src/handles.rs:74-110 | over any sequence of puts with failures anywhere, an id reads back the first content stored under it, or nothing |
| `HandleStores.PutThenGetExactlyWhen` | src/handles.rs:74-110 | after any puts, the id a put returns reads back its content if and only if no earlier put stored another content under that id first |
| `HandleStores.CollidingContentsAreConfused` | src/handles.rs:96-99 | two contents with one digest: the second put returns an id that reads back the first content |
| `HandleStores.PutIsIdempotent` | src/handles.rs:88-99 | putting a stored content again changes no file wherever it stops, and returns the same id unless the directory fails or the caller never hears |
| `HandleStores.PutAllKeepsFiles` | src/handles.rs:91-110 | over any sequence of puts with failures anywhere every stored content stays under its id |
| `HandleStores.StoredContentsCameFrom` | src/handles.rs:91-110 | no final file ever holds anything but a content some put was given in full |
| `HandleStores.StoredOutputsStayReadable` | src/handles.rs:74-110 | from an empty store a content whose put returned reads back for good, whatever puts come before and after, as long as the contents put do not collide |
| `SettingsFile.ApplyUpdates` | src/config.rs:1404-1410 | the loop over the updates, null removing a key |
| `SettingsFile.UpdateNestedBlocks` | src/config.rs:1488-1507 | the walk down the blocks, creating or replacing what is no object, and the change seen through every enclosing object |
| `SettingsFile.UpdateOneBlock` | src/config.rs:1438-1459 | the block update, which drops a block left empty |
| `SettingsFile.ReadBack` | src/config.rs:1488-1507 | after a nested update every written key reads back its last written value; null removed it |
| `SettingsFile.OffPathsAreKeptExactlyWhen` | src/config.rs:1488-1507 | a path off the update path leads to the value it led to before, at every depth, if and only if it does not lead into an array that stood where the update needs a block |
| `SettingsFile.ArraysInPlaceOfBlocksAreLost` | src/config.rs:1494-1496 | the failing case: what such an array held is gone |
| `SettingsFile.BlocksAreObjects` | src/config.rs:1490-1500 | every enclosing block ends up an object |
| `SettingsFile.NestedUpdatesCompose` | src/config.rs:1488-1507 | two updates of one block are one update with both lists |
| `SettingsFile.NestedUpdateTwice` | src/config.rs:1488-1507 | repeating an update changes nothing |
| `SettingsFile.NestedUpdateIsIdleExactlyWhen` | src/config.rs:1488-1507 | an update changes nothing if and only if the blocks are objects already and each written key holds its last write |
| `SettingsFile.BlockUpdateIsNestedThenDrop` | src/config.rs:1435-1461 | the block update is the one-block nested update followed by dropping the block when it is empty |
| `Settings.TriggerIsSoundExactlyWhenAccepted` | src/config.rs:649-708 | settings are accepted if and only if 0 < warn < start < hard < 1, the tail and the failure count are positive, the wait is bounded and a set budget covers the reserve; the result holds exactly those values |
| `Settings.RefusedSettingsSayWhy` | src/config.rs:649-697 | each refusal names the first of its reasons |
| `Settings.TriggerFieldsAreDecided` | src/config.rs:282-323 | each field of a trigger is its own key: the project's value, else the user's, else the documented default (on, on, 8000 tokens, 120000 ms, 3 failures, 0.60, 0.72, 0.90) |
| `Settings.MergedSettingsAreDecided` | src/config.rs:282-323 | of the rest, the project's value if it sets one, else the user's; the worker model and the provider-native mode are the user's alone |
| `Settings.EmptyProjectIsNoProject` | src/config.rs:1541-1550 | checking the user's settings alone is checking what a load with an empty project would use |
| `SettingsSave.SettingsStore.SaveSetting` | src/config.rs:1481-1530 | read, update, check, replace: the file and the error after each way it can end |
| `Settings.PositionalHolds` | src/config.rs:232-261 | a block written as an array of exactly as many items as the structure has fields is read by position |
| `Settings.SmallArraysAreReadByPosition` | src/config.rs:247-261 | an array is read as a ladder or a worker exactly if it has three or four items, in the order of the fields |
| `Settings.BlockArraysAreReadByPosition` | src/config.rs:232-245 | and as a compaction block exactly if it has ten |
| `Settings.ValuesAreReadAsTheyStand` | src/config.rs:232-261 | values are read as they stand, whole numbers also as fractions, and nothing of another type or out of range |
| `SettingsSave.FileArraysAreReadByPosition` | src/config.rs:48-230 | a whole file as an array is read only with an item for each of the 34 keys, each modelled one at its place |
| `SettingsSave.SaveReadsBack` | src/config.rs:1115-1332 | read back after the write, the settings are the old ones with exactly the saved value in place, save that an array standing where the save needs a block has been emptied |
| `SettingsSave.SettingsAreReadFromTheirKeys` | src/config.rs:232-261 | each setting is read from its own key of its own block |
| `SettingsSave.MistypedBlocksAreRefused` | src/config.rs:232-261 | a compaction block is accepted if and only if every key set in it, and in the blocks within it, has its type |
| `SettingsSave.SavesWriteTheirKeys` | src/config.rs:1115-1332 | each save leaves at its key its value, brought into range, the known words as themselves; only a threshold that is not finite and a budget under the reserve write nothing |
| `SettingsSave.UnreadableFilesAreLeft` | src/config.rs:1597-1611 | a file that is no object, or cannot be read, is never written over |
| `SettingsSave.ConflictsAreNamedExactlyWhen` | src/config.rs:1541-1595 | a refusal names a conflict with the project if and only if the merged ladder is refused and the project sets one of the six keys it may override |
| `SettingsRuns.CheckIsTheLoad` | src/config.rs:1541-1564 | the check before a save finds nothing exactly when the load the harness will make would pass |
| `SettingsRuns.LoadedTriggersAreDecided` | src/config.rs:457-471 | what a harness starts with: of each key, what the project's file sets, else the user's, else the documented default |
| `SettingsRuns.SaveSucceedsExactlyWhen` | src/config.rs:1481-1530 | a save succeeds if and only if there is something to write, it passes with the project where it is checked, and the file can be replaced; a save that fails leaves the file as it was |
| `SettingsRuns.FailingResultsAreRefusedExactlyWhen` | src/config.rs:1115-1332 | a save whose result would not pass is refused, but for the three saves that are not checked |
| `SettingsRuns.UncheckedFitsExactlyWhen` | src/config.rs:1115-1332 | a save that skips the check keeps settings that pass if and only if it saves the budget, or no array stands in the place of the compaction block, or the project passes without the user's block |
| `SettingsRuns.SaveKeepsPassingExactlyWhen` | src/config.rs:1115-1332 | a save keeps its own project's settings passing if and only if it does not go through or is harmless in that sense; a checked one always is |
| `SettingsRuns.SavesKeepPassingExactlyWhen` | src/config.rs:1115-1332 | over any sequence of saves for a project, its settings pass after each if and only if each that goes through is harmless at its time |
| `SettingsRuns.SavesKeepPassing` | src/config.rs:1115-1332 | with no array in the place of the user's compaction block, every sequence of saves, failures anywhere, leaves a sound ladder, tail, wait and budget |
| `SettingsRuns.ProjectsKeepPassingExactlyWhen` | src/config.rs:1481-1564 | a save made in one project keeps another project's settings passing if and only if it does not go through or fits that project: it moves no threshold the other project leaves to the user past the rungs next to it there, and empties no array the other project's ladder needs |
| `SettingsRuns.ProjectsPassThroughoutExactlyWhen` | src/config.rs:1481-1564 | over any sequence of saves made in any projects, a project passes after each of them if and only if each that goes through fits it at its time |
| `SettingsRuns.SavesMaySpoilOtherProjects` | src/config.rs:1541-1564 | a failing case, on files: a save that is checked and goes through in one project leaves another project's ladder out of order |
| `SettingsRuns.ArraysMaySpoilProjects` | src/config.rs:1494-1496 | the failing cases with an array for a block, on files: the worker-input save spoils its own project, and a checked save another one |
| `SettingsRuns.ProjectsCannotReroute` | src/config.rs:282-323 | whatever a project's file says and after any saves made anywhere, the worker model is the user's, or none if and only if a save emptied an array it could stand in; the provider-native mode is the one saved last, or without such a save the user's, or none in the same case |
| `SettingsRuns.ArraysMayLoseTheRoute` | src/config.rs:1494-1496 | the failing case, on files: a save of another key drops a worker model that stood in an array |
| `Metrics.PercentIsHalfUp` | src/metrics.rs:128-135 | the percentage is the unique half-up rounding of the exact quotient, for odd and even wholes, capped only at the largest 64-bit value, within 128 bits |
| `Metrics.RatioIsCappedExactlyWhen` | src/metrics.rs:140-142 | the cap at 100 changes the answer if and only if the part exceeds the whole by half a percent or more |
| `Metrics.SharesOfNothingAreUnknown` | src/metrics.rs:128-142 | there is no percentage of nothing; of anything else a share is the percentage or a hundred, whichever is less |
| `Metrics.TokenFlows.constructor` | src/metrics.rs:19-39 | new counters have observed nothing |
| `Metrics.TokenFlows.Observe` | src/metrics.rs:43-66 | the counters are those of the usages observed so far and the new one |
| `Metrics.TurnsAreCounted` | src/metrics.rs:43-66 | turns are counted, the latest total is the last one reported, and the breakdown flag means some usage had one |
| `Metrics.OneTurnShowsItsCounts` | src/metrics.rs:43-66 | one turn shows each of its own counts in the counter for it |
| `Metrics.CountersAreSaturatedTotals` | src/metrics.rs:43-66 | each counter is the saturated exact total of its own measure |
| `Metrics.SessionIsTheSumOfItsTasks` | src/metrics.rs:12-66 | the session's meter shows the saturated sum of what its tasks' meters show, counter by counter, however the turns fall into tasks |
| `Metrics.CacheReadsStayWithinInput` | src/metrics.rs:25-26 | cache reads never exceed input if no single usage does, saturated or not |
| `Metrics.TimingStats.Observe` | src/metrics.rs:104-114 | generation, waiting and samples are the saturated totals over the turns observed |
| `Metrics.TimingStats.AverageWait` | src/metrics.rs:118-120 | none exactly when no turn streamed, otherwise the floored mean |
| `Metrics.TurnsSplitIntoWaitAndGeneration` | src/metrics.rs:104-114 | a turn's generation is what its wait leaves of it, none if the wait is longer; only turns that streamed are samples |
| `Metrics.GenerationAndWaitsAddUp` | src/metrics.rs:104-114 | generation plus waiting is at least the total duration, and equal if and only if every wait lies within its turn |
| `Metrics.HardIsTheLargestAllowed` | src/metrics.rs:216-220 | the hard threshold is the largest count within its fraction of the displayed window when the model's window is unknown, and is left alone otherwise |
| `Metrics.PreparationIsTheLargestAllowed` | src/metrics.rs:216-221 | the preparation threshold is the largest count within its fraction and the hard threshold |
| `Metrics.WarningIsTheLargestAllowed` | src/metrics.rs:216-222 | the warning threshold is the largest count within its fraction and the preparation threshold |
| `Metrics.HardFractionIsTheLargestAllowed` | src/metrics.rs:226-234 | a hard fraction set on its own is the largest count within it, and caps the two thresholds below |
| `Metrics.ResolvedBudgetsAreTheLargestAllowed` | src/metrics.rs:191-214 | the window shown is the model's, or the fallback for an unknown model, up to the clamp, and so is a known model's hard threshold |
| `Metrics.ResolvedWarningIsTheLargestAllowed` | src/metrics.rs:209-214 | the resolved warning is the largest count within 0.60 of that window and the preparation threshold |
| `Metrics.ResolvedPreparationIsTheLargestAllowed` | src/metrics.rs:209-214 | the resolved preparation is the largest count within 0.72 of it and the hard threshold |
| `Metrics.ResolvedHardIsTheLargestAllowed` | src/metrics.rs:209-214 | an unknown model's hard threshold is the largest count within 0.90 of it |
| `Metrics.LadderStaysOrdered` | src/metrics.rs:191-234 | warning <= preparation <= hard <= displayed after resolution and any chain of tunings |
| `Metrics.LowerClampNeverRaises` | src/metrics.rs:191-234 | lowering or setting the clamp never raises any of the four values, through any chain of tunings |
| `Metrics.ClampedExactlyWhenTheClampBites` | src/metrics.rs:236-243 | for a known window a budget counts as clamped if and only if the clamp changed the displayed window or the resolved hard threshold |
| `CacheEconomics.CommonPrefix` | src/compaction_bench.rs:280-286 | a common prefix of both texts |
| `CacheEconomics.CommonPrefixIsLongest` | src/compaction_bench.rs:280-286 | a text begins both payloads if and only if it begins their common prefix |
| `CacheEconomics.WidthIsTheLeastThatFits` | src/compaction_bench.rs:277-286 | a character takes the least number of bytes that its code point fits in under section 3 of RFC 3629 |
| `CacheEconomics.PrefixBytesAreABoundary` | src/compaction_bench.rs:277-286 | the byte count is a character boundary of both payloads, and slicing there gives the shared text and the rest |
| `CacheEconomics.SplitCostsAtMostOneToken` | src/compaction_bench.rs:339-345 | reads plus writes equal the request, plus one token exactly when two partial tokens would have fitted into one |
| `CacheEconomics.PayloadsAreRecords` | src/compaction_bench.rs:269-275 | role, U+001F and content of each message, with U+001E between messages |
| `CacheEconomics.AppendOnlyKeepsTheWholePayload` | src/compaction_bench.rs:269-286 | a request that only appends messages has the whole previous payload as its common prefix |
| `CacheEconomics.SharedRecordsAreSharedMessages` | src/compaction_bench.rs:264-275 | for separator-free messages a payload closed by a separator begins another one exactly when the second request appends to the first |
| `CacheEconomics.CompleteRecordsAreSharedMessages` | src/compaction_bench.rs:264-286 | the records completed within the common prefix of two payloads are exactly the leading messages the requests share |
| `CacheEconomics.LastMessagesAreIncomplete` | src/compaction_bench.rs:264-286 | the common prefix never completes the last message of either request |
| `CacheEconomics.SerializeIsInjective` | src/compaction_bench.rs:264-275 | separator-free requests with equal payloads are equal |
| `CacheEconomics.ModelCacheEconomics` | src/compaction_bench.rs:321-354 | the one-pass scan yields one entry per compaction boundary, in order, as defined by positions in the stream |
| `CacheEconomics.EntriesAreTheCompactions` | src/compaction_bench.rs:321-354 | the entries are exactly those of the requests that follow a compaction; each counts the compactions before it, and its reads cover the bytes shared with the last normal payload before (or the baseline), its writes the rest, its totals each payload |
| `CacheEconomics.AppendOnlyReadsAll` | src/compaction_bench.rs:339-345 | where only messages were appended, an entry reads all of the earlier request |
| `CacheEconomics.GenerationsIncrease` | src/compaction_bench.rs:321-354 | generations strictly increase, start at 1 or later and never exceed the compactions that a request has followed; each entry adds up to its request or one token more |
| `CacheEconomics.LastNormalIsTheLast` | src/compaction_bench.rs:306-316 | the earlier payload of an entry is the last normal request with only summaries after it, or the baseline |
| `DisplayPath.EscapePath` | src/display_path.rs:12-22 | the loop escapes character by character |
| `DisplayPath.DecodeInvertsEscape` | src/display_path.rs:12-22 | decoding the escapes returns the path, for every character sequence |
| `DisplayPath.EscapeIsInjective` | src/display_path.rs:12-22 | two paths never look the same |
| `DisplayPath.EscapedPathsArePrintable` | src/display_path.rs:12-22 | no control character survives |
| `DisplayPath.EscapeChangesNothingExactlyWhen` | src/display_path.rs:15-19 | a path is shown as it is if and only if it holds no backslash and no control character |
| `DisplayPath.EscapesAreThese` | src/display_path.rs:14-20 | the short escapes for backslash, tab, carriage return and line feed, and lower-case hexadecimal without leading zeros, in braces, for other control characters |
| `DisplayPath.EscapeAppend` | src/display_path.rs:12-22 | a path is escaped character by character |
| `XmlEscape.PassesEscapeAtOnce` | src/goal.rs:591-598 | the five passes, ampersand first, equal one simultaneous replacement of each character |
| `XmlEscape.CharactersEscapeAs` | src/goal.rs:591-598 | each of the five characters becomes the predefined entity of its name, and no other changes |
| `XmlEscape.EscapeAppend` | src/goal.rs:591-598 | a text is escaped character by character |
| `XmlEscape.AmpersandLastIsRightExactlyWhen` | src/goal.rs:591-598 | with the ampersand last they would do so exactly for texts without the other four characters |
| `XmlEscape.EscapeRoundTrips` | src/goal.rs:591-598 | decoding the entities of section 4.6 of XML 1.0 returns the text, and the output holds none of the four bare characters |
| `Telemetry.RedactJson` | src/telemetry.rs:140-156 | the in-place walk yields the redaction of the whole tree, whatever the order of keys |
| `Telemetry.HidingIgnoresCase` | src/telemetry.rs:158-169 | keys that agree up to the case of ASCII letters are hidden alike |
| `Telemetry.HiddenKeysAreThese` | src/telemetry.rs:21-43 | the general redaction hides a key if and only if one of the eight fragments stands somewhere in it, in any case; the OAuth redaction hides in addition exactly four keys, in any case |
| `Telemetry.RedactionHidesExactlyTheHidden` | src/telemetry.rs:140-156 | two bodies redact to the same tree if and only if they agree outside hidden keys |
| `Telemetry.WiderRedactionAbsorbs` | src/telemetry.rs:140-169 | a redaction absorbs a narrower one made before or after it |
| `Telemetry.OauthRedactionAbsorbsTheGeneral` | src/telemetry.rs:122-132 | so the OAuth redaction absorbs the general one in either order, and redacting twice is redacting once |
| `Telemetry.RedactionByPath` | src/telemetry.rs:140-156 | at every path: kept outside hidden keys, the marker at one, nothing beneath one |
| `Telemetry.LeavesAreKept` | src/telemetry.rs:140-156 | texts, numbers, booleans and nulls reached through no hidden key stay as they are |
| `Telemetry.Truncate` | src/telemetry.rs:171-177 | short text is unchanged, long text keeps its head and a bounded length |
| `Telemetry.JsonBodiesAreSurfaced` | src/telemetry.rs:134-138 | a body is surfaced if and only if it is JSON, as the print of its redaction, up to 500 characters of it |
| `Telemetry.SanitizeLeaksNothingHidden` | src/telemetry.rs:134-138 | bodies that agree outside hidden keys are surfaced as the same text, whatever the parser and the printer |
| `FoldDetector.FoldableIndices` | scripts/measure-residual-tool-mass.py:112-136 | the grouped detector folds exactly the positions the quadratic definition calls spent |
| `FoldDetector.SupersededReads` | scripts/measure-residual-tool-mass.py:115-123 | a read or listing is folded exactly when a later result touches the same path |
| `FoldDetector.RetiredCommands` | scripts/measure-residual-tool-mass.py:124-135 | a command is folded exactly when the same tool runs later with the same arguments |
| `FoldDetector.FoldedIsSpent` | scripts/measure-residual-tool-mass.py:112-136 | a position is folded if and only if it holds a read or listing of a path that a later result touches, or a grep, find or bash that is run again later with the same arguments |
| `FoldDetector.NewestIsKept` | scripts/measure-residual-tool-mass.py:112-136 | the newest result of a path or of a command group is never folded |
| `FoldDetector.Measure` | scripts/measure-residual-tool-mass.py:185-234 | over all sessions each counter holds exactly the mass of the results it is for |
| `FoldDetector.AddDeciles` | scripts/measure-residual-tool-mass.py:218-221 | each decile gains exactly the mass of the results whose rank falls into it |
| `FoldDetector.DecileIsTheTenth` | scripts/measure-residual-tool-mass.py:221 | a decile holds exactly the ranks in its tenth, oldest first, and the bound at nine never acts |
| `FoldDetector.BooksTakeThese` | scripts/measure-residual-tool-mass.py:209-234 | which results each counter is for: the split by class, all but the newest quarter, and sessions of forty results or more |
| `FoldDetector.BooksAreSums` | scripts/measure-residual-tool-mass.py:193-234 | a book holds the masses of the results it takes, and nothing else |
| `FoldDetector.CountersAreTheirBooks` | scripts/measure-residual-tool-mass.py:185-234 | which book each of the counters is |
| `FoldDetector.MassesAreConserved` | scripts/measure-residual-tool-mass.py:209-221 | superseded plus retired mass is the folded mass, and the ten deciles sum to everything, for every list of sessions |

## Left out

- Providers, HTTP, OAuth, retries, the agent loop, the session log and the compaction engine: outside this core.
- Terminal interface, slash commands, login, self-update, report printing and the parser of `/goal` commands: presentation and wiring.
- The text of the continuation prompt, beyond the escaping of the objective in it, and the remaining-budget helpers (`src/goal.rs:93-101`): one branch each.
- IEEE floats: thresholds and fractions are exact reals; a non-finite fraction is a separate case that is refused. A product of a window and a fraction that lies near an integer can be rounded to the other side of it by the program, so a threshold of the model can differ by one: for 10 and 0.7, or 100 and 0.29, as well as for large windows.
- The floating-point rates `tokens_per_second` and `signed_percent_of`: a division each.
- Real file systems: a rename is one step and what was renamed is what was written; flushing, permissions and files changed by other programs are not part of this model. A crash cuts the temporary file between characters, not bytes.
- Concurrent puts of one content share a temporary file name; puts within a session are sequential, as the source assumes.
- SHA-256 itself: any digest function stands for it.
- Memory orderings weaker than one atomic step at a time, and what the kill call does to processes: a kill is recorded as an event.
- `create_external` and `replace_external` without a time budget are the same operations with that budget absent.
- Settings keys other than the budget and the compaction block: carried as unknown keys, which the updates keep; their own types are not checked on load.
- A settings file that repeats a key, which a load refuses and a save reads with the last value: a file holds one value a key here.
- A whole settings file written as one array is read by position, but only the two modelled keys are taken from it.
- A user settings path that cannot be resolved, and the wording of the conflict message beyond whether it names a project override.
- The tool-result-compaction settings and their check: `src/config/tool_result_compaction.rs` is not part of this model.
- Paths that are not valid Unicode are shown with replacement characters before escaping; the model starts from the characters.
- Parsing and printing of JSON in the sanitizer are parameters.
- Reading transcripts, normalizing paths and the per-tool and failed-execution counters of the mass script: bookkeeping without a cross-cutting law.
- GoalTheorems.TimeIsConserved: the equation is for counters that have not saturated; the saturated value is part of `GoalTheorems.ReachableStatesAreSound`.
- GoalTheorems.ReplacementIsNotCharged: speaks of tokens; the replacing goal's time does start at once, as in the source.
