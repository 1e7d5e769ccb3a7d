# Models of zvec-grep's daemon state and text extraction

Each `.dfy` file holds one module. Code that updates fields or walks with cursors is a class or a method with loops,
proved against functions of its inputs; the functions, and the step systems built from them, carry the theorems.

**Read-session cache** (`Session*.dfy`). Many searches share one handle. `SessionCell` has the shared fields and
one function and one method per lock-held section; `SessionSystem` interleaves those sections over any number of
readers, openers, retires, closes and sleepers, with an explicit model of `Notify` (one stored permit, registered
waiters, forwarding on drop; a notification may wake any waiter). `SessionSafety`, `SessionEviction` and
`SessionWakeups` are the inductive invariants, `SessionTheorems` what holds of every run, `SessionOutcomes` what each
section decides in a reachable state, `SessionRescues` which parked readers can still be woken, and `SessionStranding`
is one concrete run that ends with a reader nobody will wake.

**Change accumulation and revisions** (`Change{Scopes,Sets,Regions,Accumulator}`, `Revisions`, `Coordination`,
`Freshness`, `IndexCoordinators`). A path is the sequence of its components, so "at or below" is the prefix order and
the filesystem root is the empty sequence. `ChangeRegions` says which regions of the tree an event or a merge adds and
how far widening moves them. `Coordination` follows every enqueued change from the pending set through a lazily taken
batch to the revision a finished run reports, `Freshness` when the root then reads as fresh.

**Chunkers** (`Texts`, `Chunk*.dfy`, `TextChunks`, `TextExtractor`, `VectorContent`, `HeadingLines`, `Markdown*.dfy`).
Strings are sequences of characters of one to four UTF-8 bytes, so character budgets and byte ranges are both exact.
`Chunks` holds what the two chunkers share, `ChunkBreaks` which break beats which, `ChunkWalks` how chunks follow one
another; `HeadingLines` says by its characters which line is a heading, and `MarkdownLabels` what sections and fragments
are called.

**Actor registry** (`RootRegistry`, `RegistryRuns`): the lock sections of spawning, teardown, eviction and close,
interleaved. **Line cache** (`LineCaches`), **limited search** (`LexicalSearch`), **managed blocks** (`MarkedBlocks`,
`BlockPairs`, `TomlStrings`, `Installers`, and `InstallerLaws` and `InstallerBlocks` for when an install is refused and
what is written) and **container choice** (`Containers`) are independent of each other.

## Where the code does less than its comments say

- A failed cold open returns without notifying (read_session_cache.rs:311). A reader parked meanwhile stays parked, in
  every continuation without new tasks, exactly when the opener had not been notified itself and no other task can come
  to notify somebody: `FailedOpenStrandsExactly`. `FailedOpenStrandsAReader` is such a run.
- `collapse_set` drops "/" when it is recorded, because `parent_dir("/")` is "/" (change_set.rs:297-331):
  `CollapseKeepsRegionExactly`. Widening clamps to the root, so a covered path outside it stays covered through a
  budget check exactly when a reconcile is due, collapsing is enough, or a recorded directory covers it and widening the
  other scopes is enough: `EnforceCoversExactly`, with `OutsideRootIsLost` as a path that is lost. The type's comment
  says that widening falls back to a full reconcile when it stops shrinking the set; the loop only stops and leaves the
  set over budget (change_set.rs:84-88, 259-272): `WidenFitsOrStalls` and `WideningStopsTooSoon`.
- An event about an ignore file is said to widen to its directory (change_set.rs:84-88). It does exactly when no
  directory or deletion of the ignore file's own path is recorded, which makes the event look covered (lines 132-136):
  `IgnoreFileRescansExactly`, with `IgnoreDirectoryHidesIgnoreFile` as two events that show it.
- A failed index run is said to leave its revision dirty so that the next run retries (backend/root_actor.rs:365-371).
  Its batch is already drained, and the next run that completes marks the later revision indexed:
  `FailedBatchIsForgotten`. A root that reads as fresh has indexed everything in the runs where each run that ends well
  is a full one or finds everything drained before its batch settled, which is also exactly when the indexed revision
  never claims too much: `OrderlyFreshMeansIndexed`. The epoch of a full run is read when the run finishes
  (backend/root_actor.rs:343-345), so a demand is discharged by the first full run that completes after it was raised,
  even one that had taken its batch before: `DemandStaysOwedExactly`, with `DemandDuringRunIsDischarged` as a run.
- After an overlap a text window may end where the one before it ended: `NextWindowAddsNothingExactly`, with
  `NextWindowCanAddNothing` as such a window.
- An oversized file is said to leave the line cache's scratch slot on the next miss (lexical/context.rs:24-26, 165-168).
  It stays exactly as long as no other oversized file is read: `ScratchStaysExactly`, with `ScratchOutlivesAMiss` as a
  miss that it outlives.
- The container comparator adds a tie-break to a difference of spans instead of ordering by span first
  (lexical/enrichment.rs:311-331): `AlwaysLeastExactly` and `LongerSymbolWins`.
- Quoting leaves U+007F as it is, which TOML 1.0.0 (section String) does not allow in a basic string:
  `QuotedReadsBackExactly`. A start marker without its end marker makes the second install delete text:
  `PutTwiceExactly`.

## Model

| member | source | states |
|---|---|---|
| SessionCell.SessionState.Observe | crates/zg-server/src/read_session_cache.rs:258-277 | refuses when closed; takes the resident handle, counting a reader, moving the idle stamp, recording the epoch and taking the sleeper to abort; otherwise says wait or open |
| SessionCell.SessionState.Recheck | crates/zg-server/src/read_session_cache.rs:299-307 | under the open turn: refused, world changed, or still cold; changes nothing |
| SessionCell.SessionState.Publish | crates/zg-server/src/read_session_cache.rs:312-331 | a fresh handle is checked out with the epoch current now, or refused when the close came first |
| SessionCell.SessionState.Restore | crates/zg-server/src/read_session_cache.rs:350-377 | the three ways a checkout ends, with the displaced handle and the stamp for the idle close; which of them is taken is `SessionOutcomes.RestoreReturnsExactly` |
| SessionCell.SessionState.Release | crates/zg-server/src/read_session_cache.rs:390-396 | ends a checkout whose handle is lost |
| SessionCell.SessionState.Retire | crates/zg-server/src/read_session_cache.rs:417-429 | moves the epoch and the stamp, empties the slot and the sleeper; nothing when closed |
| SessionCell.SessionState.Close | crates/zg-server/src/read_session_cache.rs:442-454 | closes once, empties the slot and the sleeper |
| SessionCell.SessionState.ScheduleIdleClose | crates/zg-server/src/read_session_cache.rs:461-489 | evicts at once without a TTL; otherwise installs a sleeper only for the current stamp and hands back the one it replaces |
| SessionCell.SessionState.SleeperWakes | crates/zg-server/src/read_session_cache.rs:491-500 | a sleeper evicts only under the stamp it was armed with |
| SessionSafety.CheckoutInvStep | crates/zg-server/src/read_session_cache.rs:246-331 | every section keeps: reader count is 0 or 1 and is the number of checkouts, a checkout means an empty slot and a recorded epoch, only the holder of the open turn opens, and the turn is never left behind |
| SessionSafety.HandlesConserved | crates/zg-server/src/read_session_cache.rs:209-238 | no step duplicates or drops a handle: what the slot, the mover, the closed and the lost hold together changes only by a fresh open |
| SessionTheorems.OneUsableHandle | crates/zg-server/src/read_session_cache.rs:246-331 | in every reachable state at most one handle is resident or checked out, the reader count is the number of checkouts, and the epoch is set exactly while there is one |
| SessionTheorems.RestoreNeverDisplaces | crates/zg-server/src/read_session_cache.rs:350-382 | in every reachable state a restore finds a positive reader count and an empty slot |
| SessionOutcomes.ObserveExactly | crates/zg-server/src/read_session_cache.rs:258-277 | in every reachable state a look at the cache fails exactly when it is closed, takes exactly the handle at home, parks exactly while someone has it out, and goes to open one exactly otherwise |
| SessionOutcomes.ObserveTakes | crates/zg-server/src/read_session_cache.rs:262-269 | a look that takes the handle leaves the slot empty and someone with a handle out; any other changes nothing |
| SessionOutcomes.RecheckExactly | crates/zg-server/src/read_session_cache.rs:299-307 | in every reachable state the second look opens exactly when the open cache has no handle and nobody has one out, and gives the turn up otherwise |
| SessionOutcomes.PublishExactly | crates/zg-server/src/read_session_cache.rs:312-331 | in every reachable state a fresh handle is checked out exactly when the cache is still open; then nobody has another and no retire has marked it |
| SessionOutcomes.RestoreReturnsExactly | crates/zg-server/src/read_session_cache.rs:350-377 | in every reachable state a returned handle goes back into the slot exactly when the cache is open and no retire happened while it was in use; otherwise its reader closes it |
| SessionOutcomes.RestoredIsTakenNext | crates/zg-server/src/read_session_cache.rs:376-378 | such a handle is taken by the next reader that looks |
| SessionOutcomes.RetireExactly | crates/zg-server/src/read_session_cache.rs:417-434 | a retire of an open cache empties the slot, has a resident handle closed and marks exactly the handles in use; on a closed cache it does nothing |
| SessionOutcomes.CloseExactly | crates/zg-server/src/read_session_cache.rs:442-458 | the first close empties the slot and wakes everybody before the resident handle is closed; a later one does nothing |
| SessionTheorems.HandleInOnePlace | crates/zg-server/src/read_session_cache.rs:209-238 | every handle ever opened is in exactly one of: the slot, one task, closed once, lost |
| SessionTheorems.ClosedForever | crates/zg-server/src/read_session_cache.rs:358-364 | once closed with an empty slot, closed with an empty slot for the rest of any run |
| SessionTheorems.DrainedMeansReleased | crates/zg-server/src/read_session_cache.rs:312-319 | when every task has finished on a closed cache, each opened handle was closed exactly once or lost |
| SessionTheorems.RetireIsFinal | crates/zg-server/src/read_session_cache.rs:365-372 | a handle resident or checked out when a retire takes effect is never resident and never handed out again |
| SessionTheorems.SameStampMeansQuiet | crates/zg-server/src/read_session_cache.rs:473-483 | an unchanged idle stamp means that no checkout, retire or close happened in between |
| SessionTheorems.EvictionMeansQuiet | crates/zg-server/src/read_session_cache.rs:489-500 | a sleeper that evicts is the installed, un-aborted one and nothing happened since the restore that armed it |
| SessionTheorems.OneLiveSleeper | crates/zg-server/src/read_session_cache.rs:473-486 | at most one un-aborted sleeper exists in any reachable state |
| SessionOutcomes.IdleHandleIsWatched | crates/zg-server/src/read_session_cache.rs:382-384 | in every reachable state a resident handle has an un-aborted sleeper under the current stamp, or a reader that still has to schedule its idle close |
| SessionOutcomes.ArmingInstallsExactly | crates/zg-server/src/read_session_cache.rs:473-489 | with a TTL, a scheduled close installs its sleeper exactly when its stamp is still current, in every reachable state |
| SessionOutcomes.SleeperEvictsExactly | crates/zg-server/src/read_session_cache.rs:489-500 | in every reachable state a sleeper that wakes evicts the handle exactly when its stamp is current, which is exactly when it is the installed one |
| SessionOutcomes.ArmingEvictsExactly | crates/zg-server/src/read_session_cache.rs:461-471 | without a TTL, a scheduled close takes out and closes whatever handle is at home, in every reachable state |
| SessionOutcomes.EagerEndsCold | crates/zg-server/src/read_session_cache.rs:461-471 | without a TTL, no run in which every task has finished leaves a handle in the slot |
| SessionTheorems.NoLostWakeup | crates/zg-server/src/read_session_cache.rs:253-290 | while opens succeed, a reader parked on an open cache has a checkout, an open, an owed notification or a delivered wake-up in progress |
| SessionTheorems.NobodySleepsForever | crates/zg-server/src/read_session_cache.rs:378-398 | while opens succeed, no run reaches a parked reader in a state where nothing can happen any more but new arrivals and the ends of sleeps |
| SessionTheorems.RestExactly | crates/zg-server/src/read_session_cache.rs:295-331 | only sleeps can end exactly when every task has finished, sleeps, or is parked and not notified; in particular nobody queues for a turn that nobody has |
| SessionRescues.StrandedExactly | crates/zg-server/src/read_session_cache.rs:246-398 | in every state the invariants admit, hence at every point of every run, a parked reader stays unnotified in all continuations without new tasks exactly when no task can come to notify somebody: none is on its way to a search or back from one, owes a notification, is about to close the cache, or drops a notified future |
| SessionRescues.FailedOpenStrandsExactly | crates/zg-server/src/read_session_cache.rs:308-312 | a failed open strands a parked reader for all continuations without new tasks exactly when the opener was not itself notified and no other task can come to notify somebody |
| SessionStranding.FailedOpenStrandsAReader | crates/zg-server/src/read_session_cache.rs:308-312 | a reachable state in which everyone has finished but one parked reader on an open cache, who stays parked in all continuations without new tasks |
| ChangeAccumulator.FindAncestor | crates/zg-server/src/change_set.rs:319-331 | the upward walk finds a strict ancestor in the set, or "/" as its own |
| ChangeAccumulator.CollapseInPlace | crates/zg-server/src/change_set.rs:308-316 | dropping covered paths shortest first, with any order among equals, leaves exactly the members with no strict ancestor in the original set, without "/" |
| ChangeAccumulator.ChangeSet.Add | crates/zg-server/src/change_set.rs:119-152 | rejects relative paths; otherwise the value becomes the one whose regions `ChangeRegions.AddGrowsExactly` describes |
| ChangeAccumulator.ChangeSet.RequireFullReconcile | crates/zg-server/src/change_set.rs:156-158 | sets the reconcile flag and nothing else |
| ChangeAccumulator.ChangeSet.Merge | crates/zg-server/src/change_set.rs:161-175 | folds a snapshot in, with the same two shortcuts |
| ChangeAccumulator.ChangeSet.Snapshot | crates/zg-server/src/change_set.rs:179-187 | the collapsed contents, which are also kept |
| ChangeAccumulator.ChangeSet.TakeSnapshot | crates/zg-server/src/change_set.rs:192-199 | the collapsed contents, leaving nothing |
| ChangeAccumulator.ChangeSet.CollapsePaths | crates/zg-server/src/change_set.rs:223-232 | the three filters together are the collapse function |
| ChangeAccumulator.ChangeSet.EnforcePathBudget | crates/zg-server/src/change_set.rs:234-273 | forces a reconcile without a root, otherwise widens until the set fits or stops shrinking; terminates |
| ChangeScopes.CollapseIsNormal | crates/zg-server/src/change_set.rs:223-232 | after a collapse both scope sets are antichains and nothing lies strictly below a scope that covers it |
| ChangeScopes.CollapseIdempotent | crates/zg-server/src/change_set.rs:223-232 | collapsing twice is collapsing once |
| ChangeScopes.CollapseKeepsRegionExactly | crates/zg-server/src/change_set.rs:308-331 | the covered region is unchanged exactly when a full reconcile is due or neither scope set contains "/" |
| ChangeSets.EnforceKeeps | crates/zg-server/src/change_set.rs:234-273 | widening stays inside the root, never forces a reconcile on a rooted set and uncovers nothing |
| ChangeSets.AddCovers | crates/zg-server/src/change_set.rs:119-152 | recording an event covers its path and uncovers nothing |
| ChangeSets.MergeCovers | crates/zg-server/src/change_set.rs:161-175 | a merge covers what either side covered |
| ChangeRegions.AddGrowsExactly | crates/zg-server/src/change_set.rs:137-150 | an event about an uncovered path adds one scope, and the three regions grow by exactly what it reports: everything at or below the directory of an ignore file, or of the directory, to be looked at again; everything at or below a deletion; one touched file; the result is widened exactly when it does not fit |
| ChangeRegions.AddChangesNothingExactly | crates/zg-server/src/change_set.rs:129-136 | below the budget, an event changes nothing exactly when a full reconcile with paths is pending, a recorded directory or deletion covers it, or it touches a file that is recorded |
| ChangeRegions.MergeGrowsExactly | crates/zg-server/src/change_set.rs:161-175 | a merge joins the three regions and the flags; the result is widened exactly when no reconcile is due and it does not fit; it does nothing when a full reconcile with paths is pending |
| ChangeRegions.IgnoreFileRescansExactly | crates/zg-server/src/change_set.rs:132-140 | after an event about an ignore file its whole directory is covered exactly when it was so before, or no scope of the ignore file's own path was recorded |
| ChangeRegions.IgnoreDirectoryHidesIgnoreFile | crates/zg-server/src/change_set.rs:132-140 | a witness: two events after which the directory of an ignore file is not covered |
| ChangeRegions.IgnoreFilesReachTheirDirectory | crates/zg-server/src/change_set.rs:119-273 | as long as no directory is called like an ignore file, an event about one gets its whole directory covered until the next drain, whatever happens in between |
| ChangeRegions.WidenStopsFirst | crates/zg-server/src/change_set.rs:257-272 | widening stops after the first round that fits or does not shrink the set |
| ChangeRegions.EnforceRegionExactly | crates/zg-server/src/change_set.rs:234-273 | a rooted set that is over budget after collapsing keeps directories only, each recorded directory so many levels up, each file and deletion one more, none above the root |
| ChangeSets.NothingIsLost | crates/zg-server/src/change_set.rs:119-273 | between two drains, after any mixture of events, merges, collapses and widenings, everything reported, for a directory or a deletion everything at or below it, and everything covered before is covered |
| ChangeSets.EnforceCoversExactly | crates/zg-server/src/change_set.rs:234-273 | while neither scope set contains "/", a covered path, inside the root or not, is still covered after the budget check exactly when a reconcile is due, the path is under the root, collapsing is enough, or a directory recorded before covers it and widening the other scopes is enough |
| ChangeSets.AddCoversExactly | crates/zg-server/src/change_set.rs:119-152 | after an event, its path and every path covered before are covered exactly when the event added nothing or the path survives the budget check |
| ChangeSets.OutsideRootIsLost | crates/zg-server/src/change_set.rs:335-344 | a witness: a file outside the root is widened to the root and no longer covered |
| ChangeSets.WidenFitsOrStalls | crates/zg-server/src/change_set.rs:257-272 | widening ends with a set that fits, or after a round that began over budget and did not shrink the set |
| ChangeSets.WideningStopsTooSoon | crates/zg-server/src/change_set.rs:257-272 | a witness: two directories stay over a budget of two although one more round would make them one |
| Revisions.RootRuntime.MarkDirty | crates/zg-server/src/root_runtime.rs:159-162 | the next dirty revision, saturating |
| Revisions.RootRuntime.MarkIndexed | crates/zg-server/src/root_runtime.rs:165-169 | never moves backwards |
| Revisions.RootRuntime.RequireFullReconciliation | crates/zg-server/src/root_runtime.rs:174-179 | a new epoch, which also blocks the probe unless allowed |
| Revisions.RootRuntime.MarkReconciled | crates/zg-server/src/root_runtime.rs:188-193 | advances the indexed revision and the reconciled epoch, neither backwards |
| Revisions.StaleRevisionNeverDischarges | crates/zg-server/src/root_runtime.rs:159-205 | below saturation a recorded change stays visible until a mark reaches its revision, whatever older marks arrive |
| Revisions.StaleEpochNeverDischarges | crates/zg-server/src/root_runtime.rs:174-199 | a full reconciliation stays owed until a mark reaches its epoch |
| Revisions.DirtyShowsExactly | crates/zg-server/src/root_runtime.rs:76-79 | a new change fails to show exactly when both counters are saturated and nothing else is owed |
| Revisions.CountersSummarise | crates/zg-server/src/root_runtime.rs:159-179 | after any calls the dirty revision and the epoch count the changes and the demands, saturating, and the probe block names the last demand that set it |
| Revisions.DoneIsLargest | crates/zg-server/src/root_runtime.rs:165-193 | the indexed revision and the reconciled epoch are the largest ever reported |
| IndexCoordinators.IndexCoordinator.HasPending | crates/zg-server/src/index_coordinator.rs:96-98 | true exactly when a path is pending or a reconcile is due |
| IndexCoordinators.IndexCoordinator.Enqueue | crates/zg-server/src/index_coordinator.rs:108-151 | merges, bumps the dirty revision, stamps the target; the changes are pending even when the scheduler refuses the job |
| IndexCoordinators.IndexCoordinator.Take | crates/zg-server/src/index_coordinator.rs:129-143 | the first take drains the collapsed set with its target, later takes replay it and drain nothing |
| IndexCoordinators.IndexCoordinator.ApplyFinished | crates/zg-server/src/backend/root_actor.rs:339-374 | the counters become those that `Freshness.FinishMarksExactly` describes |
| Coordination.FirstTakeGetsIt | crates/zg-server/src/index_coordinator.rs:121-143 | an enqueued change stays pending until the first draining take, is covered by exactly that batch, and the batch's revision is at least the one the enqueue was given |
| Coordination.BatchIsFixed | crates/zg-server/src/index_coordinator.rs:129-133 | a job's batch never changes in the rest of any run |
| Coordination.NoChangeIsLost | crates/zg-server/src/index_coordinator.rs:108-151 | in every reachable state each enqueued change is covered by the pending set or by its batch |
| Coordination.ClaimsKeptByOthers | crates/zg-server/src/index_coordinator.rs:108-143 | enqueues, takes, demands and failed runs never make the indexed revision claim too much |
| Coordination.FinishKeepsClaimsExactly | crates/zg-server/src/backend/root_actor.rs:341-364 | a run that ends well keeps the claims true exactly when it was full or everything drained earlier was settled |
| Coordination.ClaimsHoldThroughoutExactly | crates/zg-server/src/backend/root_actor.rs:339-374 | the indexed revision claims too much at no state of a run exactly when each run that ends well in it is full or finds everything drained before its batch settled |
| Coordination.OrderlyFreshMeansIndexed | crates/zg-server/src/root_runtime.rs:203-205 | from the start, in exactly those runs the claims hold throughout, and a root that reads as fresh has indexed every change ever enqueued |
| Coordination.UnsettledShows | crates/zg-server/src/root_runtime.rs:203-205 | while the claims hold, a change that is not settled keeps the root in need of reconciliation |
| Coordination.FailedBatchIsForgotten | crates/zg-server/src/backend/root_actor.rs:365-373 | a reachable state that reads as fresh although the first change was never indexed |
| Coordination.FinishDischargesDemandsExactly | crates/zg-server/src/backend/root_actor.rs:343-345 | a reconciliation stays owed exactly when one was owed and the finished run was not a completed full one |
| Coordination.DemandStaysOwedExactly | crates/zg-server/src/backend/root_actor.rs:339-374 | from any state of a run, a demand that is owed is still owed at the end of any continuation exactly when no full run has completed in it |
| Coordination.DemandDuringRunIsDischarged | crates/zg-server/src/backend/root_actor.rs:343-345 | a reachable state in which the watcher is lost while a full run is under way, and the end of that run leaves nothing owed |
| Freshness.FinishMarksExactly | crates/zg-server/src/backend/root_actor.rs:339-374 | a run moves the indexed revision up to its batch's exactly when it completed, or had nothing to do and was not full; only a completed full run settles the demands raised so far; nothing else changes |
| Freshness.EnqueueShows | crates/zg-server/src/index_coordinator.rs:108-126 | an enqueue gets a new revision that is not indexed yet, and raises a demand that blocks the probe exactly when it forces a reconcile |
| Freshness.LastBatchLeavesExactly | crates/zg-server/src/backend/root_actor.rs:339-374 | from the start, when the run of the last batch ends well, the root needs reconciling exactly when something was enqueued since the take, or a reconcile was owed and the run was not a completed full one |
| Freshness.LastRunFreshens | crates/zg-server/src/root_runtime.rs:203-205 | so it reads as fresh when nothing was enqueued or demanded since the take and the run was full or none was owed |
| Texts.SplitThenJoin | crates/zg-core/src/extraction/text.rs:77 | splitting at newlines and joining gives the text back, and no line holds a newline |
| Texts.LinesStand | crates/zg-core/src/extraction/text.rs:198-207 | lines `i` to `j - 1` stand in the text at the computed start of line `i`, and end the text or are followed by a newline |
| Texts.TrimIsEmptyExactlyWhenBlank | crates/zg-core/src/extraction/text.rs:73 | trimming leaves nothing exactly when every character is whitespace |
| Texts.TrimCutsExactly | crates/zg-core/src/extraction/text.rs:73 | trimming cuts away whitespace at both ends and all of it |
| Chunks.SliceEndIsBest | crates/zg-core/src/extraction/text.rs:242-270 | the cut of an over-long line is the only best-scored break in the last 30% of the window, the latest on a tie, or the whole window when there is none |
| ChunkBreaks.SliceEndsExactly | crates/zg-core/src/extraction/text.rs:242-270 | the cut is behind the last of the strongest characters in the last 30% of the window, sentence ends before clause ends before spaces before joints; the whole window without any |
| Chunks.WindowIsCut | crates/zg-core/src/extraction/text.rs:113-135 | a window of whole lines is the source slice at its byte range with its line numbers |
| Chunks.PieceIsCut | crates/zg-core/src/extraction/text.rs:173-189 | a slice of one line is the source slice at its byte range with its line number |
| Chunks.WindowEndIsGreedy | crates/zg-core/src/extraction/text.rs:99-111 | a window takes at least one line, fits, and could not take one more |
| TextChunks.ResolveOptions | crates/zg-core/src/extraction/text.rs:272-295 | usable limits have a smaller overlap; with the defaults of 3600 and 540, giving only a size needs more than 540 and giving only an overlap needs less than 3600 |
| TextChunks.ResolvesExactly | crates/zg-core/src/extraction/text.rs:272-295 | with the defaults of 3600 and 540, which limits are usable and which of the two errors the others give |
| TextChunks.NextStartIsTight | crates/zg-core/src/extraction/text.rs:209-237 | the next window repeats the fewest trailing lines that carry the overlap, none when even all but the first do not |
| TextChunks.ChunksAreFaithful | crates/zg-core/src/extraction/text.rs:72-146 | every chunk is exactly the source at its byte range and at most `maxChars` long, chunks start strictly later one after the other, none is blank, and every character that is not whitespace lies in one |
| ChunkWalks.ChunksFollow | crates/zg-core/src/extraction/text.rs:72-146 | before the blank ones are dropped, the chunks begin with the first line, and each is a slice of an over-long line with the next right behind it, or a greedy window with the next one overlapping it by as few lines as carry the overlap |
| TextChunks.NoChunksExactlyWhenBlank | crates/zg-core/src/extraction/text.rs:73-75 | a text has no chunks exactly when it is blank, with or without the early return |
| TextChunks.NextWindowAddsNothingExactly | crates/zg-core/src/extraction/text.rs:99-143 | a window after an overlap ends where its predecessor ended exactly when the first new line does not fit behind the repeated ones |
| TextChunks.NextWindowCanAddNothing | crates/zg-core/src/extraction/text.rs:99-148 | a witness: three lines whose second window ends where the first one ended |
| TextExtractor.ComputeLineOffsets | crates/zg-core/src/extraction/text.rs:198-207 | the byte offset at which each line starts |
| TextExtractor.FindLineCut | crates/zg-core/src/extraction/text.rs:242-270 | one pass over the scores finds the cut the slices are defined by |
| TextExtractor.SplitLongLine | crates/zg-core/src/extraction/text.rs:152-196 | the cursor loop yields the slices of the line, blank ones left out |
| TextExtractor.ComputeNextStartLine | crates/zg-core/src/extraction/text.rs:209-237 | the backward walk yields the next start |
| TextExtractor.Extract | crates/zg-core/src/extraction/text.rs:72-149 | the loops yield the chunks that `ChunksAreFaithful` is about |
| VectorContent.FitKeepsTheBeginning | crates/zg-core/src/extraction/vector_content.rs:76-86 | a text is unchanged exactly when it fits; otherwise a beginning and "...", missing nothing but whitespace before the limit, or dots alone below three |
| VectorContent.FitIsIdempotent | crates/zg-core/src/extraction/vector_content.rs:76-86 | fitting a fitted text changes nothing, marker and dots included |
| VectorContent.ClampNeverFires | crates/zg-core/src/extraction/vector_content.rs:57-72 | for any budget of at least one the header and its newline leave at least one character, so neither the saturating subtraction nor the lower bound takes effect |
| VectorContent.HeaderAndWindowFit | crates/zg-core/src/extraction/vector_content.rs:31-52 | header, newline and window fit the original budget exactly when the window fits the reduced one |
| VectorContent.UnboundedHeaderIsWhole | crates/zg-core/src/extraction/vector_content.rs:141-158 | without a budget every present metadata line precedes the content |
| VectorContent.HeaderIsAtMostAQuarter | crates/zg-core/src/extraction/vector_content.rs:141-158 | with a budget the header takes at most a quarter of it: whole exactly when it fits, otherwise a beginning and "..." |
| VectorContent.PresentLinesInOrder | crates/zg-core/src/extraction/vector_content.rs:147-153 | the present metadata lines keep their order |
| VectorContent.EmbeddedTextIs | crates/zg-core/src/extraction/vector_content.rs:31-52 | the embedded text is the content behind the header and a newline, and the content alone without present metadata |
| MarkdownHeadings.AtxAcceptsExactly | crates/zg-core/src/extraction/markdown.rs:241-262 | the parser accepts exactly the lines that begin with one to six hashes, whitespace and one more character |
| MarkdownHeadings.AtxTextIsShortestBody | crates/zg-core/src/extraction/markdown.rs:266-283 | the body is the shortest non-empty one that only whitespace and closing hashes follow |
| MarkdownHeadings.UnderlinesAreHarmless | crates/zg-core/src/extraction/markdown.rs:291-293 | a setext underline opens no fence and is no ATX heading |
| MarkdownHeadings.ScanHeadings | crates/zg-core/src/extraction/markdown.rs:175-236 | the one-pass scan with its two-line skip lists the headings that `HeadingLines.ListedExactly` describes |
| MarkdownHeadings.ComputeFenceLines | crates/zg-core/src/extraction/markdown.rs:576-599 | marks exactly the lines inside or closing a fence |
| MarkdownHeadings.HeadingsAreOrdered | crates/zg-core/src/extraction/markdown.rs:175-236 | heading lines increase strictly |
| MarkdownHeadings.HeadingsAreComplete | crates/zg-core/src/extraction/markdown.rs:175-236 | every line that is a heading is listed |
| MarkdownHeadings.NoHeadingIsFenced | crates/zg-core/src/extraction/markdown.rs:184-200 | no listed heading is on a fenced or blank line, and levels are one to six |
| HeadingLines.FencedExactly | crates/zg-core/src/extraction/markdown.rs:576-599 | a line is fenced exactly when an earlier unfenced line opens a fence with three backticks or tildes behind whitespace, and no line in between begins with the same |
| HeadingLines.AtxReadExactly | crates/zg-core/src/extraction/markdown.rs:241-283 | the parser gives level and text exactly as the line reads: one to six hashes, whitespace, and the trimmed shortest body that only whitespace and hashes follow |
| HeadingLines.HashTailExactly | crates/zg-core/src/extraction/markdown.rs:285-288 | such a tail is whitespace, hashes, whitespace |
| HeadingLines.ListedExactly | crates/zg-core/src/extraction/markdown.rs:175-236 | a heading is listed exactly when its line is outside every fence, opens none, does not underline the heading above, and reads as a heading of that level and text |
| HeadingLines.HeadingSaysWhatItIs | crates/zg-core/src/extraction/markdown.rs:205-233 | each listed heading has the level of its hashes and their body as text, or level one above a line of "=", two above a line of "-", and its trimmed line as text |
| MarkdownSections.BuildSections | crates/zg-core/src/extraction/markdown.rs:295-333 | the stack yields for each heading the chain of nearest earlier headings of strictly smaller level |
| MarkdownSections.BreadcrumbsAreShort | crates/zg-core/src/extraction/markdown.rs:315-329 | a breadcrumb has fewer entries than the heading's level |
| MarkdownSections.SectionsPartitionTheLines | crates/zg-core/src/extraction/markdown.rs:302-330 | sections stand on consecutive stretches of lines up to the last one, and what precedes the first is blank |
| MarkdownLabels.BreadcrumbEnclosesExactly | crates/zg-core/src/extraction/markdown.rs:315-329 | a breadcrumb is the titles of exactly the earlier headings that everything since is deeper than, in order |
| MarkdownLabels.SectionsAreExactly | crates/zg-core/src/extraction/markdown.rs:295-333 | one section per heading in order, each up to the next heading or the end, and one in front exactly when a line before the first heading is not blank |
| MarkdownWindows.ChosenBreakIsBest | crates/zg-core/src/extraction/markdown.rs:411-430 | the chosen break is the only one that scores highest, ties going to the greedy end, then to the earliest |
| ChunkBreaks.LineBreakOrderExactly | crates/zg-core/src/extraction/markdown.rs:432-466 | outside fences, breaks before headings beat those behind two blank lines, then behind one, before list items, before quotes, and elsewhere; a fenced line loses to all |
| MarkdownWindows.FencesAreCutOnlyIfUnavoidable | crates/zg-core/src/extraction/markdown.rs:432-442 | a window is cut inside a fence exactly when every line it may be cut at is in one |
| MarkdownWindows.OverlapIsMost | crates/zg-core/src/extraction/markdown.rs:601-625 | the repeated lines fit the overlap, and are half the window or one more would not fit |
| MarkdownWindows.NextWindowStart | crates/zg-core/src/extraction/markdown.rs:396-403 | the next start is past the last one and the guard against standing still never fires |
| MarkdownWindows.SectionWindowsAreGood | crates/zg-core/src/extraction/markdown.rs:335-409 | the windows of a section are exact slices within the limit, start strictly later one after the other and leave out newlines only |
| ChunkWalks.SectionChunksFollow | crates/zg-core/src/extraction/markdown.rs:335-409 | before the blank ones are dropped, the chunks of a section begin with its first line, and each is a slice of an over-long line with the next right behind it, or a greedy window cut at the best break of its last 30%, with the next one repeating as many lines as fit the overlap and half the window |
| MarkdownFragments.FlattenIsGrouped | crates/zg-core/src/extraction/markdown.rs:66-104 | fragments are numbered by their place, and a group is named by an earlier outline with the same metadata whose range contains its members |
| MarkdownLabels.SectionContributes | crates/zg-core/src/extraction/markdown.rs:44-121 | the fragments of a section stand together: its windows in order, and exactly when there are several an outline in front that names their group |
| MarkdownLabels.FragmentsBelong | crates/zg-core/src/extraction/markdown.rs:44-121 | every fragment carries heading, level and scope of a section whose lines it shows; an outline stands for the whole section under its title |
| MarkdownLabels.HeaderNamesTheSection | crates/zg-core/src/extraction/vector_content.rs:131-139 | the header lines name the heading, the level and the scope, as far as there are any |
| MarkdownLabels.ScopeByHead | crates/zg-core/src/extraction/markdown.rs:635-639 | a scope is the titles with "::" between them |
| MarkdownLabels.DecimalReadsBack | crates/zg-core/src/extraction/vector_content.rs:136 | a level is written in decimal digits without a leading zero |
| MarkdownFragments.ExtractionIsFaithful | crates/zg-core/src/extraction/markdown.rs:30-126 | every fragment with its header fits the chunk size, outlines aside it is exactly the source at its byte range and not blank, groups are consistent, and every character of the text that is not whitespace is shown |
| MarkdownFragments.FallbackExactlyWithoutHeadings | crates/zg-core/src/extraction/markdown.rs:41-43 | the plain-text fallback is taken exactly when there is no heading; the check for an empty result never fires |
| MarkdownExtractor.ChooseMarkdownBreak | crates/zg-core/src/extraction/markdown.rs:411-430 | the loop finds the chosen break |
| MarkdownExtractor.ComputeMarkdownOverlapLines | crates/zg-core/src/extraction/markdown.rs:601-625 | the backward loop counts the repeated lines |
| MarkdownExtractor.SplitMarkdownSection | crates/zg-core/src/extraction/markdown.rs:335-409 | the loops yield the windows of a section, blank ones left out |
| MarkdownExtractor.Extract | crates/zg-core/src/extraction/markdown.rs:30-126 | the loops yield the fragments that `ExtractionIsFaithful` is about |
| RootRegistry.RuntimeManager.Look | crates/zg-server/src/runtime_manager.rs:234-247 | refuses when closed, shares a live actor |
| RootRegistry.RuntimeManager.ClaimGeneration | crates/zg-server/src/runtime_manager.rs:251-256 | hands out the next generation |
| RootRegistry.RuntimeManager.Insert | crates/zg-server/src/runtime_manager.rs:281-307 | refuses when closed, keeps a sibling, otherwise registers the newcomer with its alias |
| RootRegistry.RuntimeManager.Unregister | crates/zg-server/src/runtime_manager.rs:173-185 | compare-and-remove on the generation, aliases only with a removal |
| RootRegistry.RuntimeManager.TakeForEviction | crates/zg-server/src/runtime_manager.rs:190-191 | removes whatever is registered |
| RootRegistry.RuntimeManager.Drain | crates/zg-server/src/runtime_manager.rs:211-217 | empties the map and hands back what was in it |
| RegistryRuns.GenerationsAreDistinct | crates/zg-server/src/runtime_manager.rs:248-307 | in every reachable state the generations of registered and in-flight actors are pairwise distinct, and each one handed out is registered, in flight or gone |
| RegistryRuns.LookupsIgnoreAliases | crates/zg-server/src/runtime_manager.rs:198-201 | aliases are always the identity, so dropping the alias of a replacement changes no lookup |
| RegistryRuns.StaleUnregisterIsNoop | crates/zg-server/src/runtime_manager.rs:168-185 | the teardown of an evicted, losing or drained actor changes nothing for the rest of any run |
| RegistryRuns.SpawnReturnsTheRegistered | crates/zg-server/src/runtime_manager.rs:281-307 | a spawn hands out the actor registered for its key at that moment, its own exactly when none was registered and the registry was open; otherwise its own is gone |
| RegistryRuns.LookSharesExactly | crates/zg-server/src/runtime_manager.rs:234-247 | in every reachable state a first look is rejected exactly when the registry is closed, shares exactly the actor registered for the key, and spawns otherwise |
| RegistryRuns.RegistrationMovesExactly | crates/zg-server/src/runtime_manager.rs:173-307 | in every reachable state, what each section does to the registration of any key: an insert fills an empty one, a teardown empties it only under its own generation, an eviction and the drain empty it, nothing else moves it |
| RegistryRuns.AliasMovesExactly | crates/zg-server/src/runtime_manager.rs:173-307 | in every reachable state, which section sets and which takes away the alias of any key |
| RegistryRuns.DrainedStaysEmpty | crates/zg-server/src/runtime_manager.rs:207-218 | once drained the map stays empty even for spawns that race the close, and when none is in flight every generation is gone |
| RegistryRuns.DrainsOnce | crates/zg-server/src/runtime_manager.rs:208-210 | only one call ever drains |
| LineCaches.LoadedLinesRejoin | crates/zg-core/src/lexical/context.rs:128-140 | for every text the loaded lines join to it without the carriage returns that end its lines, save for its last newline; nothing else is lost exactly when no carriage return ends a line |
| LineCaches.LoadedLinesAre | crates/zg-core/src/lexical/context.rs:128-140 | each loaded line is the text's without one carriage return at its end, and the last is left out exactly when nothing remains of it |
| LineCaches.CostIsTextWithoutNewlines | crates/zg-core/src/lexical/context.rs:65-67 | a file costs the bytes of its text without the newlines between its lines |
| LineCaches.LineCache.Touch | crates/zg-core/src/lexical/context.rs:39-45 | moves the file to the recent end, keeping the cache consistent |
| LineCaches.LineCache.EvictToLimits | crates/zg-core/src/lexical/context.rs:47-57 | drops files from the old end until both caps hold; the byte count stays exact |
| LineCaches.LineCache.ReadTextLines | crates/zg-core/src/lexical/context.rs:142-173 | returns what loading returns; the queue is a duplicate-free list of the cached files, the byte count exact, both caps hold, the file just read is cached or in the scratch slot, and the slot changes only to an oversized file that was read |
| LineCaches.TrimmedIsMinimal | crates/zg-core/src/lexical/context.rs:47-57 | eviction drops the shortest prefix that makes the rest fit |
| LineCaches.LastSurvives | crates/zg-core/src/lexical/context.rs:169-172 | the file just inserted survives eviction |
| LineCaches.CacheHoldsTheMostRecent | crates/zg-core/src/lexical/context.rs:142-173 | after any reads the queue is the end of the list of all cacheable files by last use |
| LineCaches.RecencyIsByLastUse | crates/zg-core/src/lexical/context.rs:39-45 | that list holds its files in the order of their last use |
| LineCaches.CapsAre | crates/zg-core/src/lexical/context.rs:16-18 | the cache holds 32 files and 4 MiB, and a file of more is oversized |
| LineCaches.ScratchStaysExactly | crates/zg-core/src/lexical/context.rs:147-168 | a file in the scratch slot stays there through further reads, hits or misses, exactly as long as no other oversized file is read |
| LineCaches.ScratchOutlivesAMiss | crates/zg-core/src/lexical/context.rs:22-26 | a witness: an oversized file is still in the slot after a miss of a small one |
| LineCaches.WindowsSurroundTheMatch | crates/zg-core/src/lexical/context.rs:100-107 | the context window contains the match and reaches exactly as far as asked unless the file ends first |
| LineCaches.NoWindowExactly | crates/zg-core/src/lexical/context.rs:84-107 | a match is left alone exactly when no context is asked for, the file is empty, or the match lies behind its end and nothing before is asked for |
| LexicalSearch.MatchSink.Matched | crates/zg-core/src/lexical/sink.rs:55-111 | one match is kept with the next rank, skipped, or ends the file or the search |
| LexicalSearch.CollectMatches | crates/zg-core/src/lexical/search.rs:166-239 | the limited search returns the first items of the unlimited one and reports truncation exactly when there are more |
| LexicalSearch.EachFileKeepsItsFirst | crates/zg-core/src/lexical/sink.rs:69-75 | each file keeps exactly its first `maxCount` hits, or all when it has fewer |
| LexicalSearch.HitIsKeptExactly | crates/zg-core/src/lexical/sink.rs:69-75 | a hit is kept exactly when fewer than `maxCount` hits of its file come before it, behind what was kept before |
| LexicalSearch.HitStandsInOrder | crates/zg-core/src/lexical/search.rs:166-239 | the hits are exactly the numbered matches, file by file and in their order |
| LexicalSearch.FullFileAddsNothing | crates/zg-core/src/lexical/sink.rs:69-75 | once a file is full, ending it early changes nothing |
| LexicalSearch.LimitedIsPrefix | crates/zg-core/src/lexical/search.rs:231-233 | a larger limit only adds items at the end, and ranks count from one without gaps |
| MarkedBlocks.PutForgets | crates/zg/src/install.rs:926-952 | in a file whose markers are paired, a second block replaces every trace of the first, and removing leaves what was there without a block |
| MarkedBlocks.PutTwiceExactly | crates/zg/src/install.rs:926-938 | putting a proper block twice is putting it once exactly when no start marker stands without an end marker behind it |
| MarkedBlocks.PutMadeBlockTwiceExactly | crates/zg/src/install.rs:926-938 | in a file whose markers are paired it is idempotent exactly when the body does not mention the end marker |
| MarkedBlocks.RemoveRestoresExactly | crates/zg/src/install.rs:940-952 | removing gives the old text with its last line ended exactly when that text had no start marker |
| TomlStrings.QuotedReadsBackExactly | crates/zg/src/install.rs:895-915 | a quoted value reads back as itself exactly when it does not contain U+007F |
| TomlStrings.QuotedHasNoNewline | crates/zg/src/install.rs:895-915 | a quoted value stays on its line |
| TomlStrings.TomlBasicString | crates/zg/src/install.rs:895-915 | the pushing loop yields the quoted value |
| Installers.CodexTwiceExactly | crates/zg/src/install.rs:730-751 | in a file whose markers are paired, a second Codex install with the same options changes nothing exactly when no option value puts the end marker into the block |
| Installers.CodexReinstallForgets | crates/zg/src/install.rs:730-751 | in a file whose markers are paired, a Codex install with other options is as if the first had not happened |
| Installers.CodexUninstallRestoresExactly | crates/zg/src/install.rs:753-764 | when no option value brings the end marker in, Codex install then uninstall restores the text, save for a final newline, exactly when it had no start marker |
| Installers.GrokInstallsOnceAndRestores | crates/zg/src/install.rs:766-825 | the same two laws for Grok's two blocks, also over blocks of an earlier install, in a file whose markers are paired and whose blocks do not overlap |
| BlockPairs.PutTwoTwice | crates/zg/src/install.rs:766-808 | putting two blocks twice is putting them once in every file whose markers are paired and whose blocks do not overlap |
| BlockPairs.PutTwoThenRemove | crates/zg/src/install.rs:810-825 | putting two blocks and removing both leaves what removing them before leaves, save for a final newline, when the old second block begins on a line of its own |
| Installers.InstallCodexText | crates/zg/src/install.rs:730-751 | the text built step by step, or the refusal; when it is refused is `InstallerLaws.CodexRefusesExactly`, what is written `InstallerLaws.CodexWritesExactly` |
| Installers.InstallGrokText | crates/zg/src/install.rs:766-808 | the text built step by step, or the refusal; when it is refused is `InstallerLaws.GrokRefusesExactly`, what follows the server block `InstallerBlocks.GrokPermissionExactly` |
| InstallerLaws.CodexRefusesExactly | crates/zg/src/install.rs:733-742 | Codex refuses exactly when there is no force, the text mentions the server table, and no end marker stands at or behind the first start marker |
| InstallerLaws.GrokRefusesExactly | crates/zg/src/install.rs:769-780 | Grok refuses in exactly the same case |
| InstallerLaws.CodexWritesExactly | crates/zg/src/install.rs:730-764 | the block goes where the old one was, from its start marker to the end of the line of the first end marker behind it, or behind the text on a line of its own; the rest stays, and an uninstall takes exactly the old block out |
| InstallerLaws.ServerTableStandsOnceExactly | crates/zg/src/install.rs:730-751 | without force and without an old block the written text mentions the server table once, in the new block, exactly when no option value mentions it |
| InstallerBlocks.CodexBlockSays | crates/zg/src/install.rs:872-893 | line by line: the markers around the server table with command and arguments or with the address, and the name of the token variable; values read back unless they hold U+007F |
| InstallerBlocks.GrokBlockSays | crates/zg/src/install.rs:828-851 | line by line: the same table, with a longer startup time for a command and the token in a header for an address |
| InstallerBlocks.ListReadsBackExactly | crates/zg/src/install.rs:917-923 | a list of quoted values reads back as itself exactly when no value contains U+007F |
| InstallerBlocks.GrokPermissionExactly | crates/zg/src/install.rs:786-806 | the permission block replaces an old one; without one it is appended exactly when no line of the text begins a permission table in one of the four ways |
| InstallerBlocks.PermissionTableStandsOnce | crates/zg/src/install.rs:783-806 | a file that gets the permission block without having had a permission table has exactly one afterwards |
| Containers.SmallestContaining | crates/zg-core/src/lexical/enrichment.rs:275-294 | the loop yields the choice the lemmas are about |
| Containers.ChosenWithinOneLine | crates/zg-core/src/lexical/enrichment.rs:275-331 | nothing is chosen exactly when nothing covers the match; a chosen span is the smallest or one more |
| Containers.AlwaysLeastExactly | crates/zg-core/src/lexical/enrichment.rs:311-331 | in whatever order the fragments of a list come, the choice is smallest span, then highest specificity, then smallest id, exactly when no fragment one line longer than the smallest is liked better than all of the smallest ones |
| Containers.TieBreakExactly | crates/zg-core/src/lexical/enrichment.rs:352-371 | the tie-break goes by kind, named symbols before anonymous ones and headed sections, these before the rest, then by the dictionary order of the ids |
| Containers.ReplacesExactly | crates/zg-core/src/lexical/enrichment.rs:296-331 | a fragment replaces another exactly when it is two lines shorter, or one line shorter and not liked less, or as long and liked better |
| Containers.LongerSymbolWins | crates/zg-core/src/lexical/enrichment.rs:313-331 | a two-line named symbol is chosen over a one-line chunk |

## Left out

- Future cancellation at any await point other than the modelled drops, panics while closing a handle, scheduling and
  fairness of the runtime. The release of the open turn is one step with the section that ends its use.
- `with_read`, whose body runs inline; only `with_read_blocking` distinguishes a panicking body. The diagnostic
  `last_read_ms` and `snapshot` of the cache.
- Integer widths: counters and indices are unbounded, except `Generation` in `Revisions`, which saturates. The
  registry's `wrapping_add` on generations is assumed not to wrap; spans in `Containers` are assumed to fit an `i64`.
- SessionTheorems.NoLostWakeup: holds while opens succeed, because a failed open does not notify; the exact condition
  after a failed open is `SessionRescues.FailedOpenStrandsExactly`.
- ChangeSets.NothingIsLost: for paths under a root other than "/", because of the two losses listed above;
  `ChangeSets.AddCoversExactly` says what one event does to the others. Of an ignore file it says that its own path is
  covered; `ChangeRegions.IgnoreFilesReachTheirDirectory` adds the directory.
- Path text in the change set: backslashes, trailing slashes, "." and ".." components. Snapshots are sets, not sorted
  lists.
- ChangeSets.EnforceKeeps: no bound on the size of the set, because widening may stop while the set is over budget.
- Coordination and the job scheduler: jobs take and finish in any order; followup chaining, retries and the actor loop
  are not part of this model.
- Markdown and text extraction: file identity checks and entity ids (a fragment's id is its index), metadata lines of
  code fragments, and the code extractors. `FindLineCut` takes the line and a position instead of a slice of it.
- MarkdownExtractor.Extract: takes resolved limits; the resolution of options is that of `TextChunks.ResolveOptions`.
- Registry: the actors themselves, joins and aborts; only which generation is registered, in flight or gone.
- Line cache: file contents do not change during a search, as the source assumes for its cache; lossy UTF-8 decoding and
  UTF-16 columns.
- Lexical search: matching, filters, walking and per-file errors; a file's matches are given.
- Installers: file access, the JSON installers and the other targets. Option values are given as they reach the block.
- Installers.GrokInstallsOnceAndRestores: for option values that mention no marker. The restore law asks that an old
  permission block begin on a line of its own, because cutting one out of a line can join its ends into a marker.
- Container choice: parsing the file into fragments and the enrichment loop around the choice.
