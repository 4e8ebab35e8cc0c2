# Stoker operator: a verified model of the sync engine, the agent and the reconciler

Stoker keeps the data directory of Ignition gateways equal to files in a git repository. A controller
resolves a git ref and publishes it in a metadata ConfigMap. An agent beside each gateway fetches that
commit, overlays an ordered list of mappings into a staging directory, merges staging into the live
directory and deletes what the mappings no longer supply. Agents report into one shared status ConfigMap.

This project models those three parts in Dafny and proves what they promise. `dafny verify dfyconfig.toml`
checks everything.

## How it is laid out

| file | part of the system |
|---|---|
| `Options.dfy`, `Paths.dfy`, `FileTree.dfy`, `Walk.dfy` | paths as strings and as segments, directory trees, `copyFile`, `filepath.WalkDir` |
| `Excludes.dfy`, `Staging.dfy`, `Overlay.dfy` | exclude lists, staging of one mapping, the overlay of all mappings |
| `Effects.dfy` | what a run does to live as plain set and map expressions, and the laws of that effect |
| `Merge.dfy`, `OrphanWalk.dfy`, `Engine.dfy` | merge, the pruned orphan walk, the dry-run walks, `ExecutePlan` |
| `Protection.dfy` | which files exclude patterns, protected patterns and managed roots keep safe |
| `AgentLoop.dfy`, `Triggers.dfy` | the trigger loop and what it records, what each event does |
| `StaleRecord.dfy`, `Backoff.dfy` | when the record is wrong, backoff arithmetic |
| `StatusMap.dfy`, `Watcher.dfy` | the status ConfigMap protocol, the watcher's one-slot channels |
| `Conditions.dfy`, `RefCache.dfy`, `Readiness.dfy` | condition list, ref cache over runs, when Ready can be trusted |
| `Reconciler.dfy`, `RoleBinding.dfy` | `Reconcile`, RoleBinding convergence |

A directory tree is a finite map from paths to files, directories and links. The file system is an object
(`FileTree.Disk`) whose two fields, live and staging, the engine's methods reassign. Staging lies inside
live at `.sync-staging`; the fixed exclude pattern keeps every walk out of it, which is why the two are
separate fields, and its presence is why the live root is never found empty. A walk is a worklist in any
visiting order, so the results hold for the lexical order of `WalkDir`. Glob matching, SHA-256 (injective on
contents of equal size), templating and patching, profile parsing and plan building are function
parameters. Git, Kubernetes, designer sessions and clocks are inputs of a step. Engine runs are serial, and
nothing else writes managed live files between them.

## What comes out

The central statements hold for every plan, tree, interleaving or run. Where a promise fails, the model
keeps the code as it is, exhibits the failure and states exactly when the promise holds.

- A destination manages paths exactly when it is spelt canonically (`Paths.RootMatchesIffCanonical`). The
  quickstart's `projects/` therefore never deletes an orphan (`Engine.SlashDestinationsDeleteNothing`);
  `Engine.DeletesIff` says exactly which paths a plan can delete.
- A mapping with a missing source aborts the run, with live untouched, although the reference calls it
  skipped (`Engine.BrokenSourceAborts`).
- The exclude test of a file mapping sees the raw destination, so `a//b` gets past an exclude of `a/b`
  (`Protection.StagedDespiteExclude`). Canonical destinations are exactly those for which no rules can be
  got past (`Protection.FileMappingObeysIff`).
- Staging tests only the parts of a path below the destination, cleanup tests all of them. Excluding a
  directory therefore does not keep a mapping to it from overwriting the files below
  (`Protection.StagedBelowExcluded`); `Protection.ObeysIff` gives the exact condition on destination and
  rules, and under it no file below an excluded or protected directory changes
  (`Protection.BlockedUntouched`).
- One run may remove a directory that staging holds empty (`Effects.FirstRunMayDropStagedDirectory`), so
  idempotence is about files; `Effects.FirstRunIsFixedPointIff` says exactly when one run already settles
  the whole tree, and the second run always does.
- The record of the last sync matches what the engine used if and only if the event that last changed it was
  steady: the two metadata reads agreed, and a post-commission sync found the checkout and profiles it
  assumes (`AgentLoop.RecordDescribesLive`). `StaleRecord.StaleRun` is a run that leaves a wrong record.
- The agent's 64-bit shift gives the intended delay exactly at the counts of `Backoff.Harmless`; at the
  30th consecutive failure the delay is negative and from the 55th on it is zero.
- The ref cache is keyed by ref alone, so a repository change within the polling interval publishes a
  commit of the old repository (`RefCache.CacheIgnoresRepo`), and so does going back to an earlier one
  (`RefCache.ReturningRepo`). When answers tell repositories apart, the commit is right exactly if the
  reconcile that obtained it had the same repository (`RefCache.RepoIff`).
- A failed ref resolution leaves an older Ready condition in place (`Reconciler.ReadyOutlivesFailure`).
  `Readiness.ReadyLiesIff` says exactly when, over a whole run, Ready claims more than its conditions.
- A missing API key is noticed after the failure count was cleared, so it is always the first failure and its
  retries never slow down (`Reconciler.GatewaySyncReconciler.Reconcile`).
- Subject kind and namespace are not compared, so a RoleBinding with the right names is never repaired
  (`RoleBinding.Converges`).

## Model

| member | source | states |
|---|---|---|
| Paths.IsUnderManagedRoot | internal/syncengine/plan.go:241-249 | true exactly when some root equals the path or is a string prefix of it up to a slash |
| Paths.IsAncestorOfManagedRoot | internal/syncengine/plan.go:255-263 | true exactly when the path followed by a slash is a string prefix of some root |
| Paths.UnderRootIsPrefix | internal/syncengine/plan.go:241-249 | the raw string test holds of a path exactly when one of its segment prefixes is spelt as the root |
| Paths.ManagedIsUnder | internal/syncengine/plan.go:241-249 | the segment notion of managed used in all results coincides with the string loop |
| Paths.AncestorsOfManaged | internal/syncengine/plan.go:346-357 | every directory on the way to a managed path is managed or an ancestor of a root, so pruning loses nothing |
| Paths.AncestorIsPrefix | internal/syncengine/plan.go:255-263 | among paths as the file system spells them, the ancestor test is the proper-prefix order |
| Paths.RootMatchesIffCanonical | internal/syncengine/plan.go:230-249 | a raw destination matches some path if and only if it is canonical |
| Paths.CanonicalIffClean | internal/syncengine/plan.go:230-236 | among accepted destinations the canonical ones are the fixed points of Clean other than the dot |
| Paths.SlashRootsMatchNothing | internal/syncengine/plan.go:241-249 | a root ending in a slash, the dot and the empty root match no path |
| Paths.AgentAcceptsIff | internal/agent/profile.go:92-101 | a path is accepted exactly when it is relative and cleans to proper names; the third string test is implied by the second |
| Paths.AcceptsIffNeverAbove | internal/agent/profile.go:92-101 | a path is accepted if and only if it does not start with a slash and, read part by part, never climbs above where it started |
| Paths.CleanRules | internal/agent/profile.go:96 | the documented rules of Clean: empty parts, dots and a name followed by `..` vanish anywhere, leading `..` of a rooted path vanish |
| Paths.CleanKeeps | internal/agent/profile.go:96 | what those rules leave, leading `..` and then proper names, is left as it is |
| Paths.JoinStaysBelow | internal/agent/profile.go:161 | joining an accepted path to any root yields the root's segments followed by the path's own |
| Paths.ControllerImpliesAgent | internal/controller/gatewaysync_controller.go:369-382 | whatever the controller's component test accepts, the agent's cleaned test accepts |
| Paths.ControllerAcceptsIff | internal/controller/gatewaysync_controller.go:369-382 | for every list of parts the controller accepts their joined path exactly when no part is `..` and the path is relative |
| Paths.RenderSplit | internal/controller/gatewaysync_controller.go:369-382 | splitting at slashes and joining with slashes are inverse to each other |
| FileTree.CopyFile | internal/syncengine/copy.go:14-47 | same result with and without the equal-content fast path; fails exactly on a file or directory in the way; written exactly when the content differed |
| Excludes.ShouldExclude | internal/syncengine/exclude.go:44-56 | true exactly when some pattern of the list matches |
| Excludes.IsProtected | internal/syncengine/exclude.go:59-68 | true exactly when a protected pattern matches |
| Excludes.MergeExcludes | internal/syncengine/exclude.go:22-41 | the result is the first occurrences of the trimmed non-empty user patterns followed by the fixed ones |
| Excludes.DistinctMeaning | internal/syncengine/exclude.go:22-41 | keeping first occurrences preserves the elements, leaves no duplicates and keeps first-occurrence order |
| Excludes.MergePreservesMatching | internal/syncengine/exclude.go:22-56 | a path matches the merged list exactly when it matches a trimmed non-empty user pattern or a fixed one |
| Excludes.TrimMeaning | internal/syncengine/exclude.go:27 | trimming takes off white space at both ends, and all of it |
| Excludes.TrimmedConcat | internal/syncengine/exclude.go:26-33 | user patterns are trimmed one by one in their order |
| Staging.JoinedPath | internal/syncengine/plan.go:171-173 | the staged path of a source entry is the cleaned destination followed by the entry's relative path |
| Staging.StageSingleFile | internal/syncengine/plan.go:119-148 | succeeds exactly when the mapping is stageable and compatible with staging, and then puts the mapping's layer on top |
| Staging.StageDirectory | internal/syncengine/plan.go:154-216 | the same for a directory mapping; a missing source is an error |
| Staging.StageTree | internal/syncengine/plan.go:155-214 | the walk with skipped subtrees stages exactly the entries none of whose parts below the source is skipped |
| Overlay.BuildStaging | internal/syncengine/plan.go:54-75 | whatever staging held before, succeeds exactly when every mapping is stageable and no two layers clash, and leaves the overlay |
| Overlay.OrderedOverlay | internal/syncengine/plan.go:65-75 | the staged files are those some mapping supplies, each holding what the last supplier makes of its source file |
| Overlay.StagedContent | internal/syncengine/plan.go:118-216 | a staged file holds what the last supplier's transformation makes of the source's own content at the matching place |
| Overlay.LayerDirs | internal/syncengine/plan.go:188-200 | a mapping stages exactly the directories it supplies, empty ones included, and the parents of what it supplies |
| Overlay.StagingFailsIff | internal/syncengine/plan.go:65-75 | staging fails if and only if a directory source is missing, an unskipped file source is no file or has no place, a transformation fails, or one mapping supplies a file where another needs a directory |
| Overlay.LayerFiles | internal/syncengine/plan.go:154-216 | a directory mapping supplies a path exactly when its source has the file and nothing on the way is skipped |
| Overlay.OverlaidWellFormed | internal/syncengine/plan.go:188-196 | the staging tree is well formed and holds no links |
| Protection.StagedIsNotSkipped | internal/syncengine/plan.go:120-186 | a path supplied by a directory mapping, or by a file mapping with a canonical destination, is not itself excluded or protected |
| Protection.FileMappingObeysIff | internal/syncengine/plan.go:119-123 | a file mapping's destination is canonical if and only if no rules whatever let it stage a path they skip |
| Protection.SkippedStagedIff | internal/syncengine/plan.go:119-186 | an excluded or protected path is in staging exactly when some file mapping denotes it under a spelling that is not skipped; with canonical file destinations never |
| Protection.StagedDespiteExclude | internal/syncengine/plan.go:120-123 | the input `a//b` under an exclude of `a/b`: an excluded path that is staged |
| Protection.StagedIff | internal/syncengine/plan.go:155-186 | a file is staged exactly when some mapping has it and every skipped part of its path lies at or above that mapping's destination |
| Protection.ObeysIff | internal/syncengine/plan.go:155-186 | a condition on destination and rules alone holds if and only if no mapping with that destination, whatever its source, stages a path with a skipped part |
| Protection.StagedBelowExcluded | internal/syncengine/plan.go:163-186 | for every destination, excluding exactly that directory leaves a canonical mapping to it staging the files below |
| Protection.FrameIff | internal/syncengine/plan.go:332-357 | an unmanaged, excluded or protected file survives every run with a given staging tree unchanged if and only if staging does not hold it |
| Protection.BlockedSurvivesIff | internal/syncengine/plan.go:167-186 | for a plan: a path with a skipped part is safe in every live tree if and only if no mapping supplies it |
| Protection.FateOfBlocked | internal/syncengine/plan.go:90-105 | a live file with a skipped part is never deleted, keeps its content unless supplied, and otherwise gets what the last supplier produces |
| Protection.SkippedUntouched | internal/syncengine/plan.go:90-105 | with canonical file mappings a live run leaves every excluded or protected file as it was |
| Protection.BlockedUntouched | internal/syncengine/plan.go:332-344 | with destinations that obey the rules a live run leaves every file below an excluded or protected directory as it was |
| Protection.StagedIsManagedIff | internal/syncengine/plan.go:230-249 | what a mapping stages is managed through its own destination if and only if that is canonical |
| Effects.EffectOnFiles | internal/syncengine/plan.go:90-105 | the files after a live run are the old ones minus the orphans, overridden by staging |
| Effects.ManagedMirrorsStaging | internal/syncengine/plan.go:90-105 | managed paths that are not excluded or protected hold exactly what staging holds |
| Effects.UnmanagedUntouched | internal/syncengine/plan.go:332-357 | files staging does not hold that are unmanaged, excluded or protected, and such links, are unchanged; Protection.FrameIff and Protection.StagedIff say exactly when staging holds one |
| Effects.OrphansBeforeMerge | internal/syncengine/plan.go:92-104 | the orphans found after merging are the orphans of the old live tree |
| Effects.DryRunPredicts | internal/syncengine/plan.go:394-477 | the dry run's three sets are exactly what a live run adds, rewrites and removes |
| Effects.Conservation | internal/syncengine/plan.go:91-104 | file count after equals file count before plus added minus deleted |
| Effects.Idempotence | internal/syncengine/plan.go:91-104 | a second run goes through, has nothing to add, modify or delete, and changes no file |
| Effects.SecondRunIsFixedPoint | internal/syncengine/plan.go:370-385 | from the second run on the whole tree, directories included, no longer changes |
| Effects.FirstRunIsFixedPointIff | internal/syncengine/plan.go:370-385 | one run is a fixed point of the whole tree if and only if no managed staged directory held only orphans in live with nothing new staged below |
| Effects.FirstRunMayDropStagedDirectory | internal/syncengine/plan.go:370-385 | an input where it is not: the first run removes a directory that staging holds |
| Effects.RemovedDirectoriesAreSafe | internal/syncengine/plan.go:370-385 | removed directories are managed, nothing surviving lies below them and none held a staged, excluded or protected file |
| Effects.NoEmptyDirectoryLeft | internal/syncengine/plan.go:370-385 | no managed directory that lost an orphan is left empty |
| Effects.FileInTheWay | internal/syncengine/plan.go:397-424 | a file where a directory is needed is not missing: below it a staged file counts as modified and a live file is no orphan |
| Effects.EffectWellFormed | internal/syncengine/plan.go:310-391 | the live tree stays well formed through merge and cleanup |
| Merge.MergeEntry | internal/syncengine/plan.go:275-304 | one staging entry is merged unless file and directory clash, and is counted as added or modified exactly when it is |
| Merge.MergeStagingToLive | internal/syncengine/plan.go:266-307 | succeeds exactly when staging and live are compatible, then live is live overridden by staging with exact counts; a failure leaves a partial merge that deletes nothing |
| OrphanWalk.Inspect | internal/syncengine/plan.go:332-361 | a directory is entered and a file considered exactly under the stated tests, links never |
| OrphanWalk.CandidatesReached | internal/syncengine/plan.go:346-361 | a managed file is reached by the pruned walk and not skipped exactly when no part of its path is skipped |
| OrphanWalk.RemoveOrphan | internal/syncengine/plan.go:366-385 | after deleting one more orphan the directories removed are exactly those whose whole content is gone |
| OrphanWalk.CleanOrphans | internal/syncengine/plan.go:310-391 | deletes exactly the orphans and exactly the managed directories they leave empty, and counts the orphans |
| OrphanWalk.ListingUntouched | internal/syncengine/plan.go:313-319 | deletions during the walk never affect an entry still to be listed or visited |
| Engine.DiffStaged | internal/syncengine/plan.go:397-424 | lists the added and the modified files, each once |
| Engine.DiffOrphans | internal/syncengine/plan.go:426-476 | lists the orphans, each once |
| Engine.ComputeDryRunDiff | internal/syncengine/plan.go:394-477 | the three lists and their counts, live untouched |
| Engine.ComputeManagedRoots | internal/syncengine/plan.go:230-236 | the roots are the raw destinations |
| Engine.Publish | internal/syncengine/plan.go:91-104 | merge and cleanup together produce the effect and the report, or fail without deleting |
| Engine.ExecutePlan | internal/syncengine/plan.go:48-114 | case by case: staging failure and dry run leave live alone, a live run produces the effect exactly when nothing clashes; old staging has no influence |
| Engine.SucceedsIff | internal/syncengine/plan.go:48-114 | a run succeeds if and only if no mapping is defective, no two clash and, for a live run, nothing staged clashes with live; a dry run leaves live alone |
| Engine.BrokenSourceAborts | internal/syncengine/plan.go:65-75 | a missing source directory, or an unskipped file mapping whose source is no file, aborts the run with live untouched |
| Engine.SkipIff | internal/syncengine/exclude.go:10-68 | a plan skips exactly what matches one of its own trimmed patterns or one of the three fixed ones |
| Engine.DryRunAgreesWithLiveRun | internal/syncengine/plan.go:80-105 | dry run and live run of a plan report the same counts and the dry run's lists are the actual changes |
| Engine.SecondRunChangesNothing | internal/syncengine/plan.go:90-105 | running a plan twice: the second result is 0/0/0 and no file changes |
| Engine.LiveRunConservesCount | internal/syncengine/plan.go:96-104 | reported added and deleted account for the change in the number of files |
| Engine.OutsideDestinations | internal/syncengine/plan.go:224-236 | a file outside every destination is never touched |
| Engine.ManagedIff | internal/syncengine/plan.go:230-249 | a plan manages exactly the paths at or below its canonically spelt destinations |
| Engine.DeletesIff | internal/syncengine/plan.go:310-391 | a path is an orphan for some live and staging tree if and only if no part of it is skipped and it lies at or below a canonical destination |
| Engine.NoCanonicalDeletesNothing | internal/syncengine/plan.go:310-391 | a plan without a canonical destination has no orphans |
| Engine.SlashDestinationsDeleteNothing | internal/syncengine/plan.go:310-391 | in particular one whose destinations end in a slash, are dots or empty |
| AgentLoop.Agent.SyncWithProfile | internal/agent/agent.go:649-707 | one engine step from the second metadata read, with every refusal leaving live alone |
| AgentLoop.Agent.SyncOnce | internal/agent/agent.go:521-645 | records commit and profiles exactly when the engine step succeeded |
| AgentLoop.Agent.HandleSyncTrigger | internal/agent/agent.go:272-379 | one step of the loop: skips, fetch failure with backoff, hold, or sync; the Triggers rows say what each is; in backoff, without metadata or paused nothing changes |
| Triggers.HeldOff | internal/agent/agent.go:275-306 | backoff, an unreadable ConfigMap, a paused CR and an unchanged pair leave the agent as it was |
| Triggers.FetchFails | internal/agent/agent.go:328-340 | a failed fetch adds an error and sets the deadline; live and record stay |
| Triggers.HeldBack | internal/agent/agent.go:345-366 | a missing profile, or designer sessions under an active one, stop the sync after the fetch; only the checkout moves |
| Triggers.Syncs | internal/agent/agent.go:368-379 | every other trigger runs the engine on the fetched commit; success clears the errors and records the pair, failure adds an error and records nothing |
| Triggers.Starts | internal/agent/agent.go:149-157 | the first sync runs the engine on the cloned commit and counts no errors |
| Triggers.Resyncs | internal/agent/agent.go:229-237 | the sync after commissioning runs the engine on what is checked out and records the startup commit and the recorded profiles |
| Triggers.ReachesGoal | internal/agent/agent.go:272-379 | a trigger that asks for work, with agreeing reads and nothing in the way, makes live what the engine builds from the commit and records it; a later trigger with the same pair changes nothing |
| AgentLoop.Agent.InitialSync | internal/agent/agent.go:149-157 | the blocking first sync: records the cloned commit and the profiles read before cloning, counts no errors |
| AgentLoop.Agent.PostCommissionSync | internal/agent/agent.go:209-238 | a sync with the startup commit and the recorded profiles |
| AgentLoop.Agent.Serve | internal/agent/agent.go:149-201 | any finite stretch of events, initial sync included, is a run of the step relation, keeps the invariant, and ends with a record that matches what was used if and only if the last change of the record was steady; then it describes live unless a run was left half done |
| AgentLoop.StepKeepsGood | internal/agent/agent.go:282-379 | every event keeps the invariant; an event that records something leaves a matching record if and only if it was steady |
| AgentLoop.RecordDescribesLive | internal/agent/agent.go:642-707 | at every point of every serial run the record is what the engine last used if and only if the event that last changed it was steady, whatever came before; then live is what the engine builds from it, unless a live run was left half done or the profile is paused or dry-run |
| StaleRecord.MismatchIsStale | internal/agent/agent.go:642-659 | in any state, a record whose plan conflicts with the plan used, on a path both stage or only one does, does not describe live |
| StaleRecord.RunReflectsOtherIff | internal/syncengine/plan.go:90-105 | the tree a run of one plan leaves reflects another plan if and only if the two agree, file by file, on the tree the run started from |
| StaleRecord.DescribesAfterSyncIff | internal/agent/agent.go:642-707 | right after a live sync a record of any commit and active profiles describes live if and only if its plan can be built and staged and agrees with the plan used on the tree before |
| StaleRecord.ConflictIff | internal/syncengine/plan.go:90-105 | for compatible staging trees, conflict on some path is exactly what keeps any live tree from reflecting both |
| StaleRecord.StaleRun | internal/agent/agent.go:302-367 | a world and a one-trigger run, for any two profile strings seen at the two reads, that ends in a wrong record which later triggers with the recorded pair never repair |
| AgentLoop.ThirtiethErrorDoesNotHoldBack | internal/agent/agent.go:370-378 | after the 30th consecutive error the backoff deadline already lies in the past |
| Backoff.FailureCounts.BackoffDelay | internal/controller/gatewaysync_controller.go:296-312 | the capped doubling loop yields min(30 s times 2 to the n-1, 300 s), and 30 s without failures |
| Backoff.FailureCounts.RecordFailure | internal/controller/gatewaysync_controller.go:314-325 | one more failure for the key, other keys unchanged |
| Backoff.FailureCounts.ResetBackoff | internal/controller/gatewaysync_controller.go:327-331 | no failures for the key, other keys unchanged |
| Backoff.IdealMonotone | internal/controller/gatewaysync_controller.go:294-312 | the delay never decreases and stays within 30 s and 300 s |
| Backoff.DocumentedDelays | internal/controller/gatewaysync_controller.go:294-295 | the delays are 30, 60, 120, 240 and then always 300 seconds |
| Backoff.AgentMatchesIdealIff | internal/agent/agent.go:333-336 | the agent's 64-bit shift equals the intended delay if and only if the count is one of those listed |
| Backoff.NoDelayFrom55 | internal/agent/agent.go:333-336 | from the 55th failure on the agent's delay is zero |
| Backoff.NegativeAt30 | internal/agent/agent.go:333-336 | at the 30th failure the agent's delay is negative |
| StatusMap.NoLostUpdate | internal/agent/configmap.go:84-146 | after any interleaving a key is present exactly when written since the last deletion and holds its last written payload |
| StatusMap.GivesUpOnlyWhenOvertaken | internal/agent/configmap.go:93-145 | a call that gave up saw at least three changes by others since it began, one still going has lost fewer than three attempts; a success is in the history |
| StatusMap.RefusalMeansOvertaken | internal/agent/configmap.go:118-141 | a write refused by conflict or existence means some change since its Get |
| StatusMap.CommitCases | internal/agent/configmap.go:103-142 | a vanished object ends the call, a race costs one of three attempts, and otherwise, always when nothing changed since the Get, the payload is written |
| StatusMap.AloneSucceeds | internal/agent/configmap.go:84-146 | an undisturbed call writes its payload from any reachable state |
| StatusMap.ErrorCases | internal/agent/configmap.go:134-140 | after a lost reply the write is there although the call reports an error; after an API error nothing happened |
| StatusMap.StepTouchesOwnKey | internal/agent/configmap.go:130-142 | no step of an agent alters another key |
| StatusMap.StepKeepsInv | internal/agent/configmap.go:84-146 | the protocol invariant holds through every step of every agent, deletion and unrelated write |
| StatusMap.ReplayKeepsLast | internal/agent/configmap.go:130-143 | replaying the history keeps each key's last write since the last deletion |
| StatusMap.WriteStatusConfigMap | internal/agent/configmap.go:84-146 | the retry loop succeeds exactly with its own write as the last change, gives up only after three overtaken attempts, and succeeds if one attempt is undisturbed and nothing is deleted |
| Watcher.ChannelProtocol | internal/agent/watcher.go:36-52 | in every interleaving the blocking send never blocks, and an idle caller with nothing pending means the ticker runs at the last requested period |
| Watcher.PeriodIsLatest | internal/agent/watcher.go:36-40 | the period is the argument of the latest update |
| Watcher.UpdateCases | internal/agent/watcher.go:36-43 | asking for the current period does nothing; asking for another with the channel free sends it |
| Watcher.ChangeTriggersIff | internal/agent/watcher.go:116-122 | of two successive reads the second sets off a sync if and only if the version changed |
| Watcher.OtherwiseQuiet | internal/agent/watcher.go:60-122 | the first read and failed reads trigger nothing, a tick always does, a handler start takes the pending event and needs one |
| Watcher.TriggerReachesHandler | internal/agent/watcher.go:60-66 | after a trigger a handler has started or the event is still pending |
| Watcher.TriggerIsAnswered | internal/agent/watcher.go:60-66 | in every endless run fair to handler start and end each trigger is followed by a handler start |
| Watcher.ChangeIsAnswered | internal/agent/watcher.go:60-122 | in every endless fair run a changed version the poller reads, and every tick, is followed by a handler start |
| Watcher.HandlerAnswersTrigger | internal/agent/watcher.go:60-66 | a pending event stems from a trigger that no handler start has answered |
| Watcher.Channels.UpdatePeriod | internal/agent/watcher.go:36-52 | the new period ends up alone in the channel or in the ticker, whichever of the four gaps the receiver uses |
| Conditions.SetCondition | internal/controller/gatewaysync_controller.go:775-800 | the in-place loop is the recursive upsert |
| Conditions.FindUpsert | internal/controller/gatewaysync_controller.go:786-799 | the updated kind holds the new condition, keeping its transition time exactly when the status did not flip; other kinds are unchanged |
| Conditions.UpsertUnique | internal/controller/gatewaysync_controller.go:786-799 | no kind ever occurs twice |
| Conditions.RunOfUpdates | internal/controller/gatewaysync_controller.go:775-800 | after any sequence of updates each kind carries its last update and the time of its latest flip |
| Conditions.UpdateAllGatewaysSynced | internal/controller/gateway_discovery.go:181-222 | AllGatewaysSynced is True exactly when there are gateways and all are Synced; SidecarInjected exactly when none is missing its sidecar |
| Conditions.UpdateReady | internal/controller/gateway_discovery.go:226-256 | Ready is True exactly when RefResolved, AllGatewaysSynced and ProfilesValid are |
| RefCache.TripleIsGenuine | internal/controller/gatewaysync_controller.go:206-216 | the recorded ref, commit and time always stem from one answer of the remote and are unchanged since |
| RefCache.CacheIsSound | internal/controller/gatewaysync_controller.go:459-500 | every commit a reconcile resolves was answered for the effective ref in it or stamped less than one polling interval before |
| RefCache.SuccessIsRecorded | internal/controller/gatewaysync_controller.go:206-216 | a patched resolution leaves its commit; ref and stamp move exactly with the commit |
| RefCache.FailureDisablesCache | internal/controller/gatewaysync_controller.go:183-203 | after a patched failure the resolution is Error and every query goes to the remote until a status is patched again |
| RefCache.FreshAnswerIsServed | internal/controller/gatewaysync_controller.go:467-475 | a new commit answered for a ref is served to every later query for it within the interval as long as only hits were patched |
| RefCache.SoundForOneRepo | internal/controller/gatewaysync_controller.go:459-500 | if the reconcile that obtained the commit was configured with the same repository, the commit is a recent answer of that repository |
| RefCache.RepoIff | internal/controller/gatewaysync_controller.go:459-500 | when no two repositories gave the same commit for a ref, the commit belongs to the configured repository if and only if the reconcile that obtained it was configured with it |
| RefCache.NewRepoIff | internal/controller/gatewaysync_controller.go:467-475 | a commit the repository has not given before, as when the repository is new to the run, is its answer if and only if the reconcile missed the cache |
| RefCache.HitIgnoresRepo | internal/controller/gatewaysync_controller.go:467-475 | in every run, a reconcile that hits the cache publishes the same commit whatever repository and answer it is given |
| RefCache.CacheIgnoresRepo | internal/controller/gatewaysync_controller.go:467-475 | a run that publishes a commit of the old repository for the new one |
| RefCache.ReturningRepo | internal/controller/gatewaysync_controller.go:467-475 | a run that goes back to an earlier repository and publishes the other one's commit for it |
| Readiness.ReadyLiesIff | internal/controller/gatewaysync_controller.go:182-264 | at any point of any run of reconciles Ready is True without its three conditions if and only if, since Ready was last set True, some reconcile patched the status and all that did failed to resolve the ref |
| Readiness.ExitIff | internal/controller/gatewaysync_controller.go:127-238 | each exit is taken exactly when its own check fails and all earlier ones passed |
| Readiness.DelayAfterFailures | internal/controller/gatewaysync_controller.go:294-325 | after k failing reconciles in a row the requeue delay is 30 s doubled k-1 times, at most 300 s; a missing API key always waits 30 s |
| Readiness.RequeueIsSooner | internal/controller/gatewaysync_controller.go:824-841 | a completed reconcile comes back at the sooner of polling and token refresh |
| Reconciler.GatewaySyncReconciler.Reconcile | internal/controller/gatewaysync_controller.go:85-292 | which exit is taken, the cache step with Error after a failure and the resolved commit otherwise, what is published, the conditions with their reasons and generation, transition times that move exactly with the statuses, that a patched Ready is unfounded exactly when a failed resolution found it True, the failure count of this key and of all others, and the requeue reply |
| Reconciler.ReadyOutlivesFailure | internal/controller/gatewaysync_controller.go:182-204 | two reconciles of a new CR that end with Ready True and RefResolved not True |
| Reconciler.GatewaySyncReconciler.ReconcileAll | internal/controller/gatewaysync_controller.go:85-292 | any stretch of reconciles from a CR without a resolved ref is a run of the cache over the queries that reached it; published metadata always carries a recent answer for the ref it names; at the end Ready is unfounded exactly when it has outlived a failed resolution |
| RoleBinding.CollectServiceAccounts | internal/controller/rbac.go:119-144 | a sorted enumeration without repetition of the accounts of all pods that name the CR, `default` for a pod without one |
| RoleBinding.SubjectsEqual | internal/controller/rbac.go:160-173 | true exactly when the names agree as multisets |
| RoleBinding.SortedUnique | internal/controller/rbac.go:170-172 | sorted lists with the same multiset of names are equal |
| RoleBinding.LeIff | internal/controller/rbac.go:142 | the order of the names is lexicographic |
| RoleBinding.BindingStore.EnsureAgentRoleBinding | internal/controller/rbac.go:36-113 | one step towards ServiceAccount subjects of the CR's namespace for the wanted accounts, `default` when no pod names the CR; a wrong role is removed, and whatever is left has the role stoker-agent |
| RoleBinding.DesiredIsUnique | internal/controller/rbac.go:51-52 | every reconcile of an unchanged pod set builds the same subject list |
| RoleBinding.Converges | internal/controller/rbac.go:92-112 | from any binding at most two reconciles reach the right role and names and nothing changes afterwards |

## Left out

- Engine.ExecutePlan: a live run requires that live has no symbolic link where staging has an entry, because the code then writes through the link; disk errors, file permissions, the list of projects and the duration are not modelled.
- Engine.DiffStaged: the lexical order of the diff lists is not modelled; the same holds for Engine.DiffOrphans.
- OrphanWalk.Inspect: the live run and the dry run repeat this filter in two callbacks; the model shares it and keeps the two walks separate.
- Staging.StageDirectory: a source root that is itself a symbolic link is not modelled; the map of staged files is not either, since nothing reads it.
- Staging.StageSingleFile: what a failed staging leaves in the staging directory is not described, since the next run removes it.
- AgentLoop.Agent.HandleSyncTrigger: status reports, events, metrics, watcher period updates and the polling for designer sessions are not modelled; whether they block is one input.
- AgentLoop.Agent.PostCommissionSync: modelled as serial with the loop, although the code starts it in its own goroutine without a lock.
- AgentLoop.Agent.SyncWithProfile: plan building is a function of profile and checkout, so templates that use the commit or ref variables, and pod labels that change between runs, are not covered; the same holds for AgentLoop.RecordDescribesLive. As in Engine.ExecutePlan, no plan of the world writes where live has a link.
- Conditions.UpdateAllGatewaysSynced: the wording of messages is not modelled; the same holds for Conditions.UpdateReady.
- Reconciler.GatewaySyncReconciler.Reconcile: finalizers, deletion, the SSH host key condition, profile resolution, stale informer reads, the wording of messages and the separate reason for a failed GitHub App exchange are not modelled; the CR read at the start is the one last patched.
- RoleBinding.BindingStore.EnsureAgentRoleBinding: API errors, labels and owner references are not modelled.
- Git operations, GitHub App tokens, the Ignition HTTP client, health and metrics servers: outcomes are inputs where a branch depends on them.
- Sidecar injection, the webhook receiver and its signature check, the Helm chart and the CRD: they would only add easy members.
- Gateway discovery and status collection: their result is an input of a reconcile.
