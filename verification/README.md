# FerrVault operator: a verified model

This Dafny project models the FerrVault Kubernetes operator, in particular the pass that keeps one
`FerrVaultSecret` in step with FerrVault, and proves what the operator promises about it. Around that
core it covers the value pipeline, the content hash, the retry and backoff arithmetic, the OIDC bearer
cache, the quoting of `ferrvault get` and the redaction of the MCP server.

`dafny verify dfyconfig.toml` checks everything.

## The reconcile pass

`ClusterModel` describes a pass as a machine that makes one API call per step: read the resource, reveal,
read the target's hash, persist the pending rollout, read and write the target, read and patch each
workload, persist the status. Every call can succeed, fail without effect, or take effect and report a
failure; a pass can die after any step. The resource is read through a cache, so a pass may start from an
old version of the status, and a status write from an old version is refused as a conflict. `Reconciler`
is the same pass in the form the source has it, a class whose methods update the cluster, with early exits
and a loop over the workloads; each method is proved to do what the machine does, so the theorems about the
machine are theorems about those methods.

The ghost field `served` is the hash the operator last restarted a workload for, or the one a workload was
started from when the target was created. The main results are about runs of any length, with any
faults, deaths, stale reads and any activity of other resources and users:

* `RolloutSafety.NoRolloutIsForgotten`: in every run in which no write that takes effect is a *revert*, each
  listed workload was served the content of the target, or the persisted status makes the next pass due.
  `RolloutSafety.WriteLosesIffReverts` shows that this hypothesis is exact, from any state where none is
  lost; `RolloutSafety.WriteLosesIffLeavesBehind` says from any state at all when a rollout is lost.
* `RolloutSafety.StandingConditionIffCaughtUp`: in every state of every run, reverts or not, the workloads
  were all served the target's content if and only if their markers and the recorded hash show it, and no
  rollout is lost if and only if they do or the next pass is due.
* `RestartOnce.RestartsAreSeparatedByChanges`: two successive restarts of one workload by one resource are
  for different contents, and the target was written with the newer one in between.
* `TargetSafety.TargetIsNeverTorn`: the target holds the transform of one single answer under the hash of
  that data, and an existing target is replaced by complete answers only.
* `Interleaving.FleetForgetsNothing` and `Interleaving.FleetRestartsOnce`: both safety results for any
  number of resources whose passes interleave call by call and share workloads.
* `Convergence.OnePassConverges`, `Convergence.PassesStayQuiet` and `Convergence.PassServesAllIffNoneLeft`:
  one pass without faults brings target, recorded hash and status up to date, and the passes after it write
  nothing but status. From any state of any run, such a pass leaves no workload behind exactly when the
  baseline it goes by is not the new hash, the target is new, or no workload carries another marker. From
  one where no rollout is lost, a workload is left behind exactly when the pass was a revert
  (`Convergence.PassServesAllIffNoRevert`).

`Statuses` says what every exit of a pass persists, reason by reason: `Statuses.EveryStatusWrite` for every
run, and `Statuses.RefusedPass`, `Statuses.RejectedAnswerPass` and `Statuses.RefusedTargetPass` for whole
passes. `Convergence.PassPatchesExactly`, `TargetSafety.RefusedExactly` and `TargetSafety.WrittenExactly`
say exactly what a pass makes of pod templates and of the target.

## Where the code does less than it says

* A rollout that is pending is lost when the content returns to the persisted baseline: the workloads
  already restarted for the content in between are not restarted back, and the pass reports
  `RolloutRestarted=True`. `RolloutGaps.RevertLosesRollout` derives this for every such situation, and
  `RolloutGaps.RevertHappens` gives one. It is not made good either: no later pass without faults that finds
  that content restarts anything, though none of them is a revert (`RolloutGaps.RevertStaysLost`, with
  `RolloutGaps.RepeatAfterRevertHappens` as the instance). `Convergence.PassServesAllIffNoneLeft` says
  exactly when a pass leaves a workload behind, these included.
* `README.md:162` of the repository describes `RolloutRestarted=False` as what a resource carries until a
  restart that failed went through. A restart that never began does not show there, in two ways. A pass
  writes new content and dies, and the next pass cannot reach FerrVault and persists the condition as it
  read it (`RolloutGaps.UpToDateConditionGoesStale`). Or, in one pass that reaches FerrVault, the write of
  the target takes effect but reports a failure, and the failure exit persists the condition as it read it
  (`RolloutGaps.AppliedWriteGoesStale`). Both leave `RolloutRestarted=True` standing with every restart
  pending, and `RolloutGaps.StaleConditionHappens` gives a cluster where they start. The revert is a third
  way, where the last step of a pass persists it. Whichever step persists it and whatever happened before,
  the condition is true if and only if each listed workload carries the marker of the target's hash, or no
  marker while no other hash is recorded (`RolloutSafety.UpToDateIffCaughtUp`). While no rollout is lost,
  only a failure exit can persist a false one (`RolloutSafety.UpToDateUnlessFailed`).
* An incomplete answer writes no data but is recorded as having observed the current generation
  (`Convergence.IncompleteAnswerWritesNothing`).
* Two leaves of one JSON document whose upper-cased paths join to the same name overwrite each other
  silently; only a clash with another key of the Secret is an error
  (`Flatten.NoLeafLostIffNamesDistinct`, `Flatten.CollidingLeavesOverwrite`).
* Two contents can hash alike once a value contains a NUL (`ContentHash.NulValueIsAmbiguous`); without NUL
  they cannot (`ContentHash.HashIsInjective`).
* `LongestCall` is not a bound for every policy. `Retry.BoundCoversIff` says exactly for which, over all
  attempt counts, jitters and delays of either sign: with at least one attempt, those whose delays, scaled
  up and summed, reach the longest waits they can turn into; without one, only if a send takes no time.
  For non-negative jitter and delays an attempt is all that is needed (`Retry.BoundCoversIffOneAttempt`);
  `Retry.NegativeJitterBreaksBound` and `Retry.NegativeDelayBreaksBound` are policies that fail.
* Redaction can leave a secret in the message. `Redaction.AlwaysGoneIffApart` says exactly which secrets are
  gone from every message under every list: those no placement of the mark `[redacted]` over them agrees
  with. `Redaction.SurvivesIffReassembles` says exactly which survive being redacted on their own.

## Modelling choices

* A Go string is a sequence of bytes, one `char` per byte; a TypeScript string is a sequence of UTF-16 code
  units, one `char` each.
* SHA-256 is a function parameter. The protocol only uses that a digest is not empty; injectivity is
  assumed where it is the point, in `ContentHash.HashIsInjective`. JSON parsing and `strings.ToUpper` are
  parameters as well, and numbers and arrays carry the text the source renders them to.
* `CreateOrUpdate` is a read, a change, and a write only if something changed, refused when the object
  changed in between. `SetControllerReference` adds or refreshes the reference, or refuses.
* Nobody but the operator writes the target during a run, the resources of a fleet have different targets,
  and the spec of a resource does not change. Others may create workloads and edit pod templates, without
  touching the operator's own marker annotations.
* A run starts from a target that is absent, or annotated with the hash every listed workload was served.
* Durations are integers of nanoseconds, and the jitter is computed over `real` with truncation.
* The outcome of a random draw, the clock, and what the network answers are parameters.

## Model

| member | source | states |
|---|---|---|
| RolloutSafety.NoRolloutIsForgotten | internal/controller/ferrvaultsecret_controller.go:189-250 | over every run with arbitrary faults, deaths, stale reads and other actors, provided no write that takes effect is a revert: each listed workload was last restarted for the target's hash, or the persisted hash is set and differs, so the next pass is due |
| RolloutSafety.StartIsSafe | internal/controller/ferrvaultsecret_sync.go:240-256 | the safe states include every start: target absent, or annotated with the hash all workloads were served |
| RolloutSafety.WriteLosesIffReverts | internal/controller/ferrvaultsecret_sync.go:180-186 | from a state where no rollout is lost, a write of the target loses one if and only if it returns to the persisted baseline while a workload is marked with something else |
| RolloutSafety.WriteLosesIffLeavesBehind | internal/controller/ferrvaultsecret_sync.go:180-186 | from any state of any run, a rollout is lost after a write of the target if and only if the written hash is the baseline and a workload is marked with something else |
| RolloutSafety.LeavesBehindIffReverts | internal/controller/ferrvaultsecret_sync.go:180-186 | while no rollout is lost, that happens exactly on a revert |
| RolloutSafety.RunBooked | internal/controller/ferrvaultsecret_sync.go:106-256 | in every run, reverts included, markers tell what each workload was last restarted for and a workload without one runs the baseline |
| RolloutSafety.StepSafe | internal/controller/ferrvaultsecret_sync.go:188-256 | every single call keeps the no-lost-rollout property, whatever its fault, unless it is a write that is a revert |
| RolloutSafety.MoveSafe | internal/controller/ferrvaultsecret_sync.go:106-204 | so does the death of a pass and any change others make to workloads |
| RolloutSafety.UpToDateWhenPersisted | internal/controller/ferrvaultsecret_sync.go:206-223 | while no rollout is lost: when the last step of a pass persists RolloutRestarted=True, all listed workloads were served the target's content and the recorded hash is the target's |
| RolloutSafety.UpToDateIffCaughtUp | internal/controller/ferrvaultsecret_status.go:22-61 | for every status write that leaves RolloutRestarted=True, in any state of any run: all listed workloads were served the target's content if and only if their markers and the recorded hash show it |
| RolloutSafety.UpToDateUnlessFailed | internal/controller/ferrvaultsecret_sync.go:206-223 | while no rollout is lost, the last step of a pass and the recording of a pending rollout persist it only when it is true |
| RolloutSafety.StandingConditionIffCaughtUp | internal/controller/ferrvaultsecret_sync.go:180-223 | in every state of every run, reverts included, all listed workloads were served the target's content if and only if their markers and the recorded hash show it, and no rollout is lost if and only if they do or the next pass is due |
| RolloutSafety.RecordedMeansServed | internal/controller/ferrvaultsecret_sync.go:180-186 | while no rollout is lost: when the recorded hash is empty or the target's, no listed workload is stale |
| RestartOnce.RestartsAreSeparatedByChanges | internal/controller/ferrvaultsecret_sync.go:106-167 | in every run, with retries, duplicate list entries and patches that applied but failed, successive restarts of a workload are for different hashes, and the target was written with the newer one in between |
| RestartOnce.RunTracked | internal/controller/ferrvaultsecret_sync.go:127-150 | the marker of a workload is the hash of its last restart, and every restart is for the hash the target had at that moment |
| Interleaving.FleetForgetsNothing | internal/controller/ferrvaultsecret_sync.go:180-256 | no lost rollout for each of any number of resources whose passes interleave call by call over shared workloads, provided no write of that resource that takes effect is a revert |
| Interleaving.FleetConditionIffCaughtUp | internal/controller/ferrvaultsecret_sync.go:180-223 | in every interleaved history, reverts included, markers and recorded hash show exactly whether a resource's workloads were served and whether a rollout is lost |
| Interleaving.FleetRestartsOnce | internal/controller/ferrvaultsecret_sync.go:106-167 | at most one restart per content change for each resource of such a fleet |
| Interleaving.InterleavingIsRun | internal/controller/ferrvaultsecret_sync.go:106-167 | every interleaved history is, seen from one resource, a legal run of that resource |
| Interleaving.OtherMarkersUndisturbed | internal/controller/ferrvaultsecret_sync.go:124-150 | a step of one resource leaves the marker of every other resource on every workload as it is |
| Coherence.RunCoherent | internal/controller/ferrvaultsecret_controller.go:160-250 | in every run, what a pass carries between calls agrees with the cluster: its data is the transform of one answer, its hash the hash of that data, its previous hash the target's |
| Coherence.StepCoherent | internal/controller/ferrvaultsecret_controller.go:189-250 | each call keeps that agreement, and a rollout hash once persisted is never emptied again |
| Coherence.PassIsRun | internal/controller/ferrvaultsecret_controller.go:58-268 | a whole pass is a run, so all run theorems apply after every pass |
| Coherence.RateLimitedPassStutters | internal/controller/ferrvaultsecret_controller.go:141-148 | a pass whose reveal meets a 429 changes nothing at all, conditions included |
| Coherence.RateLimitedPassesStutter | internal/controller/ferrvaultsecret_controller.go:141-148 | nor does any number of such passes in a row |
| Coherence.FailureExitKeepsOthers | internal/controller/ferrvaultsecret_status.go:14-61 | in every run, a failure exit whose write takes effect persists every condition but Ready, the synced keys and the recorded hash as they stood before, and touches nothing else |
| Statuses.EveryStatusWrite | internal/controller/ferrvaultsecret_status.go:44-61 | in every run, every status write that takes effect: a failure exit says Ready=False, a pass that went through says Synced or MissingKeys and whether the rollout failed, and recording a pending rollout changes nothing but the recorded hash, to the target's |
| Statuses.RefusedPass | internal/controller/ferrvaultsecret_controller.go:97-158 | a pass that cannot ask FerrVault, or whose reveal fails, changes nothing but Ready, to False with the reason of that exit |
| Statuses.RejectedAnswerPass | internal/controller/ferrvaultsecret_controller.go:160-172 | so does a pass whose answer a transform rejects, or that would drop the key of the connection's token |
| Statuses.RefusedTargetPass | internal/controller/ferrvaultsecret_controller.go:198-204 | a pass that meets a Secret that is not its own ends with TargetConflict, one that another object controls with SecretWriteFailed, and neither writes anything but status |
| Statuses.FailedCalls | internal/controller/ferrvaultsecret_controller.go:174-204 | a read or write of the target that fails ends the pass with Ready=False and SecretReadFailed or SecretWriteFailed |
| Statuses.UnrestartableFails | internal/controller/ferrvaultsecret_sync.go:142-156 | a workload that is missing, unreadable, or neither Deployment, StatefulSet nor DaemonSet is left alone and fails the rollout |
| Statuses.ReportedFailuresCount | internal/controller/ferrvaultsecret_sync.go:137-165 | a patch that reports a failure fails the rollout even when it took effect, and a recording that does ends the pass |
| Statuses.OwnTargetIsWritten | internal/controller/ferrvaultsecret_sync.go:26-39 | a Secret with the operator's annotation, owned by this resource, or holding the connection's token is written when no other object controls it |
| Statuses.IncompleteAnswerCreates | internal/controller/ferrvaultsecret_controller.go:174-187 | an incomplete answer creates a target that does not exist, with Ready=False and MissingKeys |
| ClusterModel.StepsRunOut | internal/controller/ferrvaultsecret_controller.go:58-268 | a pass makes a bounded number of calls whatever each of them returns |
| Convergence.OnePassConverges | internal/controller/ferrvaultsecret_controller.go:189-267 | from any state, one fault-free pass leaves the target holding the transformed answer under its hash, the hash recorded, and a status that says so, missing keys included |
| Convergence.QuietPass | internal/controller/ferrvaultsecret_sync.go:62-96 | a pass that finds the same content again writes no Secret and patches no workload |
| Convergence.PassesStayQuiet | internal/controller/ferrvaultsecret_sync.go:188-204 | so do all the passes after it, however many |
| Convergence.PassServesAllIffNoRevert | internal/controller/ferrvaultsecret_sync.go:188-204 | from a state where no rollout is lost, after a fault-free pass every listed workload was served the new content if and only if the pass was not a revert |
| Convergence.PassServesAllIffNoneLeft | internal/controller/ferrvaultsecret_sync.go:188-204 | from any state of any run, it was if and only if the baseline differs from the new hash, the target is new, or no listed workload carries another marker; and that is also when no rollout is lost |
| Convergence.DesiredIsStable | internal/controller/ferrvaultsecret_sync.go:62-92 | what the operator wants of a Secret it wrote is that same Secret, and no later content meets a conflict there |
| Convergence.ControllerIsStable | internal/controller/ferrvaultsecret_sync.go:76-82 | setting the controller reference twice is setting it once, and keeps the references of all others in place |
| Convergence.IncompleteAnswerWritesNothing | internal/controller/ferrvaultsecret_controller.go:174-187 | an answer with missing keys leaves an existing target and all workloads alone, yet the status claims the current generation as observed |
| Convergence.PassResult | internal/controller/ferrvaultsecret_controller.go:189-250 | the stages of a fault-free pass compose: record, write, restart in list order, persist once |
| Convergence.PassPatchesExactly | internal/controller/ferrvaultsecret_sync.go:106-204 | a fault-free pass patches a pod template exactly when its workload is listed, carries another hash or none, and the new hash differs from the recorded one or, with none recorded, from the target's; the patch is the time and this resource's hash and nothing else |
| Convergence.PassRecordsExactly | internal/controller/ferrvaultsecret_sync.go:240-256 | it persists its result, and before it the target's hash as pending exactly when workloads are listed, none is recorded, and there is one that differs |
| Convergence.DueWhenRecordedDiffers | internal/controller/ferrvaultsecret_sync.go:180-186 | the next pass is due exactly when a hash is recorded and is not the target's |
| RolloutGaps.RevertLosesRollout | internal/controller/ferrvaultsecret_sync.go:180-186 | whenever the old content comes back after a pass died before its last call, the next pass leaves every pod template as it is, reports RolloutRestarted=True, and every listed workload stays on content that is gone |
| RolloutGaps.RevertHappens | internal/controller/ferrvaultsecret_sync.go:180-186 | such a situation exists, for any content in between |
| RolloutGaps.RevertStaysLost | internal/controller/ferrvaultsecret_sync.go:188-204 | any number of later passes that find that content restart nothing and leave RolloutRestarted=True over stale workloads, although they are no reverts |
| RolloutGaps.RepeatAfterRevertHappens | internal/controller/ferrvaultsecret_sync.go:188-204 | such a later pass exists |
| RolloutGaps.UpToDateConditionGoesStale | internal/controller/ferrvaultsecret_status.go:22-61 | a failed pass after a pass that died keeps RolloutRestarted=True persisted although no listed workload was served the target's content |
| RolloutGaps.AppliedWriteGoesStale | internal/controller/ferrvaultsecret_controller.go:198-204 | so does one pass alone whose write of the target takes effect and reports a failure |
| RolloutGaps.StaleConditionHappens | internal/controller/ferrvaultsecret_status.go:22-61 | both can begin: after one fault-free pass of a sample cluster, with any new content |
| TargetSafety.TargetIsNeverTorn | internal/controller/ferrvaultsecret_controller.go:99-204 | in every run the target is the one it started with or the transform of one single answer with the hash of that data, and only complete answers replaced an existing target |
| TargetSafety.StepTarget | internal/controller/ferrvaultsecret_sync.go:49-96 | only a write that takes effect changes the target; every other call, failure exits included, leaves it alone |
| TargetSafety.WrittenTargetStaysAdoptable | internal/controller/ferrvaultsecret_sync.go:26-39 | a target the operator wrote once passes the adoption check in every later state |
| TargetSafety.ForeignSecretIsNeverTouched | internal/controller/ferrvaultsecret_sync.go:62-74 | a Secret that lacks the managed-by annotation, has no owner with this resource's UID, and is not the connection's token Secret is unchanged by every run |
| TargetSafety.RefusedExactly | internal/controller/ferrvaultsecret_sync.go:26-39 | exactly when the write of an existing Secret is a TargetConflict, is refused because the first controller is another object, or goes ahead |
| TargetSafety.WrittenExactly | internal/controller/ferrvaultsecret_sync.go:62-92 | what a write makes of the target: type, data, the two annotations with all others kept, and one controller reference with all other owners kept in place |
| TargetSafety.ChangedTargetIsOneTransform | internal/controller/ferrvaultsecret_controller.go:160-204 | in every run a target that changed holds what the transforms make of one answer, annotated with the digest of the canonical bytes of that data |
| TargetSafety.TokenSecretStays | internal/controller/ferrvaultsecret_guard.go:24-30 | in every run the token Secret keeps its key, and once changed is owned by this resource no more |
| TargetSafety.ConnectionTokenIsPreserved | internal/controller/ferrvaultsecret_controller.go:165-172 | when the target is the connection's token Secret, the token key once present stays, the other owners survive in order, and this resource is no owner after a write |
| TargetSafety.OthersSurviveInOrder | internal/controller/ferrvaultsecret_guard.go:51-59 | what is kept are exactly the references of the others, each once, in their order |
| TargetSafety.FilterOwners | internal/controller/ferrvaultsecret_guard.go:51-59 | the loop computes that filtered list |
| Reconciler.Cluster.Reconcile | internal/controller/ferrvaultsecret_controller.go:97-250 | the imperative pass leaves the cluster exactly where the step machine does, for every fault script; a 429 changes nothing but the streak of this resource and asks for a wait of the schedule |
| Reconciler.Cluster.FetchContent | internal/controller/ferrvaultsecret_controller.go:141-172 | the answer of the reveal, transform and token-key guard, with their exits, are the machine's first steps, leave target and workloads alone, and count rate limits |
| Reconciler.Cluster.CountAnswer | internal/controller/ferrvaultsecret_controller.go:141-149 | a 429 lengthens the streak and waits within its slot, any other outcome of the reveal ends the streak, a failure before it does neither |
| Reconciler.Cluster.ReconcileWhileLimited | internal/controller/ferrvaultsecret_controller.go:141-148 | any number of passes in a row that meet a 429 change nothing, and the wait the k-th returns lies in the slot of the k-th delay counted on from the streak before |
| Reconciler.Cluster.GuardMissing | internal/controller/ferrvaultsecret_controller.go:174-187 | the missing-keys guard is the machine's target check |
| Reconciler.Cluster.SyncTarget | internal/controller/ferrvaultsecret_controller.go:189-250 | from reading the hash to the last status write, in the machine's order |
| Reconciler.Cluster.RecordPendingRollout | internal/controller/ferrvaultsecret_sync.go:240-256 | persists the pending rollout exactly when the machine does, and touches nothing else |
| Reconciler.Cluster.TargetContentHash | internal/controller/ferrvaultsecret_sync.go:225-238 | the annotated hash, empty when target or annotation is absent, none when the read fails |
| Reconciler.Cluster.EnsureTargetSecret | internal/controller/ferrvaultsecret_sync.go:49-96 | read, mutate and write-if-changed, with the two failure reasons told apart |
| Reconciler.Cluster.Mutate | internal/controller/ferrvaultsecret_sync.go:67-92 | the field updates in place give the Secret the theorems reason about, or its refusal |
| Reconciler.Cluster.WriteSecret | internal/controller/ferrvaultsecret_sync.go:67-96 | the target is the desired Secret or, on failure only, what it was |
| Reconciler.Cluster.TriggerRollouts | internal/controller/ferrvaultsecret_sync.go:106-167 | tries every listed workload in order, goes on after a failure, and reports whether one failed |
| Reconciler.Cluster.PatchPodTemplate | internal/controller/ferrvaultsecret_sync.go:124-150 | the merge patch of one pod template, or no call at all when it carries the marker already |
| Reconciler.Cluster.RolloutIfDue | internal/controller/ferrvaultsecret_sync.go:188-204 | records the new hash unless a restart failed, and clears it when no workload is listed |
| Reconciler.Cluster.FailReady | internal/controller/ferrvaultsecret_status.go:14-61 | the shared failure exit changes status only |
| Reconciler.Cluster.UpdateStatus | internal/controller/ferrvaultsecret_controller.go:248-250 | a status write takes effect only from the newest version |
| Transforms.ApplyTransforms | internal/controller/transforms.go:63-80 | the loop computes the fold the laws below are about, error index and partial result included |
| Transforms.ApplyOne | internal/controller/transforms.go:82-97 | each transform type runs its own rewrite, an unknown type is an error |
| Transforms.ApplyAffix | internal/controller/transforms.go:99-113 | whatever order the map is visited in, every key gets the affix and keeps its value |
| Transforms.ApplyRename | internal/controller/transforms.go:115-142 | the rename with its three early exits |
| Transforms.ApplyBase64Decode | internal/controller/transforms.go:144-177 | decodes the listed keys in turn, all keys in sorted order when none is listed |
| Transforms.ApplyJsonExpand | internal/controller/transforms.go:179-231 | the expansion, or the right one of its four errors |
| Transforms.AddEntries | internal/controller/transforms.go:221-230 | whatever order the map is visited in, the merge fails exactly when some key is taken |
| Transforms.AffixesExactly | internal/controller/transforms.go:99-113 | a prefix goes before every key, a suffix after it, every value stays with its key, and no entry is lost |
| Transforms.RenamesExactly | internal/controller/transforms.go:115-142 | exactly when a rename is refused and why, when it does nothing, and what it moves otherwise |
| Transforms.NothingToExpand | internal/controller/transforms.go:82-97 | an unknown type is an error, an expansion without key too, and one whose key is missing does nothing |
| Transforms.ExpandFailsExactly | internal/controller/transforms.go:188-230 | exactly when an expansion fails and with which error; it collides when a leaf joins to the name of another key |
| Transforms.DecodesListed | internal/controller/transforms.go:157-175 | a key list decodes each value as often as listed, or fails at a listed key whose decoding does not exist |
| Transforms.ShortLists | internal/controller/transforms.go:63-80 | no transform changes nothing; a single one is applied, or stops at index 0 |
| Transforms.AffixedIsUnique | internal/controller/transforms.go:99-113 | renaming each key and carrying its value determines the result |
| Transforms.PipelinesCompose | internal/controller/transforms.go:63-80 | applying ts + us is applying us to the result of ts, with error indices shifted |
| Transforms.ErrorNamesFirstFailure | internal/controller/transforms.go:63-80 | an error names the first transform that fails on what the ones before it produced, and that is the map returned |
| Transforms.RenamingsCarryValues | internal/controller/transforms.go:99-142 | a successful list of prefix, suffix and rename is an injective renaming of keys that carries every value across and adds nothing |
| Transforms.RenamedRenames | internal/controller/transforms.go:115-142 | a successful rename moves one value and loses none |
| Transforms.DecodedAsOftenAsListed | internal/controller/transforms.go:157-175 | each value ends up decoded exactly as often as its key is listed, and the transform fails exactly when one of these decodings does not exist |
| Transforms.EmptyListDecodesEachOnce | internal/controller/transforms.go:147-156 | with no keys listed every value is decoded once, and the transform succeeds iff all values decode |
| Transforms.ExpandKeepsOthers | internal/controller/transforms.go:179-231 | a successful expansion removes its source key, keeps every other key, adds exactly the flattened entries, all below the upper-cased key |
| Flatten.FlatMap.Flatten | internal/controller/transforms.go:237-279 | the recursive walk writes the leaves in sorted depth-first order, whatever order the maps yield |
| Flatten.WalkListsLeaves | internal/controller/transforms.go:237-256 | the walk meets every leaf of the document exactly once, in the order of their paths |
| Flatten.FlattenIsLastWriterWins | internal/controller/transforms.go:252-276 | an entry exists exactly for the names some leaf joins to, and holds the leaf whose path comes last |
| Flatten.EntriesHoldTheirLeaf | internal/controller/transforms.go:252-276 | an entry holds the text of its leaf: text as it is, true, false, nothing for null, numbers and arrays as rendered |
| Flatten.NameEndsWithKey | internal/controller/transforms.go:246-250 | each key on the way adds an underscore and its upper-cased form to the name |
| Flatten.FollowEndsWithKey | internal/controller/transforms.go:237-256 | a path followed one key further looks that key up in the object reached |
| Flatten.NoLeafLostIffNamesDistinct | internal/controller/transforms.go:252-276 | no leaf is lost if and only if no two leaves join to the same name |
| Flatten.CollidingLeavesOverwrite | internal/controller/transforms.go:252-276 | two keys that upper-case alike silently share an entry, the later one winning |
| Flatten.EntriesStartWithPrefix | internal/controller/transforms.go:252-256 | an object only yields names below its prefix and an underscore |
| Base64.DecodeInvertsEncode | internal/controller/transforms.go:163-172 | for both alphabets of RFC 4648, decoding undoes encoding |
| Base64.TryingOrderIsIrrelevant | internal/controller/transforms.go:163-172 | a string both decoders accept means the same bytes, so the order of the fallback does not matter |
| Base64.EitherAlphabetInverts | internal/controller/transforms.go:163-172 | what was encoded under either alphabet comes back through the fallback |
| Base64.EitherIsOneOfBoth | internal/controller/transforms.go:163-172 | the fallback yields exactly what one of the two decoders yields |
| Base64.DecodesExactly | internal/controller/transforms.go:163-172 | which strings decode: groups of four symbols of the alphabet, the last padded by at most two; an unpadded tail does not |
| Base64.LineBreaksAreSkipped | internal/controller/transforms.go:163-172 | line breaks do not matter wherever they stand |
| Base64.GroupsAreBigEndian | internal/controller/transforms.go:163-172 | four symbols are three bytes, most significant bits first |
| Base64.TailsAreBigEndian | internal/controller/transforms.go:163-172 | so with one or two padding characters, the bits left over being dropped |
| Base64.SymbolsInOrder | internal/controller/transforms.go:163-172 | the 64 symbols of sections 4 and 5 of RFC 4648 in their order |
| ContentHash.HashSecretData | internal/controller/shared.go:15-29 | the loop hashes the canonical bytes, independent of map order |
| ContentHash.SerialiseRoundTrips | internal/controller/shared.go:15-29 | the bytes of a NUL-free map can be read back as that map |
| ContentHash.HashIsInjective | internal/controller/shared.go:15-29 | with a collision-free digest, equal hashes of NUL-free maps mean equal maps |
| ContentHash.NulValueIsAmbiguous | internal/controller/shared.go:22-27 | for any two keys there are two different maps with the same bytes once a value may hold a NUL |
| ContentHash.SerialiseFromTheFront | internal/controller/shared.go:22-27 | the bytes are the entry whose key comes first, key and value each followed by a zero byte, and then those of the other entries |
| Strings.SortedListingIsUnique | internal/controller/shared.go:16-21 | a set of keys has one sorted listing, so map iteration order cannot be seen |
| Strings.CollectSorted | internal/controller/shared.go:16-21 | collecting the keys in any order and sorting gives that listing |
| Strings.LessAtFirstDifference | internal/controller/shared.go:16-21 | one key comes before another when at the first place they differ it ends or has the smaller byte |
| Retry.DoWithRetry | internal/ferrvault/client.go:405-459 | every outcome before the last was a transport failure or a 5xx, it goes on after each of those up to the cap and after nothing else, a transport or API error carries the number of sends, a cancellation ends it before the send or within the wait, and the time is that of the sends and waits |
| Retry.DelayFollowsSchedule | internal/ferrvault/client.go:466-487 | the wait after an attempt is its entry of the schedule or the last one, as it is without jitter or at the middle draw |
| Retry.JitteredSays | internal/ferrvault/client.go:484-486 | the draw adds a share of the delay that runs from minus to plus the jitter |
| Retry.TruncDropsFraction | internal/ferrvault/client.go:486 | durations are truncated towards zero |
| Retry.LongestCall | internal/ferrvault/client.go:54-64 | the loop computes the bound the theorems are about |
| Retry.BoundGrowsByOneRetry | internal/ferrvault/client.go:54-64 | one attempt is one request timeout, and each further one adds a timeout and its entry of the schedule at the upper end of the jitter |
| Retry.EndsAddOrDropShare | internal/ferrvault/client.go:54-64 | that end is the delay and the jitter's share of it |
| Retry.TimeIsBounded | internal/ferrvault/client.go:405-487 | for every policy and every environment within the request timeout, sends and jittered waits from any attempt on stay within the longest time |
| Retry.SlowestTakesMost | internal/ferrvault/client.go:405-487 | and some environment takes exactly that long |
| Retry.LongestWaitOccurs | internal/ferrvault/client.go:466-487 | the longest wait of a delay, for jitter and delay of either sign, is one that a draw below one produces |
| Retry.BoundCoversIff | internal/ferrvault/client.go:54-64 | for every policy, the advertised bound covers every call if and only if an attempt is allowed and the scaled delays reach the longest waits, or none is and sends take no time |
| Retry.BoundCoversIffOneAttempt | internal/ferrvault/client.go:54-64 | for non-negative jitter and delays it does if and only if the policy allows an attempt |
| Retry.NegativeJitterBreaksBound | internal/ferrvault/client.go:466-487 | a policy with negative jitter whose bound fails for every request timeout |
| Retry.NegativeDelayBreaksBound | internal/ferrvault/client.go:54-64 | a policy with a negative delay whose bound fails for every request timeout |
| Retry.ValidateReconcileTimeout | cmd/main.go:200-208 | a timeout is accepted iff it is at least 30.625 seconds, and then it covers every call under the default policy |
| RateLimit.RateLimitBackoff.Next | internal/controller/rate_limit_backoff.go:30-51 | the k-th rate limit in a row waits at least half of and less than the k-th delay, and other keys are unaffected |
| RateLimit.RateLimitBackoff.Forget | internal/controller/rate_limit_backoff.go:39-43 | ends the streak of one key and of no other |
| RateLimit.ClampIsInvisible | internal/controller/rate_limit_backoff.go:53-65 | limiting the shift gives min(5s * 2^n, 5min) for every n |
| RateLimit.ScheduleDoubles | internal/controller/rate_limit_backoff.go:53-65 | in nanoseconds: five seconds at first, then twice as long, up to five minutes |
| RateLimit.DelaysNeverShrink | internal/controller/rate_limit_backoff.go:53-65 | delays grow along a streak and are at the cap exactly from the seventh on |
| RateLimit.StreakWalksSchedule | internal/controller/rate_limit_backoff.go:30-37 | a streak, with other keys in between, takes the delays of the schedule one by one |
| RateLimit.ConnectionReconciler.Reconcile | internal/controller/ferrvaultconnection_controller.go:93-118 | a 429 of the probe leaves the condition and its time alone, any other outcome ends the streak and rewrites both unless the status write is lost |
| TokenBroker.Broker.CacheGet | internal/controller/token_broker.go:188-207 | a hit is the latest put not since invalidated with more than 60 s left, a miss means there is none, in any interleaving of the three cache operations |
| TokenBroker.Broker.CachePut | internal/controller/token_broker.go:209-223 | the put becomes the latest for its key |
| TokenBroker.Broker.Invalidate | internal/controller/token_broker.go:228-232 | forgets the bearer of one key |
| TokenBroker.Broker.LoadFromOIDC | internal/controller/token_broker.go:155-186 | returns the cached bearer while it has more than 60 s left, else a fresh one whatever its expiry, and keeps exchanges apart |
| TokenBroker.Broker.TokenFor | internal/controller/token_broker.go:114-132 | exactly one source must be configured, and each behaves as stated |
| TokenBroker.PutKeepsSpaced | internal/controller/token_broker.go:155-186 | exchanges for one key without an invalidation in between are apart by the first bearer's lifetime minus 60 s |
| TokenBroker.LatestIsLastPut | internal/controller/token_broker.go:188-223 | the latest bearer of a key is the one of its last put when nothing of that key came after |
| TokenBroker.LatestExactly | internal/controller/token_broker.go:188-232 | a bearer is the latest of its key exactly when it was put and nothing was put or invalidated for the key since |
| Quoting.ShellQuoteRoundTrips | cli/src/commands/get.rs:82-85 | for every value, a POSIX shell reads the quoted form as one word equal to the value |
| Quoting.TwoReplacesAreOnePass | cli/src/commands/get.rs:87-94 | the two replacements in a row are a one-pass escape |
| Quoting.BranchesAgree | cli/src/commands/get.rs:87-94 | both branches produce the escaped value in double quotes |
| Quoting.DotenvQuoteRoundTrips | cli/src/commands/get.rs:87-94 | unescaping gives the value back and stops at the closing quote, whatever follows |
| Redaction.RedactMessage | mcp/packages/ferrvault-mcp/src/results.ts:15-17 | the reduce computes the function the laws are about, for every list of secrets |
| Redaction.NoSecretSurvives | mcp/packages/ferrvault-mcp/src/results.ts:15-17 | no secret of the list that the mark can be no part of occurs in the output, whatever else is on the list |
| Redaction.OneSecretRedacted | mcp/packages/ferrvault-mcp/src/results.ts:15-17 | a later replacement, of whatever secret, never recreates such an earlier one |
| Redaction.AlwaysGoneIffApart | mcp/packages/ferrvault-mcp/src/results.ts:15-17 | for every string: it is gone from every message under every list that has it if and only if the mark can be no part of it |
| Redaction.SurvivesIffReassembles | mcp/packages/ferrvault-mcp/src/results.ts:15-17 | for every secret: redacted on its own it survives in some message if and only if its own redaction can put it together |
| Redaction.BracketFreeIsApart | mcp/packages/ferrvault-mcp/src/results.ts:15-17 | the mark can be no part of a bracket-free secret if and only if the secret is no part of the word redacted |
| Redaction.SurvivesIffPartOfMark | mcp/packages/ferrvault-mcp/src/results.ts:15-17 | a bracket-free secret is gone from every message if and only if it is not part of the word redacted |
| Redaction.BracketsDoNotDecide | mcp/packages/ferrvault-mcp/src/results.ts:15-17 | of two secrets with brackets, one survives its own redaction and one is gone under every list |
| Redaction.SplitLosesNothing | mcp/packages/ferrvault-mcp/src/results.ts:15-17 | splitting removes the secret and nothing else |

## Left out

- The finalizer of both resources and their deletion, and the deletion of workloads.
- Requeue intervals, metrics, the heartbeat, logs and events.
- Condition messages, transition times and `lastSyncedAt`; the synced and missing keys of a status are sets, their sorting is not modelled.
- The immutable type of a Secret: the API server's refusal to change it is one of the write failures.
- Two targets of one name: resources of a fleet that fight over a Secret.
- Outside writers of the target, and users who remove or forge the operator's marker annotations.
- The pods themselves: the statements are about the hash a workload was last restarted for.
- Int64 overflow of durations, and float rounding in the jitter.
- HTTP, TLS, JSON decoding, number formatting and array re-marshalling.
- Reconciler.Cluster.Reconcile: does not model the finalizer, the deletion branch, a resource that is gone, or the returned requeue intervals other than the wait after a 429.
- Reconciler.Cluster.FetchContent: one step stands for resolving the connection, the token and the client and for the reveal; which of them fails is the environment's choice, the reason reported for it is modelled.
- Reading and trimming the token Secret.
- The finalizer and deletion path of the connection reconciler.
- TokenBroker.Broker.LoadFromOIDC: spacing of exchanges is stated for sequential use, since two reconcilers that miss at the same moment both exchange.
- Command-line and MCP plumbing around the quoting and redaction functions.
