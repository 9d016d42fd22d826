# Verified model of rawfile-localpv's node plugin

rawfile-localpv is a Container Storage Interface (CSI) driver: it keeps every volume as a raw image file in a
storage pool of its node, attaches it through a loop device, and takes snapshots by copying the image. This project
models the parts of the driver that hold state across calls and crashes, in Dafny, and proves what they keep:
volumes and snapshots on disk, the persistent task manager, staging, capacity admission, metadata writes and
migrations, snapshot listing, and the node-to-IP index with its gRPC stub cache.
`dafny verify dfyconfig.toml` checks the whole project.

## How to read it

**Faults.** `Faults.Env` holds an arbitrary function that decides, for every file effect and every command in turn,
whether it works, raises, or is where the process stops. `:- env.Act();` stands before each effect. Every contract
holds for every such function, so every `ensures` without `Done?` or `Healthy()` is a statement about the state that
a crash or an exception between any two effects leaves. `Healthy()` says that nothing fails.

**Modules.**

| module | what it models |
|---|---|
| `Outcomes`, `Faults` | outcomes of effects; the environment that injects faults |
| `Volumes` | create, clone, restore, expand, delete, collect, snapshot: one volume, effect by effect |
| `VolumeRuns` | any sequence of such requests to any volumes, with reboots and writes between them |
| `VolumeFindings` | concrete runs that show why the conditions in `VolumeRuns` are needed |
| `TaskProtocol`, `TaskBounds`, `TaskOutcomes` | the task manager as a protocol: all interleavings, bounds, outcomes |
| `TaskRetries` | how many failures a task has left, before and after a restart |
| `TaskLiveness`, `TaskFairRuns` | that it empties its store, in fair rounds and in fair infinite runs |
| `TaskManagers` | the task manager's methods, tied to the protocol |
| `LoopDevices`, `StagingAreas` | attach_loop; NodeStageVolume and NodeUnstageVolume |
| `NodeVolumes` | life cycle and loop devices together |
| `Capacity` | reserved capacity, admission of creations and expansions |
| `MetadataWrite` | durable replacement of `disk.meta`, with power losses |
| `Schema` | the migration chain from schema version 0 to 8 |
| `SnapshotPages` | pages and tokens of list_snapshots |
| `HostPorts`, `StubCache`, `NodeIndex` | host:port round trip, channel and stub cache, node-to-IP index |

**Main results.** In every run of volume requests, cut short anywhere: a ready snapshot is a whole copy, snapshots that
are not asked for stay untouched, and every snapshot entry has metadata to delete it by (`VolumeRuns.Run`). As long
as no volume is created over a deleted one, `ready` means an image of at least the recorded size, an attached image
exists, and a deleted volume is neither attached nor ready. Snapshot, any run, restore gives the source's image back,
followed by zeros, when no attempt that changes an image asks for less than is recorded for it or for its source
(`VolumeRuns.SnapshotRoundTrip`). For all
interleavings of requests, worker, callbacks, shutdowns and restarts, a task has one live attempt at most and is
started at most max_retry + 1 + 2k times with k restarts; one found running with retry count c > 0 by a restart can
fail max_retry - c + 1 times more (`TaskRetries.RetriesAfterRestart`). After a crash every fair run empties the store, however the
attempts end, exactly when no task was stored as PENDING (`TaskFairRuns.RecoveredRunEmptiesIff`). From whatever
crashes and reboots leave, staging stages and unstaging cleans; no crash costs a filesystem. Admitted thick volumes
never exceed a pool's limit. `disk.meta` is always wholly one version, and what a patch that returned has set is lost
only to a later patch of the same key (`MetadataWrite.PatchAll`).

## Where the code does less than one might expect

Each of these is shown by a theorem; the ones named after it say under which condition the code does meet the
expectation.

- A create task that is executed again for a volume that was deleted but kept for its snapshots makes it ready again,
  and the next collection removes the image of a ready volume (`CreateOverDeleted`). The deletion mark decides over
  loop and deletion promises (`ReadyAgain`); the mark, its time and a snapshot entry over readiness
  (`CollectsReady`, `CreateThenCollect`).
- A clone may record less than its image holds (`SmallClone`, `CloneIsExactIff`), and restoring a snapshot of a thin
  clone of that kind may cut off data (`SmallCloneLosesData`, `RestoreKeepsData`). So may expanding one
  (`ExpansionCutsClone`); a volume that was created thick never loses a byte that way (`CreateThenExpand`).
- An expansion that is cut short leaves an image larger than recorded (`HalfExpanded`, `ExpansionIsExactIff`), until a
  later one mends it (`ExpansionMends`).
- DeleteVolume fails, each time, for a volume whose creation failed before its size was recorded
  (`UndeletableVolume`, and the last clause of `Volume.DeleteVolume`).
- A task stored as PENDING at a crash stays in the store for ever (`OrphanForEver`, `RecoveryEmptiesStore`).
- Shutdown may mark a task as failed that succeeded meanwhile. The worker may then remove it as completed
  (`DropsAFailedTask`, `WorkerDropsOnlyFinished`), or the next process starts it again (`StartsASucceededTask`,
  `SuccessIsFinalUnlessOverruled`), which retakes a snapshot (`RetakenSnapshot`, `RetakesUnlessSame`).
- A blkid that fails is read as "no filesystem", and the image is formatted (`LosesFilesystem`, `FormatIfBlank`).
- An expansion that needs no new blocks is accepted even by a pool over its limit (`AdmissionIsExact`).
- A fresh list may publish another pod's IP for a node with two live pods (`SameMapping`, `MappingsMayDiffer`).
- list_snapshots returns no token to a request without one (`FirstPage`), and with a filter the token repeats entries
  (`TokenIsRight`).
- Migrating past version 5 marks deleted volumes as ready (`CrossingFive`).

## Model

| member | source | states |
|---|---|---|
| `Volumes.Volume.CopyOut` | rawfile/utils/snapshot_manager.py:64-86 | wherever the copy ends, the snapshot is marked or whole; a finished one is a whole copy of the image |
| `Volumes.Volume.MarkSnapshot` | rawfile/utils/snapshot_manager.py:54-61 | from the first effect on, a ready snapshot of that name can only be the untouched older one |
| `Volumes.Volume.CreateSnapshot` | rawfile/utils/snapshot_manager.py:46-96 | wherever it ends, no other snapshot changes and this one is ready only as the old copy or as a copy of the image; without faults it succeeds exactly when the image is known, present, and not attached without freeze or copy-on-write |
| `Volumes.Volume.DeleteSnapshot` | rawfile/utils/snapshot_manager.py:98-106 | wherever it ends, the snapshot is untouched or no longer ready, no other changes; done exactly when there is metadata |
| `Volumes.Volume.Destroy` | rawfile/utils/volume_manager.py:170-210 | wherever it ends, no snapshot entry is lost and metadata goes only if none is left; afterwards metadata and both directories exist exactly when an entry remains |
| `Volumes.Volume.Gc` | rawfile/utils/volume_manager.py:212-223 | answers true exactly if the volume has a deletion mark and a collection time that is not after now; such a one loses its image and is tidy, any other and any dry run leaves the files alone |
| `Volumes.Volume.DeleteVolume` | rawfile/utils/volume_manager.py:225-246 | keeps every snapshot and every invariant; done means unattached, imageless and tidy; without faults it succeeds exactly when there is no directory, or a recorded image that is not attached |
| `Volumes.Volume.Provision` | rawfile/utils/rawfile.py:123-140 | a cut-short call only ever leaves the old bytes with something behind them, within the target size; a finished one exactly the truncated or allocated image |
| `Volumes.Volume.GrowImage` | rawfile/internal_svc.py:86-94 | the two effects of an expansion, and what is there after each: the new image exactly if the first worked, the new size exactly if both did |
| `Volumes.Volume.Expand` | rawfile/internal_svc.py:60-98 | keeps readiness backed after every effect, only extends an image that fits, refuses exactly when the capacity is below the new size minus the recorded size of a thin volume, or minus the blocks that a thick one holds; a ready image keeps exactly its recorded size if and only if size and image changed together or not at all |
| `Volumes.Volume.RecordLayout` | rawfile/utils/volume_manager.py:113-131 | the image is touched only after size, provisioning, copy-on-write and freeze are recorded as asked for; the deletion marks and ready stay as they are |
| `Volumes.Volume.Fill` | rawfile/utils/volume_manager.py:132-159 | a finished fill holds the source's content, provisioned; a cut-short one is bounded by the larger of source and request |
| `Volumes.Volume.Populate` | rawfile/utils/volume_manager.py:109-160 | ready is set only together with the content asked for, and a large enough image is left alone |
| `Volumes.Volume.SnapshotForClone` | rawfile/utils/volume_manager.py:85-108 | done means a ready temporary snapshot of the ready source, an earlier attempt's or a new whole copy; of an attached source, without faults, exactly if it freezes or is copied on write, by its own setting or else the pool's |
| `Volumes.Volume.Unready` | rawfile/utils/volume_manager.py:66-77 | clears ready before anything else and keeps the rest of the metadata |
| `Volumes.Volume.TryClone` | rawfile/utils/volume_manager.py:85-160 | the clone is made of the source as it was, or of the temporary snapshot an earlier attempt left, and of a source that is not ready nothing is made |
| `Volumes.Volume.CloneVolume` | rawfile/utils/volume_manager.py:78-167 | the temporary snapshot is removed whether or not the clone succeeds, and no other snapshot of the source changes |
| `Volumes.Volume.Attempt` | rawfile/utils/volume_manager.py:78-167 | from the moment ready is off, for every kind of source: what `Attempted` allows, and readiness only with its content |
| `Volumes.Volume.CreateVolume` | rawfile/utils/volume_manager.py:51-168 | for first and repeated attempts, ended anywhere: metadata and image are what `Attempted` allows; a volume that it leaves ready records size, provisioning, copy-on-write and freeze as asked for and keeps its deletion marks; readiness stays backed, loop promises hold unless the volume is marked deleted, and done means ready or already large enough |
| `Volumes.Volume.Stage` | rawfile/rawfile_servicer.py:133-141 | only a ready volume is attached, and at most once |
| `Volumes.Volume.Unstage` | rawfile/bd2fs.py:189-215 | done with metadata means no loop device is left |
| `Volumes.ContentIsBacked` | rawfile/utils/volume_manager.py:143-160 | whatever the source, the image that gets ready is at least as large as asked for |
| `Volumes.AttemptRecords` | rawfile/utils/volume_manager.py:114-130 | field by field, an attempt records what was asked for or nothing, a ready volume what was asked for, and the deletion marks stay |
| `Volumes.AttemptFits` | rawfile/utils/volume_manager.py:109-160 | an attempt whose source fits into the request, and which asks for what is recorded or finds the image large enough, leaves no image larger than recorded |
| `Volumes.CreationFits` | rawfile/utils/volume_manager.py:51-160 | the same for a whole creation, ended anywhere, and the recorded size does not shrink |
| `Volumes.GrownFits` | rawfile/internal_svc.py:65-94 | what an expansion, ended anywhere, means for the recorded size: when it stays exact, when it is lost, and when a later one restores it |
| `Volumes.RestoreKeepsData` | rawfile/utils/volume_manager.py:143-159 | a restored image is the snapshot followed by zeros if and only if the source is thick or the snapshot fits the larger of request and source size |
| `Volumes.CloneIsExactIff` | rawfile/utils/volume_manager.py:124-159 | a clone's image has exactly its recorded size if and only if its source records no more (and, if thick, holds no more) |
| `VolumeRuns.ServeCreate` | rawfile/utils/volume_manager.py:51-168 | a creation keeps what its discipline promises of the volume and of its source, and touches no snapshot but its own temporary one |
| `VolumeRuns.CreateSafely` | rawfile/utils/volume_manager.py:51-168 | a creation keeps volume and source safe and no other file of the source changes but its own temporary snapshot |
| `VolumeRuns.DeleteSnapshotAndCollect` | rawfile/bd2fs.py:412-423 | deletes one snapshot, then a due volume: metadata and directory then exist exactly when an entry remains; a volume that is not due is untouched |
| `VolumeRuns.ServeGrow` | rawfile/internal_svc.py:60-98 | an expansion keeps the invariants, never shrinks the recorded size, and leaves its volume's size in doubt exactly if it changed the image and not the size, and only by a fault |
| `VolumeRuns.ServeOne` | rawfile/bd2fs.py:138-423 | every request to one volume keeps its invariants and the snapshots it does not concern; one that reports success has been carried out |
| `VolumeRuns.ServeReboot` | rawfile/rawfile_servicer.py:133-141 | no loop device survives, every file does |
| `VolumeRuns.NotBlurred` | rawfile/internal_svc.py:86-94 | over a run's states, no volume's size is in doubt because of another one's expansion, unless it was made from that one |
| `VolumeRuns.Serve` | rawfile/bd2fs.py:138-423 | every request, ended anywhere, keeps the invariants of all volumes and every snapshot that it does not concern, and changes no files but those of the volumes it names; one that reports success has been carried out |
| `VolumeRuns.Run` | rawfile/utils/volume_manager.py:51-257 | the same over every sequence of requests, reboots and writes, with an answer to each; the trace of states in between says exactly which volumes' sizes are in doubt; a volume that keeps a snapshot entry keeps its recorded size or a larger one |
| `VolumeRuns.Discipline.ReadyIsExact` | rawfile/utils/volume_manager.py:124-160 | a ready image has exactly its recorded size, for every volume that the trace does not put in doubt |
| `VolumeRuns.CollectAll` | rawfile/utils/volume_manager.py:252-257 | collects exactly the volumes that are due and touches no other |
| `VolumeRuns.SnapshotThenRestore` | rawfile/utils/snapshot_manager.py:72-126 | the restored image is the source's image at snapshot time, provisioned, whatever run comes in between |
| `VolumeRuns.SnapshotRoundTrip` | rawfile/utils/snapshot_manager.py:72-126 | the restored image is the source's image at snapshot time followed by zeros up to the new size, whatever writes, finished or cut-short expansions or deletion of the source come in between |
| `VolumeRuns.RestoreWhole` | rawfile/utils/volume_manager.py:132-160 | a snapshot no larger than its volume's recorded size is restored whole |
| `VolumeRuns.CloneCopies` | rawfile/utils/volume_manager.py:78-167 | a clone holds its source's bytes, or those of an earlier attempt's temporary snapshot, provisioned as the source is, followed by zeros if they fit the recorded size; no temporary snapshot stays |
| `VolumeRuns.RestoreInPlace` | rawfile/utils/volume_manager.py:113-159 | a volume created again from its own snapshot is provisioned with the size and kind asked for now |
| `VolumeRuns.CreateThenExpand` | rawfile/internal_svc.py:86-94 | a finished expansion of a volume keeps every byte of its image if and only if it was created thick, or the image is no larger than the new size, or the expansion is refused or superfluous; what is added is zeros |
| `VolumeFindings.CreateOverDeleted` | rawfile/utils/volume_manager.py:69-77 | a run that ends with a ready volume without an image |
| `VolumeFindings.ReadyAgain` | rawfile/utils/volume_manager.py:69-160 | a creation that ends ready keeps the loop and deletion promises if and only if the volume was not marked deleted |
| `VolumeFindings.CollectsReady` | rawfile/utils/volume_manager.py:196-223 | a collection leaves a volume ready without an image if and only if it was ready and due and a snapshot entry is left |
| `VolumeFindings.CreateThenCollect` | rawfile/utils/volume_manager.py:69-223 | after a creation that ends ready and a collection, readiness is backed if and only if the volume was not marked deleted and due before, or has no snapshot entry |
| `VolumeFindings.SmallClone` | rawfile/utils/volume_manager.py:124-143 | a clone that records less than it holds |
| `VolumeFindings.SmallCloneLosesData` | rawfile/utils/volume_manager.py:143-157 | restoring its snapshot cuts off a byte |
| `VolumeFindings.SmallerClone` | rawfile/utils/volume_manager.py:143-159 | a clone that records one byte of the three it holds |
| `VolumeFindings.ExpansionCutsClone` | rawfile/internal_svc.py:86-94 | expanding such a clone to two bytes removes the third |
| `VolumeFindings.HalfExpanded` | rawfile/internal_svc.py:86-94 | an expansion whose process stops at its second effect leaves a ready image larger than recorded |
| `VolumeFindings.ExpansionIsExactIff` | rawfile/internal_svc.py:65-94 | an expansion of a ready volume loses exactness if and only if it goes ahead and its first effect works and its second does not, or its fallocate stops halfway |
| `VolumeFindings.ExpansionMends` | rawfile/internal_svc.py:65-94 | a later finished expansion to at least what image and snapshots hold makes the recorded size right again |
| `VolumeFindings.RetakenSnapshot` | rawfile/utils/snapshot_manager.py:54-77 | a snapshot task that is executed again replaces a ready snapshot with newer data |
| `VolumeFindings.RetakesUnlessSame` | rawfile/utils/snapshot_manager.py:54-77 | it keeps the snapshot's content if and only if the image has not changed |
| `VolumeFindings.UndeletableVolume` | rawfile/utils/volume_manager.py:225-233 | a failed creation that DeleteVolume cannot undo |
| `TaskProtocol.BeginKeepsInv` | rawfile/utils/task_manager.py:254-274 | a new attempt for a task that is not under way keeps the invariant |
| `TaskProtocol.WorkerKeepsInv` | rawfile/utils/task_manager.py:90-115 | so does every step of the retry worker, on whatever it listed |
| `TaskProtocol.SaveKeepsInv` | rawfile/utils/task_manager.py:213-233 | so do the RUNNING save and the callback's final save |
| `TaskProtocol.RestartKeepsInv` | rawfile/utils/task_manager.py:71-88 | so does a restart, from whatever was stored |
| `TaskProtocol.MarkDoomedKeepsInv` | rawfile/utils/task_manager.py:291-296 | so does shutdown's marking of running tasks |
| `TaskProtocol.StepKeepsInv` | rawfile/utils/task_manager.py:71-297 | so does every action of the protocol |
| `TaskProtocol.RunKeepsInv` | rawfile/utils/task_manager.py:71-297 | so does every schedule |
| `TaskProtocol.OneAttemptPerTask` | rawfile/utils/task_manager.py:254-281 | in every schedule a task has at most one live attempt, and a RUNNING save overwrites nothing but that attempt's own PENDING entry |
| `TaskOutcomes.RunSettles` | rawfile/utils/task_manager.py:90-296 | in every schedule a stored task is completed exactly if its latest attempt succeeded and shutdown did not overrule it |
| `TaskOutcomes.WorkerDropsOnlyFinished` | rawfile/utils/task_manager.py:90-104 | in every schedule the worker removes nothing under way, and only completed or spent tasks, except exactly one that shutdown overruled after the worker had listed it as completed |
| `TaskOutcomes.ListedIsNotOverruled` | rawfile/utils/task_manager.py:96-97 | what the worker lists as completed was not overruled before |
| `TaskOutcomes.DropsAFailedTask` | rawfile/utils/task_manager.py:90-296 | a schedule in which the worker removes a failed task with all its retries left |
| `TaskOutcomes.SuccessIsFinalUnlessOverruled` | rawfile/utils/task_manager.py:128-143 | in every schedule a stored task whose latest attempt succeeded is retriable if and only if shutdown overruled it |
| `TaskOutcomes.SucceededIsNotStarted` | rawfile/utils/task_manager.py:254-281 | no action starts another attempt for a task that succeeded and was not overruled |
| `TaskOutcomes.StartsASucceededTask` | rawfile/utils/task_manager.py:71-296 | a schedule in which a task that succeeded is started again |
| `TaskOutcomes.RecoveryMayBeRepeated` | rawfile/utils/task_manager.py:78-87 | a recovery that ends after any of its saves is completed by the next one |
| `TaskRetries.FailuresAreCounted` | rawfile/utils/task_manager.py:90-296 | in every schedule of one process a stored count is the former one plus the task's failed attempts, within the limit; a task removed without shutdown or success failed as often as it could |
| `TaskRetries.GoneForGood` | rawfile/utils/task_manager.py:90-109 | no attempt ends for a task that was removed and not asked for again |
| `TaskRetries.RetriesAfterRestart` | rawfile/utils/task_manager.py:78-87 | a task found running with retry count c > 0 is out of retries exactly after max_retry - c + 1 more failures, any other running one after max_retry - c, and never fails more often |
| `TaskBounds.RunKeepsBudget` | rawfile/utils/task_manager.py:78-281 | every schedule keeps the starts of each task within its counted failures, its live attempt and two per restart |
| `TaskBounds.StartsAreBounded` | rawfile/utils/task_manager.py:78-103 | over every schedule with k restarts a stored task was started at most max_retry + 1 + 2k times since its insertion |
| `TaskBounds.WorkCosts` | rawfile/utils/task_manager.py:90-115 | every worker step that changes the store lowers the termination measure |
| `TaskBounds.MoveCosts` | rawfile/utils/task_manager.py:185-221 | every step of an attempt lowers it |
| `TaskLiveness.ScheduleIsBounded` | rawfile/utils/task_manager.py:90-221 | without new requests, shutdowns and restarts, any schedule changes tasks at most as often as the measure says |
| `TaskLiveness.RoundCosts` | rawfile/utils/task_manager.py:90-221 | while a task is stored and nothing is orphaned, every round in which each live attempt makes a move, succeeding or failing, and the worker takes five steps lowers the measure |
| `TaskLiveness.FairRoundsEmptyTheStore` | rawfile/utils/task_manager.py:90-221 | so the store is empty after as many such rounds as the measure says, all of them, whatever the order and the outcomes |
| `TaskLiveness.SomeFairRound` | rawfile/utils/task_manager.py:90-221 | from every state there is such a round |
| `TaskFairRuns.EveryFairRunEmptiesTheStore` | rawfile/utils/task_manager.py:90-221 | in every infinite run in which live attempts eventually move on and the worker keeps working, the store is empty from some time on |
| `TaskFairRuns.SomeFairRun` | rawfile/utils/task_manager.py:90-221 | from every state of the protocol there is such a run |
| `TaskLiveness.QuietMeansEmpty` | rawfile/utils/task_manager.py:90-115 | and a state in which no schedule changes a task has an empty store |
| `TaskLiveness.RestartRecovers` | rawfile/utils/task_manager.py:78-87 | a running task becomes failed, with one less on a positive retry count and the same count otherwise, and is retriable; every other is unchanged; exactly the pending ones are orphaned |
| `TaskLiveness.OrphanForEver` | rawfile/utils/task_manager.py:78-103 | an orphaned task survives every schedule |
| `TaskLiveness.RecoveryEmptiesStore` | rawfile/utils/task_manager.py:71-115 | after a crash, all sufficiently long sequences of fair rounds empty the store if and only if no task was stored as pending |
| `TaskFairRuns.RecoveredRunEmptiesIff` | rawfile/utils/task_manager.py:71-115 | after a crash, each fair infinite run empties the store if and only if no task was stored as pending |
| `TaskManagers.TaskManager.RemoveTask` | rawfile/utils/task_manager.py:175-183 | removes one task, and raises exactly when it is not stored |
| `TaskManagers.TaskManager.RunTask` | rawfile/utils/task_manager.py:235-281 | a new task ends up running with its attempt registered, a stored one is left alone, and all of it is a schedule of the protocol |
| `TaskManagers.TaskManager.DoneCallback` | rawfile/utils/task_manager.py:185-221 | saves the outcome with the attempt's own count, counting a failure, and is a schedule of the protocol |
| `TaskManagers.TaskManager.GetTasks` | rawfile/utils/task_manager.py:123-146 | the selected tasks are exactly those with the state and the retry budget asked for |
| `TaskManagers.TaskManager.RetryTask` | rawfile/utils/task_manager.py:243-281 | a listed task runs again with its count kept, as one worker step and one attempt of the protocol |
| `TaskManagers.TaskManager.RetryAll` | rawfile/utils/task_manager.py:106-115 | exactly the failed tasks with retries left run again |
| `TaskManagers.TaskManager.DropListed` | rawfile/utils/task_manager.py:94-97 | each removal loop removes exactly what it listed |
| `TaskManagers.TaskManager.WorkerRound` | rawfile/utils/task_manager.py:90-104 | after a round: failed tasks with retries left run, spent and completed ones are gone, the others are as they were |
| `TaskManagers.TaskManager.RecoverRunning` | rawfile/utils/task_manager.py:78-87 | the loop changes exactly the running tasks: to failed, with one less on a positive retry count |
| `TaskManagers.TaskManager.Start` | rawfile/utils/task_manager.py:71-88 | every running task becomes failed, with c - 1 for a retry count c > 0 and c otherwise, every other is as it was, and none is added or lost |
| `TaskManagers.TaskManager.Shutdown` | rawfile/utils/task_manager.py:283-297 | exactly the tasks that still run are marked failed, with their counts |
| `LoopDevices.PluggedAddsOne` | rawfile/utils/rawfile.py:175-175 | attaching adds one device for the file and changes no other |
| `LoopDevices.Node.FindLoop` | rawfile/utils/rawfile.py:143-147 | finds a device of the file exactly when there is one |
| `LoopDevices.Node.TryAttach` | rawfile/utils/rawfile.py:163-178 | one pass adds at most one device, and none if the file has one |
| `LoopDevices.Node.AttachLoop` | rawfile/utils/rawfile.py:150-184 | for every pattern of failures: at most 20 passes, at most one device in all, and a returned device is attached to the file |
| `LoopDevices.Node.Blkid` | rawfile/filesystem/utils.py:8-13 | the kind of filesystem, where a failing command reads as none |
| `LoopDevices.Node.Mkfs` | rawfile/filesystem/base.py:156-170 | a new filesystem, also if the command fails after it has written |
| `StagingAreas.Staging.LinkDevice` | rawfile/rawfile_servicer.py:110-141 | both links end at the volume's one loop device, from any earlier state; unchanged if they already do |
| `StagingAreas.Staging.FormatIfBlank` | rawfile/filesystem/base.py:249-256 | an image that holds a filesystem is formatted if and only if the second blkid fails on it and mkfs then runs; a new filesystem is of the kind asked for, one made over another of that one's kind if the first blkid has read it and the driver knows it |
| `StagingAreas.Staging.Mount` | rawfile/filesystem/base.py:172-206 | mounts the linked device, also when findmnt misses a mount; a staged volume stays as it is |
| `StagingAreas.Staging.FormatAndMount` | rawfile/filesystem/base.py:172-258 | the same exact condition for losing a filesystem, and the kind of the one made; done means the linked device is mounted; without faults it succeeds exactly if the image holds no unknown filesystem |
| `StagingAreas.Staging.Stage` | rawfile/bd2fs.py:138-186 | done means ready and staged; a staged volume stays as it is; no other device or image changes; a filesystem that the image holds is lost if and only if, from the effect at which the call comes to it, the second blkid fails and mkfs then writes; what is made is of the kind asked for, or of the kind lost if the first blkid has read it |
| `StagingAreas.Staging.Unmount` | rawfile/declarative.py:43-70 | done means nothing is mounted and the mountpoint is gone, from any earlier state and also when findmnt fails |
| `StagingAreas.Staging.DetachLoops` | rawfile/utils/rawfile.py:187-190 | takes away devices of this file only, and all of them when done |
| `StagingAreas.Staging.Unstage` | rawfile/bd2fs.py:201-215 | done means no mount, links, directory or device; a clean volume stays as it is |
| `StagingAreas.Staging.UnstageDeleted` | rawfile/bd2fs.py:52-71 | answers OK only if nothing is mounted, also when findmnt fails, and then no link or directory is left |
| `StagingAreas.AnyHistory` | rawfile/bd2fs.py:138-215 | over any calls and reboots, cut short anywhere, with other volumes taking and freeing devices: a filesystem stays if and only if no failed blkid was followed by an mkfs that wrote, so crashes alone never lose one; what the image holds is of the kind it held at first or of one that a call asked for |
| `StagingAreas.StageAfterAnyHistory` | rawfile/bd2fs.py:138-186 | after any such history a call without faults stages the volume if and only if the filesystem it held at first was lost to a failed blkid or is one the driver knows |
| `StagingAreas.UnstageAfterAnyHistory` | rawfile/bd2fs.py:189-215 | after any such history a call without faults leaves nothing behind |
| `StagingAreas.LosesFilesystem` | rawfile/filesystem/base.py:255-256 | a run in which one failing blkid costs a filesystem |
| `NodeVolumes.NodeStage` | rawfile/bd2fs.py:138-186 | on the node, the call attaches exactly what the life cycle takes it to attach |
| `NodeVolumes.NodeUnstage` | rawfile/bd2fs.py:189-215 | OK means clean, no loop device included, for volumes with and without metadata |
| `NodeVolumes.NodeRun` | rawfile/bd2fs.py:48-71 | over every run of requests, calls and reboots, life cycle and loop devices stay in step, so the teardown of a deleted volume may skip the loop check |
| `Capacity.SumUpdate` | rawfile/utils/storage_pool.py:57-64 | one volume's change changes the pool's sum by just that |
| `Capacity.ModesAreComplements` | rawfile/utils/storage_pool.py:12-29 | reserving in one mode is reserving the complement in the other, and both stay within the disk |
| `Capacity.HeadroomByMode` | rawfile/utils/storage_pool.py:12-71 | mode by mode: plain leaves a pool's images the total minus the reserved bytes or share, subtract-from-total exactly those bytes or that share |
| `Capacity.Pools.StatsByPool` | rawfile/utils/volume_manager.py:304-310 | exactly the volumes of the pool that have an image |
| `Capacity.Pools.GetCapacity` | rawfile/utils/storage_pool.py:40-71 | the loop's sum gives the smaller of the free space and what the mode leaves, spelled out for each of the four settings, and never less than zero |
| `Capacity.Pools.Create` | rawfile/rawfile_servicer.py:245-292 | admitted exactly when the request, or 16 MiB if that is more, fits; existing metadata means nothing is created; the pools' limits stay kept |
| `Capacity.Pools.Expand` | rawfile/internal_svc.py:60-98 | accepted exactly by the admission test; afterwards the volume records the new size and holds at least that; the pools' limits stay kept |
| `Capacity.Pools.Delete` | rawfile/utils/volume_manager.py:170-210 | a deleted volume holds nothing any more, with or without its metadata; the pools' limits stay kept |
| `Capacity.Pools.Run` | rawfile/utils/storage_pool.py:40-71 | over every run of thick creations, expansions and deletions a pool's images hold no more than the total minus the reserved amount in plain mode, and no more than that amount in subtract-from-total |
| `Capacity.AdmissionIsExact` | rawfile/internal_svc.py:76-85 | the incremental test accepts an expansion that adds blocks if and only if headroom and free space recomputed afterwards are both non-negative; one that adds none is always accepted |
| `MetadataWrite.MetadataFile.PowerLoss` | rawfile/utils/rawfile.py:79-97 | leaves one of the possible versions, and makes it the only one |
| `MetadataWrite.MetadataFile.OpenTmp` | rawfile/utils/rawfile.py:82-85 | opening the temporary file, a leftover one included, changes no version that can be read |
| `MetadataWrite.MetadataFile.WriteTmp` | rawfile/utils/rawfile.py:86-88 | nor does writing and syncing it |
| `MetadataWrite.MetadataFile.Publish` | rawfile/utils/rawfile.py:90-96 | the rename adds the new version to the possible ones, the directory sync makes it the only one |
| `MetadataWrite.MetadataFile.Update` | rawfile/utils/rawfile.py:79-97 | a power loss at any step leaves a version from before or the new one; after return only the new one is left |
| `MetadataWrite.MetadataFile.Patch` | rawfile/utils/rawfile.py:117-120 | ended anywhere, what can be read was there before or is the patched record: the patch's keys with its values, every other key as before, no further key; the first patch is the whole record |
| `MetadataWrite.OverriddenOnce` | rawfile/utils/rawfile.py:117-120 | what a patch makes of a record is determined by its keys and values |
| `MetadataWrite.MetadataFile.NeverDamaged` | rawfile/utils/rawfile.py:79-97 | in every state all versions that can be read are whole |
| `MetadataWrite.UpdateAll` | rawfile/utils/rawfile.py:79-97 | over any number of updates with faults, nothing older than the last update that returned is ever read again |
| `MetadataWrite.PatchAll` | rawfile/utils/rawfile.py:79-120 | over any number of patches with faults, what a patch that returned has set is read, now and after a power loss, until a later patch of that key |
| `Schema.MigratingComposes` | rawfile/volume_schema.py:92-101 | migrating to a and then to b gives what migrating to b gives, the result or the error |
| `Schema.MigratingIsIdempotent` | rawfile/volume_schema.py:92-101 | the result has the target version and a second migration changes nothing |
| `Schema.MigratingSucceedsIff` | rawfile/volume_schema.py:7-101 | a migration succeeds if and only if the metadata, of version 0 if it names none, is not newer and, unless it has the version, both versions are known and it holds what the steps read; a newer one and an unknown target have their own errors |
| `Schema.UnrelatedKeysSurvive` | rawfile/volume_schema.py:7-78 | keys that no step names survive with their values |
| `Schema.CrossingDefaults` | rawfile/volume_schema.py:12-48 | each default is set, or dropped, exactly at its own version, and an existing filesystem type is kept |
| `Schema.CrossingThree` | rawfile/volume_schema.py:18-24 | metadata marked deleted gets a collection time 604800 seconds after that, any other keeps what it has |
| `Schema.LiveStaysLive` | rawfile/utils/volume_manager.py:212-223 | no migration makes a live volume collectable |
| `Schema.CrossingFive` | rawfile/volume_schema.py:33-36 | crossing version 5 sets ready, on deleted volumes as well |
| `Schema.CrossingEight` | rawfile/volume_schema.py:53-80 | image and snapshot paths move to the volume's directory in its pool exactly if the image was recorded under /data and is found there, and stay otherwise |
| `Schema.Metadata.Migrate2To3` | rawfile/volume_schema.py:18-24 | the in-place step is the chain's third, with its error on a malformed time |
| `Schema.Metadata.Migrate7To8` | rawfile/volume_schema.py:51-78 | the in-place rewrite of image and snapshot paths is the chain's last step, with its errors |
| `Schema.Metadata.MigrateTo` | rawfile/volume_schema.py:92-101 | the loop over the in-place steps computes the chain, or stops with its first error |
| `Schema.Metadata.MigrateStored` | rawfile/utils/volume_manager.py:312-322 | what is stored is replaced by its migration, or left alone when that raises |
| `SnapshotPages.List` | rawfile/utils/snapshot_manager.py:154-183 | the page holds the matching entries from the offset on until it is full, and a token exactly for a non-zero offset, a non-empty page and files left |
| `SnapshotPages.PageHolds` | rawfile/utils/snapshot_manager.py:154-179 | a page holds exactly the entries from the offset to its end that are ready, or are not, as asked for; without a limit it ends with the last file, and it never exceeds its limit |
| `SnapshotPages.PageIsSlice` | rawfile/utils/snapshot_manager.py:154-179 | without a filter and with a positive limit a page is the slice at its offset |
| `SnapshotPages.Follow` | rawfile/utils/snapshot_manager.py:154-183 | following tokens from any positive offset terminates and shows the rest of the list once, in full pages |
| `SnapshotPages.FirstPage` | rawfile/utils/snapshot_manager.py:179-181 | a request without offset gets no token, so it sees the whole list exactly when that fits its limit |
| `SnapshotPages.TokenIsRight` | rawfile/utils/snapshot_manager.py:179-181 | a token names the first entry not looked at if and only if the filter skipped nothing and the offset was positive |
| `HostPorts.DecimalRoundTrip` | rawfile/utils/remote.py:35-43 | every port is read back as printed |
| `HostPorts.PrintsInTens` | rawfile/utils/remote.py:35-35 | ports are printed in base ten |
| `HostPorts.PartitionAtLast` | rawfile/utils/remote.py:39-39 | whatever the host holds, the last colon splits it from the port |
| `HostPorts.Addresses.ExtractBuilt` | rawfile/utils/remote.py:31-43 | extracting a built target returns the address and the port, for every address of either version |
| `HostPorts.Addresses.BuiltForm` | rawfile/utils/remote.py:31-35 | the last colon separates the port from the address, which is in brackets exactly if it is not of version 4 |
| `HostPorts.Addresses.TargetsDiffer` | rawfile/utils/remote.py:31-35 | different addresses never share a target |
| `HostPorts.HostPortLeads` | rawfile/utils/remote.py:31-43 | there is a target exactly for an address, and it leads to that address at the given port |
| `StubCache.Cache.Get` | rawfile/utils/remote.py:74-109 | a stub over an open channel to the address's target, the cached one if there is one; malformed addresses change nothing |
| `StubCache.Cache.PruneAsync` | rawfile/utils/remote.py:49-61 | of the async targets exactly those with a live address stay, and dropped channels with an open loop are closed |
| `StubCache.Cache.PruneSync` | rawfile/utils/remote.py:63-71 | of the blocking targets exactly those with a live address stay, and the dropped channels are closed |
| `StubCache.Cache.Prune` | rawfile/utils/remote.py:46-71 | an address keeps its cached targets if and only if it is live; survivors keep their stubs; of what is dropped, every blocking channel is closed, and an async one exactly if its event loop is there and open; nothing else is closed |
| `StubCache.Cache.Run` | rawfile/utils/remote.py:46-109 | after any sequence of gets and prunes channel and stub maps have the same keys, and after a prune only live addresses |
| `NodeIndex.TrackAgrees` | rawfile/orchestrator/k8s.py:185-193 | after each event the tracked pods are the running pods with node and IP of the cluster after that event |
| `NodeIndex.SamePods` | rawfile/orchestrator/k8s.py:176-193 | whatever the order, a fresh list tracks the same pods |
| `NodeIndex.TrackKeepsAge` | rawfile/orchestrator/k8s.py:185-193 | the dictionary's order stays the order in which pods became live |
| `NodeIndex.NewestIsLast` | rawfile/orchestrator/k8s.py:195-199 | of a node's pods, the last one is the newest |
| `NodeIndex.RemovingAnother` | rawfile/orchestrator/k8s.py:195-199 | removing any other pod never drops a node's newest one |
| `NodeIndex.MappedIffLive` | rawfile/orchestrator/k8s.py:195-199 | a node is mapped if and only if it has a running pod with an IP |
| `NodeIndex.Indexed` | rawfile/orchestrator/k8s.py:195-199 | the loop over the pods maps exactly the nodes with an entry, each to its last one's IP |
| `NodeIndex.SameMapping` | rawfile/orchestrator/k8s.py:176-199 | a fresh list publishes the same mapping if no node has two live pods with different IPs |
| `NodeIndex.MappingsMayDiffer` | rawfile/orchestrator/k8s.py:176-199 | otherwise two orders of the same cluster publish different mappings |
| `NodeIndex.NodeIPMapping.TrackPod` | rawfile/orchestrator/k8s.py:185-193 | one event keeps the tracked pods, their order and their ages in step with the cluster |
| `NodeIndex.NodeIPMapping.Publish` | rawfile/orchestrator/k8s.py:195-199 | the mapping that readers see is replaced by that of the tracked pods |
| `NodeIndex.NodeIPMapping.Reload` | rawfile/orchestrator/k8s.py:176-183 | afterwards pods and mapping are those of the list, whatever was tracked before |
| `NodeIndex.NodeIPMapping.OnChange` | rawfile/orchestrator/k8s.py:231-234 | afterwards no stub is cached for an address that no node has |
| `NodeIndex.NodeIPMapping.Handle` | rawfile/orchestrator/k8s.py:212-243 | one answer: what was told is tracked, only unexpired failures wait, the wait doubles up to 30, a change resets it to 1 |
| `NodeIndex.NodeIPMapping.Watch` | rawfile/orchestrator/k8s.py:210-243 | for all answers of the API server, pods and mapping are what the last list and the changes since say; one wait per failure, each 1 or twice the last, up to 30 |
| `NodeIndex.NodeIPMapping.GetNodeIp` | rawfile/orchestrator/k8s.py:204-208 | a node with a live pod gets the IP of its newest one, any other is unavailable |

## Left out

- Locking: a section under `VolLock` is one exclusive region, and requests to volumes do not overlap; the lock file's own life cycle is not modelled.
- Overlapping requests: capacity checked before a task runs, and loop devices checked before DeleteVolume takes the lock, are taken as one step with what follows.
- The task manager's check and first save of a new task are one step per task id; task store writes are atomic; cancelled futures and legacy entries without a retry count are not modelled.
- Storage pools in the volume life cycle: one pool per volume, fixed; `Capacity` has several. Reserved percentages are real numbers, without floating-point rounding.
- Thin volumes in `Capacity`: their images grow with what workloads write, which no admission test sees; discards and unaligned sizes are left out for thick ones.
- VolumeRuns.Run: promises readiness and loop invariants only for runs that create no volume over a deleted one, and exact sizes only where no attempt that changes an image asks for less than is recorded for it or its source, and only for volumes whose own expansion, or whose source's, was not cut short; `VolumeFindings` shows that each condition is needed.
- VolumeRuns.SnapshotThenRestore: says nothing about an attempt that finds a large enough image already, because create_volume then leaves it alone and not ready.
- Volumes.Volume.Unstage: models only the loop devices of the call; `StagingAreas` has links, directories and mounts.
- Volumes.Volume.Stage: does not model attach_loop's retries, which `LoopDevices` has.
- StagingAreas.Staging.FormatAndMount: mkfs that stops early has written a new filesystem or nothing; whether mkfs refuses a mounted device is left to the environment.
- StagingAreas.Staging.Unmount: leaves out mountpoints that are files or block devices, which staging does not use.
- TaskProtocol.RestartKeepsInv: a restart is one step; `TaskOutcomes.RecoveryMayBeRepeated` shows why start()'s saves, one per task, may be taken together.
- Copy-on-write probing, sparse copies and reflinks: a copy is a copy of bytes; a freeze is an effect that may fail.
- Power loss: reordering of unsynced writes is modelled for `disk.meta` only; elsewhere effects reach the disk in order.
- Schema.Metadata.Migrate7To8: does not create the snapshot directories, and takes volume ids to be strings.
- Schema.Metadata.MigrateTo: schema versions that are not integers raise; Python also compares booleans and floats.
- Paths are plain strings, without normalisation; file permissions, umask and signatures are not modelled.
- HostPorts.Addresses.ExtractBuilt: which strings are addresses is a parameter, constrained only in that a version 4 address consists of digits and dots; int() is modelled on digit strings.
- NodeIndex.NodeIPMapping.Watch: the event loop is driven by a given sequence of answers; its stop event and its thread are left out, and a relist does not prune, as in the code.
- SnapshotPages.List: the sorted file list is given; globbing, file sizes and times are left out, as is ListSnapshots' printing of a missing token.
- NodePublishVolume and NodeUnpublishVolume of workloads, online resizing, the FastAPI server, metrics, analytics and polling waits are left out: they would only add easy members.
