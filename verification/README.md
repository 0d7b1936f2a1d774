# A verified model of the GCP Filestore CSI driver's multishare logic

The driver packs many Kubernetes volumes ("shares") onto few Filestore instances. This project models the
parts of it that keep shares, instances and the records about them in agreement, and proves what they
promise. Objects the code updates in place are classes here; pure code is functions; every property is for
all inputs, all map iteration orders, all interleavings, unless a row says otherwise.

* **Reconciler** (`Objects`, `ApiServer`, `StatefulController`, `PointerRepair`, `Placement`, `RepairRun`,
  `Sizing`, `Observation`, `Upkeep`, `Requests`, `RoundEnd`, `Writes`, `Reconciler`). The object store takes one
  write per step, refuses an update made from a copy that is no longer current, and may fail any call without effect; a
  store can also be `reliable`. The driver's own calls may land between any two steps (`Interleave`). The ghost
  field `unbroken` is recomputed at every single step, so `Clean()` says that the invariant `Safe` has held in
  each state on the way: in whatever state a process stops, the next one starts from a state that is `Safe`.
  Methods carry two ghost flags: `sound`, the invariant held when the stage began, and `exact`, no call fails
  and nobody else writes. The fault-free pointer repair is also a function of the visiting order, `RepairAll`.
* **Ops manager** (`Operations`, `Room`, `Fleet`, `OpsManager`, `MultishareController`). Six locked entry
  points over operations that end on their own at any time, also between the listing and the start. Exclusion
  holds in every run. Room for all shares holds in orderly runs; the field `orderly` turns false at the first
  start on an instance that another request is waiting for, with an oversized share, or for want of room after
  an outdated reading, and the entry points' contracts say exactly when that happens. The field `ended` records
  what has ended and how; the constant `willing` says that the cloud accepts every operation it can carry out,
  and with it the contracts say when something must be started.
* **IPv4 allocator** (`IpBlocks`, `IpAllocator`): first fit over aligned blocks (prefix notation of section
  3.1 of RFC 4632), with pending reservations.
* **Lock-info ConfigMaps** (`ConfigMapKeys`, `LockInfo`): several writers on a versioned object.
* **Names and tags** (`Text`, `Uris`, `VolumeIds`, `Tags`) and **sizes** (`Capacity`).

What turned out to be other than expected:

* Pointer repair leaves a share where it does not belong when the share points to an instance without object
  whose pool has no StorageClass, unless a share earlier in the same list has that instance created: that is
  exactly when the repair is incomplete for some order of the instances (`RepairRun.RepairedIff`,
  `Sizing.StrandedExample`). One stage is enough, in whatever order, exactly if such an instance is created for a
  share earlier in the same list or for no listed share at all (`RepairRun.SettlesIff`,
  `RepairRun.MixedExample`); `Reconciler.Reconciler.AssignTwice` says when a second stage writes.
* Nothing makes StorageClasses with the same instance tag have the same max-volume-size. An instance takes as
  many shares as its own parameter says, of whatever class of its pool, so its shares may add up to more than
  the 10 TiB it is clamped to (`Sizing.MixedSizesOverfill`). They cannot exactly when the limits of the listed
  shares add up to at most 10 TiB (`Sizing.FitsWhateverTheSizes`), and for a whole pool exactly when no class
  allows larger shares than the instance's own (`Capacity.CountLimitSafeIff`).
* Repair gives a share without instance the handle of whichever instance lists it, also one of another pool.
  In states of the invariant an instance lists shares of its own pool only; the results on fault-free stages
  hold from any objects and so allow for that third case (`Reconciler.Reconciler.AssignSharesToInstances`).
* A share expansion decides on an instance capacity read before the manager's lock is taken
  (`multishare_controller.go:470-496`), not on the instance fetched under the lock, so a shrink in between
  goes unnoticed: `Fleet.StaleReadingOverfills`, with the exact condition in `Fleet.DirectExpandSafeIff`.
* The second phase of a request does not look at the room again: `Fleet.SecondPhaseOverfills`, with the exact
  condition in `Fleet.StartSafeIff`.
* With no size asked for and the share count not configurable, CreateVolume checks 100 GiB and creates
  10 GiB: `MultishareController.CreatedSizeIsChecked`.
* A share is created on its host also when the update of the host's wanted capacity has just failed, and the
  host may be too small for it: `Requests.StuckHostOverfills`.
* A share that the cloud no longer holds is not marked deleted in a round that has just told a new error of the
  instance that lists it, since the share loop still works on the copy from before that write; and never if that
  instance has no object. `RoundEnd.AfterSends`, the outcome of `Reconciler.Reconciler.Round`, says exactly when.
* A snapshot request is served in the mode that the volume id spells anywhere, so a backup of an instance-mode
  volume whose id spells the multishare mode is accepted for another id: `VolumeIds.NoOtherSource`.
* The prefix test on operation targets can be fooled for exactly one instance name: `Uris.SubstringTestExact`.
* A lock-release handler can remove an entry that was staged again after its release, for another Filestore:
  `LockInfo.RestagedEntryRemoved`; `LockInfo.RemovalsWereReleased` says exactly when.
* The existence check before a ConfigMap key is removed looks at the older copy, not at the one the key is
  deleted from (`configmap_util.go:186-206`); the model follows the code.

## Model

| member | source | states |
|---|---|---|
| Reconciler.Run | pkg/csi_driver/reconciler.go:92-206 | crash-safe assignment over whole runs: through any number of rounds, failing or not, with driver calls in between and within, the invariant holds after every single write |
| Reconciler.RunFromScratch | pkg/csi_driver/reconciler.go:69-107 | the same from an empty store on |
| Reconciler.Reconciler.Round | pkg/csi_driver/reconciler.go:109-206 | one round: no operation is started but those that are due by the round's copies, the listing and the running operations, and none twice; a share that is created or resized fits its host if and only if the host's wanted capacity covers what its shares want, up to 10 TiB, which it does unless the update of that capacity failed; to fit means a ready instance that lists the share, observed at its wanted capacity, without the bound of 10 TiB if its share count allows for the shares' limits; an instance is deleted only if nothing live is assigned to it and the cloud holds nothing on it. Fault-free, if every InstanceInfo has its one finalizer: the copies say what the listing says, if that names none twice; every live share whose pool has a StorageClass has an instance, and every listed share points back or has a pool without StorageClass; each operation that is due, for a share or an instance, is started exactly once; every share object ends up marked deleted if the share is gone and its instance can drop it, and otherwise as it was but for the error there is to tell; every instance object ends up marked if it was or was empty with a finalizer, and of the least capacity for what it lists otherwise |
| Requests.DueOnce | pkg/csi_driver/reconciler.go:208-383 | at most one operation is due for a share or an instance; `Due` spells out the guards of all six |
| Requests.AllServed | pkg/csi_driver/reconciler.go:188-196 | instance requests first and share requests second come to every due operation once, if no call fails, and to no other |
| RoundEnd.RoundEnds | pkg/csi_driver/reconciler.go:208-435 | what the two halves of the sending leave of every share object and every instance object, if no call fails |
| RoundEnd.AssignedIsPrepared | pkg/csi_driver/reconciler.go:134-196 | what was recorded from the listing stands when shares have been assigned, and the stored instances are then marked and sized as they should be |
| Objects.CondemnedHostsNothing | pkg/csi_driver/reconciler.go:708-736 | no hosting instance is condemned: in a state of the invariant nothing live points to a marked instance and no share is held there |
| Objects.AssignHandleKeeps | pkg/csi_driver/reconciler.go:796-804 | giving a handle keeps the invariant when the instance lists the share first |
| Objects.InstanceChangeKeeps | pkg/csi_driver/reconciler.go:780-794 | an instance may change as long as it drops only names nothing live or held depends on |
| Objects.RemoveInstanceKeeps | pkg/csi_driver/reconciler.go:1003-1030 | removing a marked instance the cloud no longer holds keeps the invariant |
| Objects.MarkDeletedKeeps | pkg/csi_driver/reconciler.go:302-329 | marking a share deleted keeps the invariant when the cloud holds it nowhere |
| Reconciler.Reconciler.FixTwoWayPointers | pkg/csi_driver/reconciler.go:563-628 | pointer repair in any order: handles once set never change, a share leaves a list only if it belongs elsewhere, joins one only if it points there; an instance is created only for a listed share that points to it; fault-free the outcome is that of `RepairAll`; something is written if and only if some listed share neither points back nor is stranded |
| RepairRun.RepairEnds | pkg/csi_driver/reconciler.go:563-628 | fault-free and in any order, every listed share points back in the end or was stranded from the start |
| RepairRun.RepairSendsHome | pkg/csi_driver/reconciler.go:563-628 | fault-free and in any order, every live share that some instance listed is listed in the end by the instance it points to, or is stranded |
| RepairRun.RepairedIff | pkg/csi_driver/reconciler.go:563-628 | every listed share points back after a fault-free repair in whatever order, if and only if every listed stranded share comes after one in the same list that has its instance created |
| RepairRun.SettlesIff | pkg/csi_driver/reconciler.go:563-628 | a second repair finds nothing to do, in whatever order the first one went, if and only if every listed stranded share comes after one in the same list that has its instance created, or no listed share does |
| RepairRun.MixedExample | pkg/csi_driver/reconciler.go:563-628 | two shares of which one can have the missing instance created: the repair run in both orders, one settled and one not |
| RepairRun.RepairingStep | pkg/csi_driver/reconciler.go:563-628 | the visit of one instance, whatever fails in it, keeps the account of where every name and handle came from |
| Sizing.StrandedExample | pkg/csi_driver/reconciler.go:594-600 | a stranded share: nothing is repaired |
| PointerRepair.DropSharesKeeps | pkg/csi_driver/reconciler.go:613-627 | dropping shares that point elsewhere keeps the invariant |
| Reconciler.RemoveShareFromInstanceInfo | pkg/csi_driver/reconciler.go:948-967 | exactly this share leaves the list, and the flag says whether it was there |
| Reconciler.Reconciler.SendBack | pkg/csi_driver/reconciler.go:588-610 | the share is listed by the instance it points to, which is created if missing; every other instance is as before; nothing is written where it can neither be found nor created |
| Reconciler.Reconciler.AssignInstanceToShareInfo | pkg/csi_driver/reconciler.go:796-804 | a share without instance gets the handle of one that lists it, or nothing changes |
| Reconciler.Reconciler.AssignShareToInstanceInfo | pkg/csi_driver/reconciler.go:780-794 | the share is appended unless listed already, in which case nothing is written |
| Reconciler.Reconciler.GenerateInstanceInfo | pkg/csi_driver/reconciler.go:739-778 | the object is created only for a tag that has a StorageClass |
| Reconciler.Reconciler.AssignSharesToEligibleOrNewInstances | pkg/csi_driver/reconciler.go:632-703 | fault-free, every share then has an instance or cannot be placed, and newly assigned shares and an instance of their own pool point to each other; no list loses a name and what was settled stays settled; something is written if and only if some share can be placed |
| Reconciler.Reconciler.AssignShare | pkg/csi_driver/reconciler.go:632-703 | fault-free, one share goes to an instance it fits, to a new one only if it fits none, or cannot be placed |
| Placement.AddShareKeeps | pkg/csi_driver/reconciler.go:1265-1287 | a share that fits an instance may be added to it: pool and count limits stay kept |
| Placement.FitsExactly | pkg/csi_driver/reconciler.go:1265-1287 | a share fits if and only if the instance is not on its way out, is of the share's pool, is below its own count, and is not in phase Updating |
| Placement.NewTakesItsClass | pkg/csi_driver/reconciler.go:739-778 | a new instance has room for the share it is made for, and for as many of its class's largest as make up 10 TiB |
| Placement.PlacedStep | pkg/csi_driver/reconciler.go:650-703 | placing one share unsettles, displaces and makes room for no other |
| Reconciler.Reconciler.InstanceInfoNewCapacity | pkg/csi_driver/reconciler.go:969-999 | the wanted capacity covers every live share listed, up to 10 TiB, though shares may grow while they are looked up one by one |
| Sizing.ListedSharesFit | pkg/csi_driver/reconciler.go:1265-1295 | the clamp never cuts into the listed shares of an instance whose share count allows for their limits |
| Sizing.TargetCovers | pkg/csi_driver/reconciler.go:989-992 | a clamped target covers the listed shares up to 10 TiB, and without that bound if the share count allows for their limits |
| Sizing.FitsWhateverTheSizes | pkg/csi_driver/reconciler.go:1265-1295 | whatever sizes the listed shares take within their limits they fit the largest instance, if and only if their limits add up to at most that |
| Sizing.MixedSizesOverfill | pkg/csi_driver/reconciler.go:1265-1295 | two StorageClasses with one tag: ten listed shares and an eleventh that fits, 11 TiB on an instance clamped to 10 TiB |
| Capacity.CountLimitSafeIff | pkg/csi_driver/multishare_controller.go:912-955 | an instance's share count keeps the shares of its pool within 10 TiB, if and only if no StorageClass of the pool allows larger shares than its own |
| Reconciler.Reconciler.DeleteOrResizeInstances | pkg/csi_driver/reconciler.go:708-736 | fault-free, exactly those instances are marked that were marked or have a status with no names and a finalizer; every other one that lists names gets the least multiple of its step that holds what the named shares want, within 1 to 10 TiB; nothing else changes; something is written if and only if one was not so already; in any case an instance is going, empty, or to be large enough for its shares up to 10 TiB, unless the update of its wanted capacity failed |
| Sizing.SizedIsAfterStage | pkg/csi_driver/reconciler.go:708-736 | the stage as a function of one instance: marked, sized to the least capacity, or left alone, stated without that function |
| Reconciler.Reconciler.AssignSharesToInstances | pkg/csi_driver/reconciler.go:547-555 | the three stages: fault-free, every live share with a pool keeps its instance, gets one that listed it, of whatever pool, or one of its own pool, unless it cannot be placed; something is written if and only if the objects were not quiet, and they are quiet afterwards if and only if the repair has settled them |
| Reconciler.Reconciler.AssignTwice | pkg/csi_driver/reconciler.go:547-736 | quiescence: a second stage on the re-read result of a fault-free first one issues no write if and only if the first one's repair, in the order it took, has settled every share |
| Placement.UnsettledStays | pkg/csi_driver/reconciler.go:632-703 | placing shares settles nothing that the repair left unsettled |
| Sizing.SizedIsQuiet | pkg/csi_driver/reconciler.go:708-736 | with nothing left to place, sizing leaves nothing at all to do if and only if everything is settled |
| Reconciler.Reconciler.CreateAndUpdateShareInfos | pkg/csi_driver/reconciler.go:860-905 | fault-free, each listed share has an object that says what the cloud says |
| Reconciler.Reconciler.RecordShare | pkg/csi_driver/reconciler.go:1088-1118 | the status takes size, phase and parent from the listing, or nothing changes |
| Observation.RecordShareKeeps | pkg/csi_driver/reconciler.go:1088-1118 | recording a listed share never changes its handle in a state of the invariant |
| Reconciler.Reconciler.CreateAndUpdateInstanceInfos | pkg/csi_driver/reconciler.go:808-856 | fault-free, each listed instance has an object that says what the cloud says and lists the shares that live on it |
| Reconciler.Reconciler.MaybeUpdateInstanceInfoStatus | pkg/csi_driver/reconciler.go:1032-1085 | the new list is exactly the old names and those of the shares that live there; size, phase, step and IP range come from the listing |
| Observation.RecordInstanceKeeps | pkg/csi_driver/reconciler.go:1032-1085 | and that keeps the invariant, count limit and condemned instances included |
| Observation.NamesOnExact | pkg/csi_driver/reconciler.go:1163-1215 | the shares of an instance are exactly those listed with it as parent |
| Observation.SharePhase | pkg/util/util.go:310-321 | which reported states read as creating, ready and updating, and that none reads as deleted |
| Observation.InstancePhase | pkg/util/util.go:323-334 | the same for instances |
| Reconciler.Reconciler.MaybeRemoveInstanceInfoFinalizer | pkg/csi_driver/reconciler.go:1003-1030 | an unlisted instance is kept unless marked with a status; only then may its object go, and fault-free it does if this is its one finalizer |
| Requests.RunningOp | pkg/csi_driver/reconciler.go:1305-1325 | an operation is found running exactly when one without error is listed for the target; the error is what `OpError` says |
| Requests.OpErrorExact | pkg/csi_driver/reconciler.go:1305-1325 | the error is that of the last failed operation on the target before the first one that runs |
| Reconciler.Reconciler.SendInstanceRequests | pkg/csi_driver/reconciler.go:331-383 | only what is due for the instances is started, nothing twice, and fault-free all of it; fault-free, the error there is to tell is written to every instance that is stored as copied, and to no other |
| Reconciler.Reconciler.SendInstanceRequest | pkg/csi_driver/reconciler.go:332-382 | one turn: at most the one operation that is due for this instance, and fault-free exactly that |
| Reconciler.Reconciler.SendShareRequests | pkg/csi_driver/reconciler.go:208-299 | only what is due for the shares is started, nothing twice, and fault-free all of it; fault-free, of shares stored as copied those that are gone are marked deleted if their instance can drop them, and the error there is to tell is written to the others |
| Reconciler.Reconciler.SendShareRequest | pkg/csi_driver/reconciler.go:209-298 | one turn: at most the one operation that is due for this share, and fault-free exactly that; a share that is gone is marked deleted, of any other at most the error text is new |
| Reconciler.Reconciler.MaybeMarkShareInfoStatusDeleted | pkg/csi_driver/reconciler.go:302-329 | a share is marked deleted only after its instance no longer lists it |
| Requests.ShareOpsFit | pkg/csi_driver/reconciler.go:233-298 | safe share operations: the host is ready, its observed capacity is at least its wanted one, and that at least the sum of all shares on it, this one included, up to 10 TiB, and without that bound if its share count allows for their limits; so for every host that got its capacity, and for one that did not exactly if its wanted capacity covers its shares all the same |
| Requests.StuckHostOverfills | pkg/csi_driver/reconciler.go:208-299 | a host whose wanted capacity could not be raised: a share is created on it that does not fit |
| Requests.DeletedHostNothing | pkg/csi_driver/reconciler.go:354-357 | an instance whose deletion is started hosts nothing |
| Reconciler.Reconciler.UpdateInstanceInfoErr | pkg/csi_driver/reconciler.go:385-401 | the error text is written unless it is there already, and nothing else changes |
| Requests.EqualFoldExact | pkg/csi_driver/reconciler.go:385-419 | an error text counts as told already if and only if it is the same but for the case of its letters |
| StatefulController.CreateVolume | pkg/csi_driver/multishare_stateful_controller.go:60-157 | invalid exactly for a request that is not well formed, a size outside the limits, or a new volume without region; a missing object is created with the wanted size; on a reliable store, for an object that is there, done exactly if it has an instance and is ready, failed exactly if it has an instance, is not ready and has an error, and try again otherwise; a failed call changes nothing |
| StatefulController.WantedExact | pkg/csi_driver/multishare_stateful_controller.go:60-157 | which size a new volume gets, in whole GiB and within the limits of its StorageClass |
| StatefulController.WantedLargerExact | pkg/csi_driver/multishare_stateful_controller.go:250-320 | which size an expansion asks for |
| StatefulController.DeleteVolume | pkg/csi_driver/multishare_stateful_controller.go:159-228 | marks a live object, lets a marked one go exactly once it is deleted; without an object done exactly if the cloud does not hold the share; a failed call changes nothing |
| StatefulController.ExpandVolume | pkg/csi_driver/multishare_stateful_controller.go:250-320 | the wanted size becomes the larger of old and wanted; on a reliable store done exactly if the object wanted that size already and its share is ready and of that size; a failed call changes nothing |
| StatefulController.Interleave | pkg/csi_driver/multishare_stateful_controller.go:60-320 | any number of driver calls leave every earlier copy a true, if older, one |
| MultishareController.Run | pkg/csi_driver/multishare_ops_manager.go:67-601 | over any run of the six entry points with operations ending at any time: exclusion; and in orderly runs every instance's shares sum up to at most its capacity, which is at most 10 TiB, and their number to at most its maximum |
| MultishareController.Others | pkg/csi_driver/multishare_ops_manager.go:67-601 | any sequence of calls by anybody keeps both invariants; orderly requests that avoid an instance keep the run orderly and leave that instance alone |
| OpsManager.Manager.Meanwhile | pkg/csi_driver/multishare_ops_manager.go:604-634 | whatever ends between listing and start, an instance that was idle is unchanged, and what is running was running before |
| OpsManager.Manager.ListRunningOps | pkg/csi_driver/multishare_ops_manager.go:604-634 | the list covers exactly what is running |
| OpsManager.Manager.SetupEligibleInstanceAndStartWorkflow | pkg/csi_driver/multishare_ops_manager.go:67-166 | at most one operation: the share on an idle instance with room and free count, the growth of such an instance to the computed target, or a new instance of 1 TiB, and that only if every matching instance is idle and full or out of use; refused while a creation of that name runs, answered by the share if one of that name is there; from a willing cloud the place or the new instance is had whenever `DueAt` says so; and exactly when the run stays orderly |
| OpsManager.Manager.RunEligibleInstanceCheck | pkg/csi_driver/multishare_ops_manager.go:344-426 | the result holds exactly the listed instances that are ready, idle and not full |
| OpsManager.Manager.StartShareCreateWorkflowSafe | pkg/csi_driver/multishare_ops_manager.go:202-211 | starts at most this share's creation, and from a willing cloud does so if the instance is idle and has no such share; refused only if an operation in conflict runs; the run stays orderly for the request that waited for the instance |
| OpsManager.Manager.CheckAndStartInstanceOrShareExpandWorkflow | pkg/csi_driver/multishare_ops_manager.go:455-496 | joins this share's growth if and only if one runs, is refused if anything else runs on the instance, and on an idle one, if the cloud is willing, grows the share if the capacity read leaves room and the instance otherwise; orderly exactly if the capacity relied on has room for what the share lacks by then, the size is within limits and nobody waits |
| OpsManager.Manager.StartShareExpandWorkflowSafe | pkg/csi_driver/multishare_ops_manager.go:498-508 | starts at most this share's growth, and from a willing cloud does so if the instance is idle and has the share; the run stays orderly for the request that waited |
| OpsManager.Manager.CheckAndStartShareDeleteWorkflow | pkg/csi_driver/multishare_ops_manager.go:510-529 | joins this share's deletion if and only if one runs, and otherwise starts it, from a willing cloud whenever the instance is idle and has the share; refused only if an operation in conflict runs; never makes a run disorderly |
| OpsManager.Manager.CheckAndStartInstanceDeleteOrShrinkWorkflow | pkg/csi_driver/multishare_ops_manager.go:531-601 | refused while anything runs on the instance; an idle instance is deleted if it has no shares and otherwise resized exactly to its shrink target, from a willing cloud whenever there is one; nothing to do is answered if and only if the idle instance is not there or has no target |
| OpsManager.Manager.StartInstanceWorkflow | pkg/csi_driver/multishare_ops_manager.go:213-249 | refuses exactly when a listed operation passes the prefix test; keeps both invariants |
| OpsManager.Manager.StartShareWorkflow | pkg/csi_driver/multishare_ops_manager.go:280-326 | refuses exactly when an operation on the host or on the share is listed; keeps both invariants |
| OpsManager.FindOp | pkg/csi_driver/multishare_ops_manager.go:648-662 | finds an operation of the type on the target if and only if one is listed |
| Operations.FreeInstance | pkg/csi_driver/multishare_ops_manager.go:328-341 | no listed operation passes the prefix test: nothing runs on the instance or its shares |
| Operations.BusyForAReason | pkg/csi_driver/multishare_ops_manager.go:664-677 | a refused instance has a running operation, unless its name is the one that can be mimicked |
| Operations.FreeShare | pkg/csi_driver/multishare_ops_manager.go:251-278 | with neither target listed, nothing in conflict with a share operation is running |
| Operations.BusyShareForAReason | pkg/csi_driver/multishare_ops_manager.go:251-278 | and a share operation is refused only because of one in conflict with it |
| Operations.RemoveKeepsExclusive | pkg/csi_driver/multishare_ops_manager.go:604-611 | an operation that ends leaves exactly the others, still exclusive |
| Operations.DemandRaise | pkg/csi_driver/multishare_ops_manager.go:455-496 | growing one share adds at most what it lacks to the room an instance may need |
| Fleet.StartKeepsRoom | pkg/csi_driver/multishare_ops_manager.go:213-326 | a start that leaves its own instance room leaves every instance room |
| Fleet.EndKeepsRoom | pkg/csi_driver/multishare_ops_manager.go:604-634 | an operation that ends, well or badly, leaves every instance room |
| Fleet.EndKeepsOrder | pkg/csi_driver/multishare_ops_manager.go:604-634 | and keeps exclusion and that an instance being deleted has no shares |
| Fleet.ExpandLeavesRoom | pkg/csi_driver/multishare_ops_manager.go:428-453 | an instance grown to what its shares and the expansion need has room for both, in whatever way the growth ends |
| Fleet.ExpandCovers | pkg/csi_driver/multishare_ops_manager.go:428-496 | the capacity that an expand relies on covers the larger share, clamp included, if the need is not too small and the share is grown at once only on a reading that holds |
| Fleet.GrowForShareLeavesRoom | pkg/csi_driver/multishare_ops_manager.go:116-131 | an instance grown for a new share has room for it, clamp included |
| Fleet.ShrinkLeavesRoom | pkg/csi_driver/multishare_ops_manager.go:577-600 | a shrunk instance still holds its shares |
| Fleet.SharesFitMax | pkg/csi_driver/multishare_controller.go:912-955 | shares within count and size limits fit 10 TiB |
| Room.CompletionKeepsRoom | pkg/csi_driver/multishare_ops_manager.go:604-634 | the end of any operation keeps its instance's room, and the claim of the request that waits for it unless that operation failed |
| Room.RoomyMeans | pkg/csi_driver/multishare_ops_manager.go:428-453 | room means: shares sum up to at most the capacity, which is at most 10 TiB |
| MultishareController.CreateVolume | pkg/csi_driver/multishare_controller.go:132-237 | invalid if and only if the request has no name, an unknown parameter or no acceptable size; done only if the share is there, and was there already or its creation with the size asked for has ended well meanwhile; done for sure if it is in use on an idle instance; the two-phase create keeps both invariants among any other requests, and keeps the run orderly among orderly ones that avoid its instance, if nobody waits for the matching instances and these take shares of the size limit |
| MultishareController.ExpandVolume | pkg/csi_driver/multishare_controller.go:436-527 | invalid if and only if no acceptable size is asked for; not found only if the share was not there or its instance has been removed; done only if the share was as large when it was read, or is now and a growth of it has ended well meanwhile; done for sure if it is on an idle instance and as large; keeps both invariants, and the run orderly if its instance is idle and nobody waits for it when the share is read, and takes shares of the size limit |
| MultishareController.DeleteVolume | pkg/csi_driver/multishare_controller.go:356-434 | done only if the share was not there, was removed with its instance, or its deletion has ended well meanwhile, and the instance is gone, has nothing to shrink, or its deletion or resize has ended well meanwhile; done for sure, among careful others, if there is neither share nor anything to shrink on an idle instance; keeps both invariants, and the run orderly if nobody waits for its instance |
| MultishareController.CreatedSizeIsChecked | pkg/csi_driver/multishare_controller.go:684-711 | the size created is the size checked except in one case, and never more |
| Fleet.StartSafeIff | pkg/csi_driver/multishare_ops_manager.go:202-508 | a share operation started without looking again leaves its instance room if and only if there is room at that moment for what it takes |
| Fleet.DirectExpandSafeIff | pkg/csi_driver/multishare_ops_manager.go:428-496 | a growth decided on an earlier reading is safe if and only if what the share lacks by now still fits, which is so whenever the reading still holds |
| Fleet.StaleReadingOverfills | pkg/csi_driver/multishare_ops_manager.go:478-496 | the run: a capacity is read, a shrink goes through, and a direct growth leaves the shares larger than the instance |
| Fleet.SecondPhaseOverfills | pkg/csi_driver/multishare_ops_manager.go:202-211 | the run: an instance is grown for one request, another takes the room, and the first one's share is created all the same |
| Capacity.AlignIsLeastMultiple | pkg/util/util.go:292-297 | alignment is the least multiple of the step not below the value |
| Capacity.ShareRequestCapacity | pkg/csi_driver/multishare_controller.go:779-823 | an accepted size is within the bounds and the request's own limits |
| Capacity.RequestExact | pkg/csi_driver/multishare_controller.go:779-823 | a request is accepted if and only if it asks for a size within the bounds, and then with that size |
| Capacity.LimitsExact | pkg/csi_driver/multishare_controller.go:912-955 | which max-volume-size parameters are accepted, and that count and size make up 10 TiB |
| Capacity.PackedSharesFit | pkg/csi_driver/reconciler.go:1289-1295 | shares within one class's limits fit the largest instance |
| Capacity.ClampCovers | pkg/csi_driver/reconciler.go:989-992 | the clamped size is legal and covers every total up to 10 TiB |
| Capacity.NewCapacityIsLeast | pkg/csi_driver/reconciler.go:969-999 | the size is the least multiple of the step not below the total, or the nearest of 1 and 10 TiB |
| Capacity.GrowExact | pkg/csi_driver/multishare_ops_manager.go:445-452 | a grow target is legal, covers the need if and only if it fits 10 TiB, then exceeds the old size and overshoots by less than a step |
| Capacity.ShrinkExact | pkg/csi_driver/multishare_ops_manager.go:577-590 | a shrink target is legal, below the old size, not below the shares, and final |
| Capacity.TargetsExact | pkg/csi_driver/multishare_ops_manager.go:428-600 | for legal sizes: when there is a target to grow and to shrink to, if and only if, and that it is the least legal size that will do |
| Capacity.SizesStayLegal | pkg/csi_driver/multishare_ops_manager.go:428-600 | sizes stay step-aligned in 1..10 TiB through any sequence of grows and shrinks |
| Uris.SubstringTestExact | pkg/csi_driver/multishare_ops_manager.go:664-677 | a target accepted by the grammar passes the prefix test if and only if it is the instance, one of its shares, or the one mimic |
| Uris.TestIsOwnership | pkg/csi_driver/multishare_ops_manager.go:328-341 | for generated targets the test is ownership, but for that one instance |
| Uris.TargetsOwnInstance | pkg/cloud_provider/file/file.go:1422-1452 | generated URIs are accepted targets and belong to their own instance only |
| Uris.MimicExample | pkg/csi_driver/multishare_ops_manager.go:664-677 | the side condition is needed: a whole family of unrelated shares passes the test |
| Uris.ShareUriInjective | pkg/cloud_provider/file/file.go:1442-1452 | share URIs are equal exactly for equal shares |
| VolumeIds.BackupSourceRoundTrip | pkg/csi_driver/volume_id.go:52-68 | building the backup source and converting it back gives the id, whatever region overwrites the backup's own, exactly when "modeMultishare" occurs in the id just in case that is its mode; otherwise an error |
| VolumeIds.RoundTripForDriverModes | pkg/util/util.go:211-223 | for the driver's two modes the source is recognised exactly unless an instance id spells the other mode |
| VolumeIds.NoOtherSource | pkg/cloud_provider/file/file.go:909-916 | for the driver's two modes no other volume passes as the source of a backup, if and only if the source is a multishare volume or its id does not spell that mode |
| VolumeIds.AcceptedExactly | pkg/cloud_provider/file/file.go:909-916 | which id a backup is accepted for, the request being served in the mode that the asked id spells: the parts of the stored id behind the mode that it was served in itself |
| VolumeIds.VolumeIdRoundTrip | pkg/csi_driver/volume_id.go:43-81 | the parser takes an id apart into what it was made of |
| VolumeIds.InstanceInfoNameRoundTrip | pkg/util/util.go:337-344 | the InstanceInfo name stands for the URI exactly when the URI has no dot |
| VolumeIds.ShareInfoNameRoundTrip | pkg/util/util.go:346-353 | a ShareInfo is found again from its share's name exactly when the volume name has no underscore or capital |
| ConfigMapKeys.ParseGenerated | pkg/releaselock/configmap_util.go:57-88 | parsing a generated key returns all six parts, or fails for an empty part or an invalid address |
| ConfigMapKeys.ParseGeneratedExact | pkg/releaselock/configmap_util.go:57-88 | exactly the entries without dots in their names, underscores in the address or empty parts, and with a valid address, are what their keys say |
| ConfigMapKeys.RegenerateParsed | pkg/releaselock/configmap_util.go:57-88 | a key that parses is regenerated unchanged |
| ConfigMapKeys.GenerateInjective | pkg/releaselock/configmap_util.go:82-88 | the key of an entry without dots in its names is the key of no other entry |
| ConfigMapKeys.DotsCollide | pkg/releaselock/configmap_util.go:82-88 | a dot in any of the five names gives another entry with the same key |
| ConfigMapKeys.OwnKeyIff | pkg/releaselock/configmap_util.go:82-88 | an entry has a key of its own if and only if its names have no dot |
| LockInfo.NothingLost | pkg/releaselock/configmap_util.go:137-206 | each accepted update alters at most its own key, and the contents are the replay of the accepted updates, under every interleaving |
| LockInfo.RemovalsWereReleased | pkg/releaselock/controller.go:73-124 | every key a handler removed had a successful release before it, and the entry removed is the released one if and only if the last accepted stage of that key since the handler read it, if there was one, had the released Filestore |
| LockInfo.RestagedEntryRemoved | pkg/releaselock/controller.go:275-316 | a restaged entry that is removed though its lock was not released |
| LockInfo.ReleasedIffGone | pkg/releaselock/controller.go:73-124 | an enabled release of an entry is logged if and only if its node is gone by what set the handler to work: not the new node and, on creation, not the latest one either, which was found; on an update not the new node but the old one; on a sync no node or another one |
| LockInfo.ReleasesWereDue | pkg/releaselock/controller.go:500-564 | over every run and interleaving, each lock released was that of such an entry |
| LockInfo.RefusedRemovalIsRetried | pkg/releaselock/configmap_util.go:186-206 | a removal refused for a stale version is tried again on a fresh read |
| LockInfo.StagedAlone | pkg/releaselock/configmap_util.go:137-160 | a staging that nobody gets in the way of adds its entry and nothing else |
| LockInfo.UnstagedAlone | pkg/releaselock/configmap_util.go:162-184 | an unstaging that nobody gets in the way of removes its entry and nothing else |
| IpBlocks.OverlapExact | pkg/util/ip_reservation.go:133-142 | the two-sided containment test is address-set intersection, for blocks of any sizes |
| IpBlocks.ContainsIsInterval | pkg/util/ip_reservation.go:133-142 | a block is the interval of its size from its masked address |
| IpAllocator.AllocateExact | pkg/util/ip_reservation.go:77-130 | first fit: the block lies in the CIDR, is aligned, free, and the lowest such block; an error if and only if the CIDR is narrower than a block, its address has bits set behind the block's prefix, or every aligned block meets a reserved range, the last address included |
| IpAllocator.FirstFitLowest | pkg/util/ip_reservation.go:95-130 | the search from any aligned address on |
| IpAllocator.GrantedIsNew | pkg/util/ip_reservation.go:77-130 | a granted block meets no pending one |
| IpAllocator.PendingStaysDisjoint | pkg/util/ip_reservation.go:43-130 | pending blocks stay pairwise disjoint through any calls of mixed sizes |
| IpAllocator.ReleaseUndoesGet | pkg/util/ip_reservation.go:56-66 | a release takes back exactly the block that was granted |
| IpAllocator.IPAllocator.GetUnreservedIPRange | pkg/util/ip_reservation.go:77-130 | the search loop finds the lowest free aligned block or refuses for one of the three reasons, and holds exactly the block it grants |
| Tags.MergeIsJoin | pkg/cloud_provider/user_tags.go:157-165 | on de-duplicated sets merging is commutative, associative and idempotent |
| Tags.DedupKeepsKeys | pkg/cloud_provider/user_tags.go:133-155 | every parent and key keeps a tag, the least, and only that one |
| Tags.LeExact | pkg/cloud_provider/user_tags.go:133-155 | least in byte order: by the first difference, or as a prefix |
| Tags.TagFromParts | pkg/cloud_provider/user_tags.go:133-155 | a tag is its parent and key, and behind the last slash its value |
| Tags.DedupAbsorbed | pkg/cloud_provider/user_tags.go:133-165 | de-duplicating before a merge changes nothing |
| Tags.ResourceTags.RemoveDuplicateTags | pkg/cloud_provider/user_tags.go:133-155 | the sorted pass in place computes exactly the least tag of each parent and key |
| Tags.ResourceTags.MergeTags | pkg/cloud_provider/user_tags.go:157-165 | the destination becomes the merge |

## Left out

- Network and API plumbing: Filestore client calls, paging, polling, informers, leader election, webhooks, gRPC, mounts; they appear as maps, steps and nondeterministic results. A failed listing or reading ends a round or call without effect.
- Feature flags other than the one that makes the share count configurable, performance settings, snapshots, the description override and labels.
- Reconciler.Run: rests on these standing hypotheses, built into the store's steps: InstanceInfo objects are written by one reconciler at a time; real shares and instances are created only by it and are listed from the moment their creation is accepted until they are gone; the filter on this cluster's labels has been applied to listings; a volume name has one tag and one max-volume-size, that of its StorageClass, while StorageClasses with one tag may differ in size; lists of share names start without duplicates; URIs are not empty and have no dot; each round reads fresh objects.
- Reconciler.Run: a share's ShareInfo name and its Filestore name are identified; `VolumeIds.ShareInfoNameRoundTrip` says when that is right. Errors of URI parsing in the send loops do not arise for such names.
- Reconciler.Reconciler.Round: operation exclusion is not claimed; the reconciler looks only for operations on the very target.
- Reconciler.Reconciler.Round: share operations on an instance whose wanted capacity could not be updated fit only under the stated condition; otherwise that is false (`Requests.StuckHostOverfills`).
- Reconciler.Reconciler.Round: beyond 10 TiB the wanted capacity covers the shares only where the instance's share count allows for the limits of the shares it lists; otherwise that is false (`Sizing.MixedSizesOverfill`).
- Requests.EqualFold: compares ASCII letters only.
- OpsManager.Manager.SetupEligibleInstanceAndStartWorkflow: which instances match a request (labels, network, tier, location) is a parameter; the IP range of a new instance is the allocator's business; deciding that a share is there already compares a protocol that a listing does not fill, and is modelled so.
- MultishareController.Run: capacity safety is claimed for orderly runs only; in others it is false (`Fleet.StaleReadingOverfills`, `Fleet.SecondPhaseOverfills`).
- MultishareController.CreateVolume: whether a share that is there is reported ready is a parameter; volume locks are not modelled.
- IpAllocator.AllocateExact: named ranges, IPv6 and /0 blocks are not modelled; reserved ranges are valid IPv4 CIDRs. Cloud ranges may be outdated by the time a block is granted, so uniqueness among concurrent creates is not claimed.
- ConfigMapKeys.ParseGenerated: which strings are IP addresses is a parameter.
- LockInfo.RemovalsWereReleased: retries and back-off are steps like any other; metrics and queues are left out.
- Single-share volumes, capacity bands, label merging and IP-range naming: true but easy.
