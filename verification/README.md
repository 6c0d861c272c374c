# A verified model of the backup-restore operator

The operator saves the Kubernetes objects a ResourceSet selects into an archive, and later restores such an archive
into a cluster: custom resource definitions first, then cluster-scoped, then namespaced objects, owners before
dependents, and finally deletes what the selectors match but the archive does not hold. This project models the parts
of it whose correctness spans many functions or many interleavings, and proves what they promise.

| file | what it models |
|---|---|
| `Results`, `GoStrings`, `Kube` | failure results, the string functions used, the API server: uids, resource versions, finalizers, deletion marks |
| `ArchivePath` | the identity of an object as a path and as authenticated data: three printers, one parser |
| `Base64`, `ArchiveCodec`, `ArchiveLoader`, `BackupRoundTrip` | writing the archive, loading it, and the round trip |
| `OwnerRefs`, `DependencyGraph`, `Fixpoint`, `RestoreResource`, `Ledger`, `Worklist`, `WorklistMeasure`, `Restore` | the dependency-ordered restore: graph, counters, worklist, one object's write, what a run has written and lost, the three phases |
| `CrdRestore` | what the CRD phase writes, read as versions |
| `Prune`, `WorkerPool` | the set difference that is deleted, and the 25 workers that delete it in two passes |
| `ArchiveRestore`, `DanglingReferences` | what a cluster looks like after the phases, whom its owner references name, and the runs that leave one dangling |
| `LiveServer`, `EndToEnd` | the collector against a live cluster, and loading, restoring and pruning as one run |
| `LeaseLock`, `LeaseClient` | the lease that admits one restore at a time, as a protocol and as one worker executes it |
| `CrdMerge`, `ScaleControllers` | keeping stored CRD versions across a rollback; stopping and restarting controllers around a restore |
| `Selection`, `OfflineMatch` | which objects a ResourceSet selects, and the offline tool that answers the reverse question |
| `BackupFilename`, `Retention` | which files a retention pattern reaches; keeping the newest N |
| `Initializer` | the initialise-once protocol |

Loops and updates in place are methods over class fields and arrays, each proved equal to a specification function
of the old state; the lemmas are about those functions. Protocols whose point is interleaving (the lease, the worker
pool, the initialiser) are state machines over arbitrary sequences of actions. Go's map iteration is a choice of any
remaining key. Panics of type assertions and index expressions are results of their own where the model reaches them.

## What the proofs brought to light

Each of these is a theorem below.

- A path that contains "filters" is taken for part of the archived ResourceSet. Objects of a type such as Istio's
  `envoyfilters` are archived but never loaded, and prune then deletes the live ones
  (`ArchiveLoader.FiltersAreDropped`, `Prune.ArchivedIsDeletedIff`). An encrypted object whose name ends in
  "filters" makes the whole archive unreadable (`BackupRoundTrip.FiltersNameAborts`).
- One unresolvable owner reference among others fails its object, although an object with only rejected
  references is restored without them (`RestoreResource.RefsFailIff` gives the exact condition).
- A call that Unlock loses on the way leaves the lease taken until the operator restarts, even for the Restore that
  holds it (`LeaseLock.AbandonedReachable`, `LeaseLock.AbandonedForever`).
- A controller that scale-down could not read but scale-up can, or one named twice, is shut down by the restore
  (`ScaleControllers.UnreadableOnceIsShutDown`, `ScaleControllers.NamedTwiceIsShutDown`). When errors are ignored, the
  first phase that fails scales every controller up while the later phases still run (`ScaleControllers.AtZeroIff`).
- An object gathered by two selectors is queued twice for deletion. The first pass does not mind, but in the pass
  that removes finalizers two workers can then make one update fail although every call is served; this happens
  only to objects queued twice that are live (`WorkerPool.ServedPassCanFailIff`).
- Restoring over an object that is being deleted removes it if the archived copy has no finalizers, and reports
  success: exactly these archived objects are missing after a completed restore
  (`RestoreResource.RestoredIsThereIff`, `EndToEnd.OnRestoreChange`). An owner reference the restore has written names
  no live object if and only if its owner is one of them (`Ledger.ReferenceLiveIff`, `ArchiveRestore.CompleteRefsExact`);
  with none of them archived nothing dangles (`ArchiveRestore.NothingDoomedNothingDangles`). References to owners the
  restore waits for are dropped in time. Three kinds are not waited for and can be left dangling: a CRD owned by
  another CRD, if Go's map presents it first (`DanglingReferences.CrdsDangle`); a CRD owned by an object of a later
  phase, always (`DanglingReferences.CrdOfLaterPhaseDangles`); and an object of an ordered phase that refers to a
  GlobalRole or RoleTemplate beside an owner that counts (`DanglingReferences.RoleDangles`).
- What a phase restores does not depend on the order of Go's maps, with one exception: an object that refers to a live
  owner, to a role and to something discovery cannot resolve is restored if the role is not there yet and fails if it
  is (`Restore.ResolvablePhaseIsDetermined`, `Restore.RoleDecides`).
- The offline check applies kind exclusions to exactly listed kinds, the collector does not
  (`OfflineMatch.ExclusionsDiffer`); and it misses rules that list, or match
  by a regexp, nothing but an irregular plural (`OfflineMatch.KindMissedIff`, `OfflineMatch.IrregularPluralIsMissed`).
- When more than N backups match but fewer than N can be stat'ed, retention panics (`Retention.MountPath.DeleteBackups`).
- Of a get-only type only what the last selector reads is gathered (`Selection.GetOnlyKeepsLastRead`).
- `setValidationOverride` drops a version whose `schema` is not a map (`CrdMerge.OverrideKeepsVersionsIff`).

## Model

| member | source | states |
|---|---|---|
| EndToEnd.OnRestoreChange | pkg/controllers/restore/controller.go:229-280 | On the tarball of a backup, on any cluster and with nobody else writing: the archive loads; if owners are archived and acyclic, references resolvable and no call fails, the restore phases succeed, and the run completes if pruning meets no obstacle; when pruning starts only doomed archived objects are lost and every reference the restore changed names a live uid unless its owner is doomed, exactly so once orderly phases have succeeded; a completed orderly run has every wanted archived object live, unchanged but for references renewed or dropped and the merge of CRDs, if and only if it was not being deleted or its archived copy has finalizers; and no live object that the ResourceSet of the backup matches as a listable type is left that was not archived, except those held by spec.finalizers |
| ArchiveRestore.RestorePhases | pkg/controllers/restore/controller.go:232-270 | On any cluster and whatever fails: only archived keys are touched, only doomed objects lost, and each reference of a changed object names a live uid unless its owner is doomed and was not waited for; orderly and fault-free phases succeed; orderly phases that succeed have brought back exactly the wanted objects that survive, with exact references |
| ArchiveRestore.PhaseComplete | pkg/controllers/restore/controller.go:364-380 | An error-free phase whose counted owners are all in it and acyclic restores exactly the objects that are not skipped |
| ArchiveRestore.OrderlyIsClean | pkg/controllers/restore/controller.go:232-270 | With every call served, references resolvable and owners archived and acyclic, no phase reports an error |
| ArchiveRestore.CompleteIsBack | pkg/controllers/restore/controller.go:232-270 | After a complete run each wanted object of the three maps is live as archived, its references renewed or dropped and CRDs merged, if and only if it survives; `BackIsAsArchived` and `CrdRestore.BackCrdIsMerged` spell it out |
| ArchiveRestore.BackIsAsArchived | pkg/controllers/restore/controller.go:631-748 | Kind, type, finalizers and content of an object brought back are the archived ones, and its references are the archived ones up to uids, or none; a CRD's content is `BackCrdIsMerged`'s |
| ArchiveRestore.WantedIff | pkg/controllers/restore/controller.go:403-408 | Meant to be brought back is everything but Rancher's own deployments in cattle-system, fleet's registration secrets and objects with a failing call |
| ArchiveRestore.SkippedIsNotAwaited | pkg/controllers/restore/controller.go:464-470 | Nothing ever waits for an object the loader leaves out as a builtin role |
| ArchiveRestore.CompleteRefsExact | pkg/controllers/restore/controller.go:658-674 | After a complete and clean run each reference of each restored object names a live uid if and only if its owner is not a wanted archived object that was being deleted and has no archived finalizers |
| ArchiveRestore.SettledChangesSound | pkg/controllers/restore/controller.go:658-674 | After any run, failed or not, a dangling reference of a changed object has a doomed archived owner, and one that an ordered phase did not wait for |
| ArchiveRestore.NothingDoomedNothingDangles | pkg/controllers/restore/controller.go:658-674 | If no archived object is doomed, every reference of a changed object names a live uid |
| ArchiveRestore.SettledLosesOnlyDoomed | pkg/controllers/restore/controller.go:676-748 | No object the cluster had is lost, unless it is archived and doomed |
| EndToEnd.PruneArchive | pkg/controllers/restore/prune.go:27-63 | Whether or not pruning succeeds no archived object changes and none appears; if it succeeds nothing matched and unarchived is left, but for spec.finalizers |
| EndToEnd.PruneOutcome | pkg/controllers/restore/prune.go:40-62 | Deleting exactly the targets leaves no matched object without an archive file, and leaves archived objects alone |
| ArchiveRestore.LoadedIsWellLoaded | pkg/controllers/restore/download.go:141-151 | In a loaded archive paths and keys identify objects, the three maps are disjoint, and they are split by namespace |
| ArchivePath.PathsAgree | pkg/controllers/restore/prune.go:46-50 | The path prune looks up and the one the owner graph expects are the path the writer writes |
| ArchivePath.PathSpelled | pkg/controllers/restore/download.go:79 | A path is resource.group#version, the namespace if there is one, and the name with .json |
| ArchivePath.ParseWriterPath | pkg/controllers/restore/download.go:92-107 | Parsing a written path gives back name, namespace, type and the authenticated data the writer used |
| ArchivePath.ParseTypeDirOfTypeDir | pkg/controllers/restore/controller.go:818-830 | getGVR undoes resource.group#version |
| ArchivePath.WriterPathInjective | pkg/resourcesets/collector.go:392-411 | No two objects share a path |
| ArchivePath.AuthenticatedDataInjective | pkg/resourcesets/collector.go:398-410 | The authenticated data tell the objects of a type apart |
| Base64.DecodeEncode | pkg/resourcesets/collector.go:453-454 | Decoding an encoded byte slice gives it back, for every length |
| Base64.SameBits | pkg/resourcesets/collector.go:453-454 | The digits spell the bits of the bytes, six at a time, and a tail is filled up with zeros and marked |
| Base64.UnquotedQuoted | pkg/controllers/restore/download.go:115-116 | Reading a quoted base64 string gives back the ciphertext that was written |
| ArchiveCodec.BackupWriter.WriteObject | pkg/resourcesets/collector.go:367-417 | One object is written where the API server keeps it, encrypted or not, with every field but six of its metadata, exactly if it is not being deleted or finalizers hold it; an error has a cause in the object or the transformer |
| ArchiveCodec.StrippedIff | pkg/resourcesets/collector.go:388-391 | What is written of an object has each field outside metadata with its value, and a metadata field with its value if and only if it is none of the six; nothing else does |
| ArchiveCodec.PersistedIff | pkg/resourcesets/collector.go:368-383 | Written is what is not being deleted, what has metadata.finalizers, and a Namespace with a non-empty list of spec.finalizers |
| ArchiveCodec.PlacedIff | pkg/resourcesets/collector.go:386-411 | The identity an object is written under is its type, its metadata's name and, for a namespaced type, its metadata's namespace |
| ArchiveCodec.BackupWriter.WriteType | pkg/resourcesets/collector.go:366-418 | One type's objects in order, a later copy replacing an earlier one, and what is left of them in memory |
| ArchiveCodec.BackupWriter.WriteBackupObjects | pkg/resourcesets/collector.go:364-421 | In any iteration order the files are exactly those of the gathered objects that belong in the archive, each standing for its object |
| ArchiveCodec.BackupIsStable | pkg/resourcesets/collector.go:369-390 | An archived object is archived again unchanged: nothing more is stripped, its identity and kind stay, and it is never taken for one on its way out |
| ArchiveLoader.ObjectsFromBackup.LoadDataFromFile | pkg/controllers/restore/download.go:87-153 | The path is recorded even when the file cannot be read; otherwise the object lands in the map its type and namespace say, or nowhere if it is a builtin role |
| ArchiveLoader.ObjectsFromBackup.LoadFromTarGzip | pkg/controllers/restore/download.go:55-84 | The entries are folded in order, and the first that cannot be read is the error; what the fold gives is stated by `LoadedExactly`, `PathsLoaded` and `SelectorsLoaded` |
| ArchiveLoader.FileRoundTrip | pkg/controllers/restore/download.go:92-130 | Whatever the writer stored for an object, decoding the file under its path gives the same identity and content, encrypted or not |
| ArchiveLoader.MissingConfigIsReported | pkg/controllers/restore/download.go:121-132 | An encrypted file read without an encryption configuration for its type is reported as such |
| ArchiveLoader.QuoteMeansEncrypted | pkg/resourcesets/collector.go:446-457 | A file starts with a quote exactly when encryption changed its content |
| ArchiveLoader.LoadsIffReadable | pkg/controllers/restore/download.go:55-84 | An archive loads if and only if every entry can be read |
| ArchiveLoader.LoadedExactly | pkg/controllers/restore/download.go:141-151 | An object is in a loaded map if and only if it belongs there and some entry holds it |
| ArchiveLoader.PathsLoaded | pkg/controllers/restore/download.go:70-91 | The recorded paths are the names of the regular entries that do not contain "filters" |
| ArchiveLoader.SelectorsLoaded | pkg/controllers/restore/download.go:70-77 | The selectors loaded are what the one entry named so says, merged into an empty ResourceSet, wherever it stands; none if there is none |
| ArchiveLoader.SlotIff | pkg/controllers/restore/download.go:141-166 | Builtin global roles and role templates are left out, CRDs go into their map, the others by whether they have a namespace |
| ArchiveLoader.ArchiveRoundTrip | pkg/controllers/restore/download.go:42-153 | A backup's tarball loads, and holds exactly what was archived minus builtin roles and paths containing "filters"; the selectors loaded are those of the ResourceSet the backup was made with, if no object's path contains "filters.json" |
| ArchiveLoader.FiltersAreDropped | pkg/controllers/restore/download.go:70-77 | Every object of a type whose name contains "filters" is among the dropped ones |
| BackupRoundTrip.BackupThenLoad | pkg/resourcesets/collector.go:364-468 | What is loaded from what the writer wrote is exactly every gathered object that finalizers or the server still hold, where the API server keeps it and with every field and value but six of its metadata, with the two exceptions |
| BackupRoundTrip.ArchivedExactly | pkg/resourcesets/collector.go:366-418 | An object is held if and only if it agrees, field by field but for those six, with a gathered one of its identity that is not on its way out |
| BackupRoundTrip.FiltersNameAborts | pkg/controllers/restore/download.go:70-77 | An encrypted object whose name ends in "filters" makes loading fail, since ciphertext does not parse as a ResourceSet |
| OwnerRefs.EligibleOwnersAccounted | pkg/controllers/restore/controller.go:430-512 | Every resolvable owner that is not a role is counted or was created before |
| OwnerRefs.CountedOwnersAreEligible | pkg/controllers/restore/controller.go:430-512 | Nothing else is counted |
| OwnerRefs.OwnerOfIff | pkg/controllers/restore/controller.go:437-503 | A reference resolves to an object exactly if it spells the object's group and version, discovery maps its kind to the object's resource, the names agree, and the object's namespace is the dependent's for a namespaced type and empty otherwise |
| OwnerRefs.WaitsForIff | pkg/controllers/restore/controller.go:430-512 | The paths an object waits for are those of the objects its references name, roles and cluster-scoped ones already created apart |
| OwnerRefs.ResolveRefTo | pkg/controllers/restore/controller.go:758-797 | A reference that names an object gets its present uid, or the object is missing |
| OwnerRefs.ResolveRefToNothing | pkg/controllers/restore/controller.go:762-774 | A reference that names nothing fails its object |
| OwnerRefs.UpdateOwnerRefs | pkg/controllers/restore/controller.go:750-799 | The references are rewritten in place, each to the uid of the live object of the type, name and namespace it names, or the leftmost failure is returned |
| DependencyGraph.AppendToAllEdges | pkg/controllers/restore/controller.go:504-511 | After listing an object under its owners it is listed under each as often as that owner occurs |
| DependencyGraph.WaitsForWritten | pkg/controllers/restore/controller.go:480-503 | The path an object waits for is the one its archived owner was written under |
| DependencyGraph.WaitsUnlessRancher | pkg/controllers/restore/controller.go:403-408 | Everything waits its turn but Deployments in cattle-system whose name ends in rancher or rancher-webhook |
| DependencyGraph.DroppedIff | pkg/controllers/restore/controller.go:513-527 | An object loses its references exactly if one was rejected and none makes it wait; it keeps them if all its owners were created earlier |
| DependencyGraph.PendingAfter | pkg/controllers/restore/controller.go:607-610 | Completing an owner lowers the pending count by the number of its occurrences |
| DependencyGraph.PendingZero | pkg/controllers/restore/controller.go:611-614 | The count is zero exactly when every owner is done |
| Fixpoint.RestorableIsFixpoint | pkg/controllers/restore/controller.go:569-629 | The least set closed under "succeeds and all counted owners are in it" holds nothing without its owners |
| Fixpoint.LeftOutIffBlocked | pkg/controllers/restore/controller.go:569-629 | An object is left out if and only if it lies in a set whose members each fail, were there before, or wait for a member or an absent owner: cycles and orphans |
| Fixpoint.EverythingRestorable | pkg/controllers/restore/controller.go:569-629 | Everything is restorable if and only if nothing fails, nothing was there before, every counted owner is present and there is no cycle |
| Fixpoint.OutcomesDetermine | pkg/controllers/restore/controller.go:569-629 | The set reached depends only on which objects succeed |
| Worklist.ExhaustedIsRestorable | pkg/controllers/restore/controller.go:569-629 | When the queue is empty, what was restored is exactly the restorable set |
| Worklist.AgreesAfterTelling | pkg/controllers/restore/controller.go:608-615 | A pending counter is positive whenever it is lowered, and an object is queued exactly when its last owner is done |
| Worklist.PhaseOrderIrrelevant | pkg/controllers/restore/controller.go:390-629 | Two runs of a phase with compatible outcomes restore the same objects whatever the iteration and queue order |
| Restore.ResolvablePhaseIsDetermined | pkg/controllers/restore/controller.go:390-629 | With the same failing calls and resolvable references any two runs of a phase restore the same objects |
| Restore.RoleDecides | pkg/controllers/restore/controller.go:750-799 | The exception: a live owner, a role and an unresolvable reference, in this order, make success depend on whether the role is there yet |
| Worklist.PhaseOwnersFirst | pkg/controllers/restore/controller.go:489-510 | Each owner an object may wait for comes before it in the log: earlier in the phase, or in an earlier one |
| WorklistMeasure.TurnDecreases | pkg/controllers/restore/controller.go:577-619 | For arbitrary lists, counters and queue, queue length plus dependents of uncreated owners drops with every turn |
| WorklistMeasure.WorklistEnds | pkg/controllers/restore/controller.go:577-619 | The loop ends within that many turns, whatever restoreResource answers |
| RestoreResource.RefsFailIff | pkg/controllers/restore/controller.go:750-799 | An object fails over its references if and only if discovery cannot resolve one of them while every earlier one is left alone or has a live owner |
| RestoreResource.RestoredOutcome | pkg/controllers/restore/controller.go:631-748 | A successful restore writes the manifest unchanged but for owner references; a failure has a failed call or an unresolvable reference behind it |
| RestoreResource.RestoredFaults | pkg/controllers/restore/controller.go:701-748 | A failing call writes nothing unless only the status update fails, and fails its object unless it is the webhook's refusal of a Rancher setting |
| Ledger.EnteredKeepsIntact | pkg/controllers/restore/controller.go:658-674 | Whatever is restored over whatever cluster, everything written before stays as written, and each of its references names a live uid or an owner this run lost |
| RestoreResource.RestoredIsThereIff | pkg/controllers/restore/controller.go:658-748 | An object whose restore reports success is in the cluster if and only if it was not being deleted or the archived copy has finalizers |
| Ledger.LostIffDoomed | pkg/controllers/restore/controller.go:676-748 | A clean run loses exactly the restored objects that were being deleted at the start and have no archived finalizers |
| Ledger.ReferenceLiveIff | pkg/controllers/restore/controller.go:658-674 | Over a whole clean run a written reference names a live uid if and only if its owner is not one of those |
| Ledger.AwaitedOwnersStayLive | pkg/controllers/restore/controller.go:489-510 | A reference whose owner the order waits for is never left dangling, whatever is being deleted |
| Ledger.DependentFirstDanglesIff | pkg/controllers/restore/controller.go:658-748 | Restored dependent first, whatever else either object refers to, a renewed reference is left dangling exactly if its owner does not survive |
| Ledger.ReferencesDroppedIff | pkg/controllers/restore/controller.go:658-674 | An object is written without references exactly if it has none or one of them names an owner that is not there |
| DanglingReferences.CrdsDangle | pkg/controllers/restore/controller.go:307-319 | Two CRDs, one owning the other and being deleted: restored dependent first, both succeed and the reference dangles |
| DanglingReferences.CrdOfLaterPhaseDangles | pkg/controllers/restore/controller.go:232-248 | A CRD owned by a cluster-scoped object that is being deleted: restored in the order of the phases, both succeed and the reference dangles |
| DanglingReferences.BindingWaitsForUser | pkg/controllers/restore/controller.go:430-512 | An object that refers to a user and to a role waits for the user alone |
| DanglingReferences.FourAreClusterScoped | pkg/controllers/restore/download.go:141-151 | The loader files all four objects of the example as cluster-scoped |
| DanglingReferences.FourRepresented | pkg/controllers/restore/controller.go:390-529 | The counters, lists and queue of the example are those of its owner graph |
| DanglingReferences.BindingComesBeforeRole | pkg/controllers/restore/controller.go:577-619 | From them the worklist reaches the object before the role |
| DanglingReferences.RoleDangles | pkg/controllers/restore/controller.go:658-748 | In that order all restores succeed, and the reference to the role, which was being deleted, dangles |
| Ledger.KeptAfter | pkg/controllers/restore/controller.go:631-748 | One more object keeps what a phase promises: everything restored is on record or was doomed from the start, nothing else is lost or touched |
| RestoreResource.RestoredTouches | pkg/controllers/restore/controller.go:631-748 | Restoring an object touches no other |
| Restore.RestoreRun.AddToOwners | pkg/controllers/restore/controller.go:430-512 | The adjacency lists gain the object once per counted owner entry; owners are counted with repetitions |
| Restore.RestoreRun.GenerateDependencyGraph | pkg/controllers/restore/controller.go:390-529 | In any iteration order counters, adjacency lists and first worklist represent the owner graph, and objects with only rejected references lose them |
| Restore.RestoreRun.RestoreResource | pkg/controllers/restore/controller.go:631-748 | The object is created, or replaced at its live version, with owner references renewed or dropped, and the run's account says whether it is there |
| Restore.RestoreRun.ReleaseDependents | pkg/controllers/restore/controller.go:608-617 | Telling the dependents keeps every counter equal to its outstanding owner entries, and is what the worklist function says |
| Restore.RestoreRun.Turn | pkg/controllers/restore/controller.go:577-619 | One turn of the loop is one turn of the worklist function and keeps counters, queue, order and account in agreement |
| Restore.RestoreRun.CreateFromDependencyGraph | pkg/controllers/restore/controller.go:569-629 | On any cluster the worklist ends empty, having restored exactly the restorable objects, in order, each tried at most once; every failure has a reason; the loop is a run of the worklist function; no owner that was waited for is lost |
| Restore.RestoreRun.RestoreCrd | pkg/controllers/restore/controller.go:308-319 | One CRD is merged with its live counterpart as that was before the phase, and then restored; nothing else is touched |
| Restore.RestoreRun.RestoreCRDs | pkg/controllers/restore/controller.go:307-325 | All CRDs are restored, each merged with the live one it found, or the first failure ends the phase |
| CrdRestore.WrittenCrdIsAccepted | pkg/controllers/restore/crd.go:16-92 | Of every CRD the phase has written over a live one: the archived versions stand unchanged in front, the live ones are all there, and the server accepts it whatever versions objects are stored under |
| CrdRestore.BackCrdIsMerged | pkg/controllers/restore/controller.go:307-319 | After a complete restore a CRD holds the archived content merged with that of the CRD the cluster had at the start, in this order, or the archived content if it had none |
| CrdRestore.BackCrdIsAccepted | pkg/controllers/restore/crd.go:16-92 | So a whole restore never asks the server to forget a stored version |
| Restore.RestoreRun.RestoreAll | pkg/controllers/restore/controller.go:232-270 | On any cluster: CRDs precede cluster-scoped precede namespaced objects, owners precede dependents across phases, nothing is tried twice, each phase is exact, nothing outside the archive is touched, only doomed objects are lost, and no owner that was waited for |
| WorkerPool.EachEntryOnce | pkg/controllers/restore/prune.go:78-119 | Under every interleaving each entry is queued, in exactly one hand, or processed, and only one worker ever received it |
| WorkerPool.NilPassSettles | pkg/controllers/restore/prune.go:78-119 | A pass that returns nil leaves each target gone or marked deleted, and nothing else changed |
| WorkerPool.PassOnlyMarks | pkg/controllers/restore/prune.go:93-114 | Under every schedule the first pass takes away no finalizer, and neither pass changes anything else of an object that is still there but its deletion mark |
| WorkerPool.StepsEnd | pkg/controllers/restore/prune.go:82-118 | Every step that changes anything brings a pass closer to its end, whatever the replies |
| WorkerPool.PassCanEnd | pkg/controllers/restore/prune.go:82-118 | From whatever point of a pass some schedule of served calls brings every worker to its end |
| WorkerPool.PruneRemovesTargets | pkg/controllers/restore/prune.go:65-76 | If the second pass returns nil every target without spec.finalizers is gone, whatever the first did |
| WorkerPool.ServedPassHasNoErrors | pkg/controllers/restore/prune.go:82-116 | With every call served the first pass never fails, and the second does not if no live object is queued twice |
| WorkerPool.ServedPassCanFailIff | pkg/controllers/restore/prune.go:82-116 | Some schedule makes a pass fail although every call is served if and only if it removes finalizers and two entries name the same live object |
| Prune.MarkForDeletion | pkg/controllers/restore/prune.go:40-61 | The targets are, type by type in some order, the gathered objects whose path is not in the archive |
| Prune.PruneIsExact | pkg/controllers/restore/prune.go:40-61 | An object is a target if and only if it was gathered and its writer's path was not loaded |
| Prune.ArchivedIsDeletedIff | pkg/controllers/restore/prune.go:52-60 | An archived object, builtin roles included, is a target exactly if it was gathered and its path contains "filters" |
| Prune.DisjointSelectorsSucceed | pkg/controllers/restore/prune.go:27-76 | With non-overlapping selectors and every call of the second pass served, it returns nil |
| Prune.DisjointSelectorsPrune | pkg/controllers/restore/prune.go:27-76 | Then exactly the unaccounted objects without spec.finalizers disappear |
| LiveServer.GatherAllLive | pkg/resourcesets/collector.go:58-108 | Everything gathered is a live object of the type it is filed under |
| LiveServer.MatchedIsGathered | pkg/resourcesets/collector.go:58-108 | Every live object a selector matches as an always listable type is gathered |
| LeaseLock.MutualExclusion | pkg/controllers/restore/controller.go:865-913 | Over all interleavings, failures and restarts a worker between Lock and the end of Unlock is the recorded holder, so there is at most one |
| LeaseLock.HolderChanges | pkg/controllers/restore/controller.go:890-913 | The holder only changes from nobody to the locker, from the unlocker to nobody, or at the start-up reset: Unlock never clears another's lease |
| LeaseLock.UnlockFreesIff | pkg/controllers/restore/controller.go:896-913 | Unlock frees the lease exactly when its read is answered and its write takes effect |
| LeaseLock.AbandonedForever | pkg/controllers/restore/controller.go:882-885 | A lease whose holder is gone is never taken again before a restart |
| LeaseLock.AbandonedReachable | pkg/controllers/restore/controller.go:896-902 | One lost read in Unlock is enough for that |
| LeaseLock.FreeLockIsTaken | pkg/controllers/restore/controller.go:865-888 | A free lease is taken by an undisturbed worker |
| LeaseLock.RestartFreesIff | pkg/controllers/restore/controller.go:125-128 | After a restart an undisturbed worker gets the lock, exactly if the start-up reset got through or nobody held it |
| LeaseClient.LeaseServer.Lock | pkg/controllers/restore/controller.go:865-894 | Lock, with anything happening between its calls, is one run of the protocol; it succeeds exactly when it leaves the worker as holder |
| LeaseClient.LeaseServer.Unlock | pkg/controllers/restore/controller.go:896-913 | Unlock likewise; answered calls free the lease |
| CrdMerge.MergeVersionsFromLiveCrd | pkg/controllers/restore/crd.go:27-92 | The backup CRD becomes the merge of its versions with the live ones, or stays as it is when no live CRD exists |
| CrdMerge.MergedIsValid | pkg/controllers/restore/crd.go:38-86 | The backup's entries stay an unchanged prefix, names are unique and exactly the union, one version is stored |
| CrdMerge.MergeIsIdempotent | pkg/controllers/restore/crd.go:38-86 | Merging again adds nothing |
| CrdMerge.RestoreAlwaysAccepted | pkg/controllers/restore/crd.go:16-26 | After any run of upgrades, restores and migrations restoring any valid backup is accepted, and its storage version takes over |
| CrdMerge.StoredIff | pkg/controllers/restore/crd.go:18-22 | Over any history status.storedVersions holds exactly the versions stored under at some moment and not migrated away since |
| CrdMerge.PlainRollbackFailsIff | pkg/controllers/restore/crd.go:18-22 | Without the merge a rollback fails after exactly those histories in which a version the backup lacks was stored under and not migrated away since |
| CrdMerge.SetValidationOverride | pkg/controllers/restore/controller.go:946-972 | The loop replaces the versions by their overridden forms, dropping those whose schema cannot be set |
| CrdMerge.OverrideKeepsVersionsIff | pkg/controllers/restore/controller.go:946-972 | All versions are kept, with names and storage flags, exactly when each schema is absent or a map |
| CrdMerge.OverrideKeepsValid | pkg/controllers/restore/controller.go:946-972 | Then the CRD stays valid |
| ScaleControllers.ScaleDown | pkg/controllers/restore/pause.go:12-43 | Counts are saved in the shared slice and zero is written, controller by controller |
| ScaleControllers.ScaleUp | pkg/controllers/restore/pause.go:45-59 | The saved counts are written back, or a missing spec panics |
| ScaleControllers.UpPanicsIff | pkg/controllers/restore/pause.go:45-59 | Scale-up panics exactly when it can read a controller that has no spec |
| ScaleControllers.FlowReturns | pkg/controllers/restore/controller.go:229-280 | A restore that leaves every named controller its spec does not panic |
| ScaleControllers.RestoreBetweenScaling | pkg/controllers/restore/controller.go:229-280 | The by-value struct hands the saved counts from scale-down to every scale-up |
| ScaleControllers.FlowEndsScaledUp | pkg/controllers/restore/controller.go:232-280 | Every exit ends with each controller at the count of the last reference to it in the slice |
| ScaleControllers.RestoreGivesBack | pkg/controllers/restore/pause.go:12-59 | For any list of references: a controller ends at the saved count, at zero if it is named again after it was scaled down, and at the archived count if none was saved |
| ScaleControllers.ScalingIsIdentityIff | pkg/controllers/restore/pause.go:12-59 | For any list of references, exactly when a controller ends at its original count: saved once as an int32; zero anyway if named again; named with that count by the archive if it could not be saved |
| ScaleControllers.AtZeroIff | pkg/controllers/restore/controller.go:229-270 | A controller that was scaled down and is left alone is at zero when a phase begins if and only if no earlier phase failed or zero is what it gets back; always, where errors are not ignored |
| ScaleControllers.OutOfReachIdentityIff | pkg/controllers/restore/pause.go:45-80 | A controller that scale-up cannot read or write, and the phases leave alone, ends at zero if it was scaled down and else at what it was; so it keeps its count exactly if it was not scaled down or was at zero |
| ScaleControllers.FlowGoesOn | pkg/controllers/restore/controller.go:229-280 | The state at a phase is the one from which the restore reaches its outcome |
| ScaleControllers.UnreadableOnceIsShutDown | pkg/controllers/restore/pause.go:12-59 | A controller unreadable only at scale-down, for which the archive names no count, ends at zero |
| ScaleControllers.NamedTwiceIsShutDown | pkg/controllers/restore/pause.go:12-59 | So does every controller that is scaled down and named more than once |
| Selection.FilterByKind | pkg/resourcesets/collector.go:172-213 | Exact kinds or plural names, or the regexp minus exclusions; an uncompilable pattern is an error |
| Selection.FilterByName | pkg/resourcesets/collector.go:215-267 | Exact names, or the include regexp minus the exclude regexp |
| Selection.FilterByNamespace | pkg/resourcesets/collector.go:269-296 | Exact namespaces or the regexp |
| Selection.UnrollPaginatedListResult | pkg/resourcesets/collector.go:298-317 | For any page sizes the whole snapshot in order, unless a call fails |
| Selection.FiltersCompose | pkg/resourcesets/collector.go:128-148 | Filtering step by step is selecting by kind and name and namespace and server-side selectors |
| Selection.GatherObjectsForResource | pkg/resourcesets/collector.go:128-170 | One type's selected objects, or the error of the first step that fails |
| Selection.ResourceHandler.GatherResources | pkg/resourcesets/collector.go:58-108 | The result map is the fold over selectors and types, or an error |
| Selection.GatherMeetsSpec | pkg/resourcesets/collector.go:58-108 | A listable type's result is the concatenation over the selectors of what each selects |
| Selection.PickedMembers | pkg/resourcesets/collector.go:58-108 | An object is gathered if and only if some selector selects it |
| Selection.GatheredIff | pkg/resourcesets/collector.go:58-108 | An object of a listable type is in the result if and only if some selector, under an API version that spells the type's, asks for its kind, name, namespace, labels and fields; each of the rules for lists, patterns and exclusions is written out |
| Selection.GatherSucceedsIff | pkg/resourcesets/collector.go:58-108 | Gathering fails only where a call does or a pattern that is needed does not compile |
| Selection.GetOnlyKeepsLastRead | pkg/resourcesets/collector.go:80-90 | Of a type that cannot be listed, what is gathered over all selectors is what the last of them to read it got |
| Selection.ReadsIff | pkg/resourcesets/collector.go:80-90 | The reads are those of the selectors that keep the type, under an API version that spells the type's, when discovery says get but not list |
| Selection.GetOnlyConcatenatesIff | pkg/resourcesets/collector.go:80-90 | That is the concatenation a listable type would get if and only if every earlier read came back empty |
| Selection.GetOnlyIff | pkg/resourcesets/collector.go:322-360 | A read brings exactly one object for each listed name, in each listed namespace of a namespaced type, in this order, or nothing if one is missing |
| OfflineMatch.GetKindCandidates | cmd/tool/internal/chart/match.go:178-194 | The distinct spellings tried: as given, lower case, naive plural |
| OfflineMatch.MatchesKind | cmd/tool/internal/chart/match.go:139-174 | The verdict over all spellings, exclusions applied to every way of matching |
| OfflineMatch.MatchesName | cmd/tool/internal/chart/match.go:208-250 | The collector's rule for one name; patterns are only compiled when the exact list fails |
| OfflineMatch.MatchesNamespace | cmd/tool/internal/chart/match.go:253-275 | The collector's rule for one namespace |
| OfflineMatch.TryMatch | cmd/tool/internal/chart/match.go:65-133 | The first verdict that is not a plain yes decides; unchecked conditions become caveats |
| OfflineMatch.Check | cmd/tool/internal/chart/match.go:49-63 | All rules of all sets in order, or the first error |
| OfflineMatch.CheckReportsAll | cmd/tool/internal/chart/match.go:49-63 | Exactly the rules that cover the resource are reported; it fails exactly when some rule cannot be judged |
| OfflineMatch.ReportedIffCovers | cmd/tool/internal/chart/match.go:65-133 | A rule is reported only if API version, some spelling of the kind, name, namespace and labels, as far as given, meet it, and always then if its patterns compile |
| OfflineMatch.CheckAnswers | cmd/tool/internal/chart/match.go:49-63 | Whatever Check reports covers the resource, and with sound rules it reports every rule that does, under its set, number and sources |
| OfflineMatch.CaveatsIff | cmd/tool/internal/chart/match.go:96-126 | A caveat is left exactly for a namespace or label condition without data to check it against, and for field selectors |
| OfflineMatch.NoFalseReport | cmd/tool/internal/chart/match.go:65-133 | Described in full, an object is reported without caveats exactly if the rule covers its kind and the collector, kinds apart, selects it; where the two agree on the kind, exactly if the collector selects it |
| OfflineMatch.NamesMirrored | cmd/tool/internal/chart/match.go:208-250 | With compilable patterns filterByName keeps exactly what matchesName accepts |
| OfflineMatch.NamespacesMirrored | cmd/tool/internal/chart/match.go:253-275 | The same for namespaces |
| OfflineMatch.KindNotMissed | cmd/tool/internal/chart/match.go:139-174 | A kind the collector keeps, by its kind or by a plural that is tried, is accepted exactly unless one of its spellings is excluded |
| OfflineMatch.KindMissedIff | cmd/tool/internal/chart/match.go:139-174 | Kind exclusions apart, the offline check misses exactly the rules that keep a type for its plural alone when no spelling it tries is listed or matched |
| OfflineMatch.IrregularPluralIsMissed | cmd/tool/internal/chart/match.go:178-194 | A rule that lists "ingresses" is missed for the kind Ingress |
| OfflineMatch.NoMissedRule | cmd/tool/internal/chart/match.go:65-133 | A rule that would gather an object covers any true description of it, exactly unless its kind is excluded |
| OfflineMatch.CheckMissesNothing | cmd/tool/internal/chart/match.go:49-63 | With sound rules and no kind exclusions Check reports every rule by which the collector would gather the object |
| OfflineMatch.ExclusionsDiffer | cmd/tool/internal/chart/match.go:146-152 | A kind both listed and excluded is kept by the collector and rejected offline |
| BackupFilename.RetentionReachesIff | pkg/controllers/backup/retention.go:48-56 | A Backup's pattern matches a generated file exactly if encryption agrees and it is its own or that of a Backup named "name-uid..." |
| BackupFilename.PrefixForcesName | pkg/controllers/backup/controller.go:351-357 | The hyphens of a UUID keep it from overlapping itself or the timestamp in a file name |
| Retention.Backup.ValidateBackupSpec | pkg/controllers/backup/controller.go:332-349 | Recurring specs need a valid schedule, and the retention count ends up at least 1 |
| Retention.SortNewestFirst | pkg/controllers/backup/retention.go:76-78 | The slice becomes a permutation of itself, newest first, for the non-strict comparator |
| Retention.MountPath.DeleteBackups | pkg/controllers/backup/retention.go:48-86 | Nothing is deleted up to N matches; otherwise all readable ones but the N newest, up to the first removal that fails; fewer than N readable ones panic |
| Retention.RetentionKeepsNewest | pkg/controllers/backup/retention.go:56-86 | Undisturbed, exactly the N newest matching files remain and others are untouched |
| Retention.MountPath.RecurringBackup | pkg/controllers/backup/controller.go:187-190 | Writing a backup file under its generated name and applying retention is one recurring run on the files the pattern matches, and leaves the others alone |
| Retention.RetentionIsRecurringRun | pkg/controllers/backup/retention.go:48-86 | An undisturbed outcome of deleteBackupsFromMountPath after a new matching file is such a run |
| Retention.RunsKeepNewest | pkg/controllers/backup/controller.go:187-190 | Over any sequence of recurring runs the files are the N newest of all ever written, and the strictly newest is among them |
| Initializer.AtMostOnce | pkg/util/initializer.go:14-24 | At most one call of f completes, and none starts after that |
| Initializer.WaitersSeeTheValue | pkg/util/initializer.go:33-40 | A thread past WaitForInit sees the flag and the value f wrote, for ever |
| Initializer.NoLostWakeup | pkg/util/initializer.go:33-60 | With the mutex free and the flag up nobody is parked |
| Initializer.MutexIsExclusive | pkg/util/initializer.go:14-60 | The mutex has one holder |
| Initializer.PanicLeavesRoom | pkg/util/initializer.go:14-24 | After a panicking f a later InitOnce runs its own |
| Initializer.StepsEnd | pkg/util/initializer.go:14-40 | Once a value is written every step that changes anything brings the threads closer to the end of their calls |
| Initializer.AllGetPast | pkg/util/initializer.go:14-40 | From any reachable state in which a value was written or a thread has yet to finish InitOnce, some schedule brings every thread past its call |

## Left out

- Restore.RestoreRun.RestoreCRDs: the merge is a function of the two contents that the run is given, which CrdRestore takes to be the one modelled on versions in CrdMerge; waiting for the CRDs to be established is left out.
- Restore.RestoreRun.RestoreResource: the special cases of `customize`, the preserveUnknownFields migration and the status subresource are content the manifest's payload does not show; a type assertion that panics on malformed metadata is left out.
- EndToEnd.OnRestoreChange: assumes names that obey the API server's rules and no other writer; scaling controllers down and up is modelled in ScaleControllers, the lease in LeaseLock, and neither is part of this run.
- LeaseLock.MutualExclusion: takes it from the work queue that one Restore is never processed twice at once.
- WorkerPool.EachEntryOnce: workers are steps of a state machine, not methods; the deadline between the two passes is not modelled.
- Initializer.AtMostOnce: threads are steps of a state machine over the mutex and the condition variable; the context variants are not modelled.
- Selection.ResourceHandler.GatherResources: the API server answers each list call from one snapshot; expired continue tokens are a failed call.
- ArchiveLoader.FileRoundTrip: encryption and JSON are abstract functions with the laws stated in `Undoes`, `LawfulJson`, `LawfulStrings` and `LawfulFilters`; JSON escapes inside a quoted ciphertext are not modelled, nor is the rounding of integers beyond 2^53 when Go reads a number back as a float.
- Retention.SortNewestFirst: stands for Go's sort, whose contract it meets; equal times may be ordered differently.
- EqualFold and ToLower are those of ASCII text; kinds and resource names are ASCII.
- filepath.Join is modelled on clean elements; names with "/" or ".." do not occur in the API server's objects.
- Retention on S3, whose pattern has no start anchor, and all S3, TLS and credential handling.
- tar, gzip and the file system: an archive is a list of entries, or a map from path to bytes.
- Cron schedules, clocks, sleeps, retries on conflict, status conditions, metrics, logging and chart rendering.
