# Volume expansion and ownership core of a Kubernetes fork, in Dafny

This project models the bookkeeping and decision rules around growing a
persistent volume in a Kubernetes fork, and proves properties about them. It
also models how a mounted volume is handed to a pod's fsGroup.

- **Resize conditions** (`ResizeUtil`): `MergeResizeConditionOnPVC` merges
  the requested `Resizing` / `FileSystemResizePending` conditions into a
  claim's condition list. The `Mark*` helpers and `UpdatePVSize` build the
  objects that are then patched.
- **Expand controller cache** (`DesiredStateOfWorld`): a table of resize
  requests keyed by claim UID, each with a done flag.
- **Reconciler tick** (`Reconciler`): one pass over the pending requests. It
  skips those whose operation is in flight, calls `GrowPvc` on the rest, and
  only logs errors.
- **Node expansion** (`VolumeOperation`): the guard chain of
  `NodeExpandVolume`. It decides `(done, err)` and which effects happen: the
  claim fetch, events, the plugin's `NodeExpand` and the status patch.
- **Operation errors** (`OperationTypes`): transient, non-final and other
  errors, and the two classifiers.
- **Claim admission** (`ClaimAdmission`): dropping a disabled `DataSource` or
  `AllocatedResources` from a claim, and `SetAllocatedResources`.
- **CSI attach limits** (`CsiVolumePredicate`): the scheduler predicate. It
  counts a pod's new CSI volumes per limit key, together with those already
  attached on the node, against the node's limits.
- **Volume ownership** (`FileModes`, `VolumeLinux`): `SetVolumeOwnership`
  walks the volume. It hands each entry to the fsGroup and adds the
  permission mask. With the OnRootMismatch policy, a root that is already
  right skips the walk.

Collaborators become inputs:
- feature gates are booleans;
- quantities are integers;
- API lookups and the storage-class, volume and claim listers are maps or
  `Result` values;
- the plugin's answers and the patch outcome are values;
- the CSI migration library is a record of functions;
- the file system is a map from paths to entries.

Stateful parts are classes whose methods are proved against specification
functions:
- the desired-state table;
- the claim being admitted;
- the file system being walked.

Go map iteration order is modelled as nondeterministic choice (`:|`), so
nothing is proved about it.

The model follows the code as written in two places where the code does
something surprising:
- `AddPvcUpdate` reads both the new and the old size from the new claim, so
  its guard never holds and the table never changes.
  `DesiredStateOfWorld.AddPvcUpdate` proves exactly that.
  `StoredWhenGrown` states what the guarded store does when it does hold.
- In `SetVolumeOwnership` and `changeAllFilesPermissions`, a failing child
  ends the loop, but the function returns the `readDirNames` error. That
  error is nil at that point, so a failure below the root is never reported.
  In `SetVolumeOwnership` it also leaves the root unchanged.
  - `VolumeLinux.WalkChildrenStopsAt` proves that the loop ends at the
    failing child and visits no later one.
  - `VolumeLinux.WalkError` proves that the child's failure is not reported.
  - `VolumeLinux.OwnershipStopLeavesRoot` proves that `SetVolumeOwnership`
    then returns no error and leaves the root as it was.

## Model

| member | source | states |
|---|---|---|
| ResizeUtil.IsKnownResizeCondition | pkg/volume/util/resize_util.go:34-39 | the two resize condition types, `FileSystemResizePending` and `Resizing`; no contract of its own |
| ResizeUtil.ClaimToClaimKey | pkg/volume/util/resize_util.go:47-49 | the key is the namespace, a `/`, then the name |
| ResizeUtil.ClaimKeyIdentifiesClaim | pkg/volume/util/resize_util.go:47-49 | for namespaces without `/`, equal keys mean equal namespace and name |
| ResizeUtil.RequestedByTypeSpec | pkg/volume/util/resize_util.go:171-173 | every requested type is in the map, each entry is a requested condition of that type, and the last request of a type wins |
| ResizeUtil.BuildResizeConditionMap | pkg/volume/util/resize_util.go:169-173 | the map holds, for each requested type, the last requested condition, unprocessed |
| ResizeUtil.ScanConditions | pkg/volume/util/resize_util.go:175-192 | the scan keeps the retained conditions in order and flags exactly the requested types it met |
| ResizeUtil.AppendUnprocessed | pkg/volume/util/resize_util.go:194-200 | the retained prefix is kept; after it, each requested type not met by the scan is appended exactly once |
| ResizeUtil.MergeResizeConditionOnPVC | pkg/volume/util/resize_util.go:166-202 | only the conditions change, and they are a possible merge: the retained conditions in order, then the unprocessed requests once each |
| ResizeUtil.NonResizeOfRetained | pkg/volume/util/resize_util.go:177-182 | the scan keeps every non-resize condition, in order |
| ResizeUtil.MergeKeepsForeignConditions | pkg/volume/util/resize_util.go:177-199 | the merged list's non-resize conditions start with the old ones in order; when only resize types are requested, they are exactly the old ones |
| ResizeUtil.RetainedResizeElements | pkg/volume/util/resize_util.go:184-191 | a retained resize condition has a requested type and its status, and is either the request or an old condition |
| ResizeUtil.RetainedKeepsMatching | pkg/volume/util/resize_util.go:184-190 | an old resize condition of a requested type is kept when the status matches, otherwise the request takes its place |
| ResizeUtil.MergeResizeFromRequest | pkg/volume/util/resize_util.go:184-199 | every resize condition in the result has a requested type and that request's status, so unrequested resize types are dropped |
| ResizeUtil.MergeReplacesOnStatusChange | pkg/volume/util/resize_util.go:184-190 | an old condition with the requested status survives (timestamp included); with a different status, the request appears instead |
| ResizeUtil.MergeCarriesEveryRequest | pkg/volume/util/resize_util.go:171-199 | every requested type ends up in the result with the requested status |
| ResizeUtil.MergeKeepsResizeTypesUnique | pkg/volume/util/resize_util.go:166-202 | if each resize type occurred at most once before, it occurs at most once after |
| ResizeUtil.PatchPVCStatus | pkg/volume/util/resize_util.go:136-162 | the patch yields the new claim, or fails with the `PatchPVCStatus.Failed to patch PVC` message |
| ResizeUtil.MarkResizeInProgress | pkg/volume/util/resize_util.go:83-96 | the copy differs only in conditions: a true `Resizing` condition, no `FileSystemResizePending`, non-resize conditions unchanged; the result is the patch outcome |
| ResizeUtil.MarkForFSResize | pkg/volume/util/resize_util.go:99-113 | the copy differs only in conditions: a true `FileSystemResizePending`, no `Resizing`, non-resize conditions unchanged; an error exactly when the patch fails, and then it is `PatchPVCStatus`'s error |
| ResizeUtil.MarkedConditions | pkg/volume/util/resize_util.go:83-113 | merging a single true resize condition leaves that condition true, no other resize type, and the non-resize conditions as they were |
| ResizeUtil.MarkFSResizeFinished | pkg/volume/util/resize_util.go:124-133 | the copy has the new storage capacity and exactly the non-resize conditions, nothing else changed; an error exactly when the patch fails |
| ResizeUtil.FinishedConditions | pkg/volume/util/resize_util.go:128-129 | merging no conditions leaves exactly the non-resize ones, in order |
| ResizeUtil.MarkResizeFinished | pkg/volume/util/resize_util.go:116-121 | the copy has the new storage capacity, exactly the non-resize conditions and nothing else changed, so no resize condition is left; an error exactly when the patch fails, and then it is `PatchPVCStatus`'s error |
| ResizeUtil.UpdatePVSize | pkg/volume/util/resize_util.go:52-80 | the clone differs only in its storage capacity, which is the new size; the patch error carries the `Error Patching PV` message |
| DesiredStateOfWorld.PvcWithResizeRequest.UniquePvcKey | pkg/controller/volume/expand/cache/desired_state_of_world.go:45-47 | a request's key is its claim's UID; `NewRequest` and `StoredWhenGrown` state what follows from it |
| DesiredStateOfWorld.NewRequest | pkg/controller/volume/expand/cache/desired_state_of_world.go:59-66 | the request is keyed by the claim's UID, carries status capacity and requested size, and is not done |
| DesiredStateOfWorld.DesiredStateOfWorld.constructor | pkg/controller/volume/expand/cache/desired_state_of_world.go:49-52 | the table starts empty |
| DesiredStateOfWorld.DesiredStateOfWorld.AddPvcUpdate | pkg/controller/volume/expand/cache/desired_state_of_world.go:54-69 | the guarded store with both sizes read from the new claim, which leaves the table unchanged |
| DesiredStateOfWorld.DesiredStateOfWorld.StoreIfGrown | pkg/controller/volume/expand/cache/desired_state_of_world.go:58-68 | the table becomes the guarded store of the request |
| DesiredStateOfWorld.StoredUnlessGrown | pkg/controller/volume/expand/cache/desired_state_of_world.go:55-58 | a store whose two sizes are equal changes nothing |
| DesiredStateOfWorld.StoredWhenGrown | pkg/controller/volume/expand/cache/desired_state_of_world.go:58-67 | a grown store files the request under its UID, overwriting, makes it pending and leaves other entries alone |
| DesiredStateOfWorld.DesiredStateOfWorld.GetPvcsWithResizeRequest | pkg/controller/volume/expand/cache/desired_state_of_world.go:72-80 | exactly the stored requests that are not done, each once |
| DesiredStateOfWorld.DesiredStateOfWorld.MarkAsResized | pkg/controller/volume/expand/cache/desired_state_of_world.go:82-88 | the stored entry under the argument's key is flagged done; an unknown key is ignored |
| DesiredStateOfWorld.MarkedSpec | pkg/controller/volume/expand/cache/desired_state_of_world.go:82-88 | marking keeps the keys and every other entry, and removes the key from the pending set, so a later listing omits it |
| DesiredStateOfWorld.MarkedIdempotent | pkg/controller/volume/expand/cache/desired_state_of_world.go:82-88 | marking twice equals marking once |
| Reconciler.VolumeKey | pkg/controller/volume/expand/reconciler/reconciler.go:57 | the in-flight check uses the claim UID as the volume name |
| Reconciler.Reconcile | pkg/controller/volume/expand/reconciler/reconciler.go:54-68 | `GrowPvc` is called only on listed, not-done requests that are not in flight, once per key, on every such key; the log holds exactly their errors |
| Reconciler.GrowEach | pkg/controller/volume/expand/reconciler/reconciler.go:56-67 | the calls are the requests not in flight, in listing order, and errors are logged without stopping |
| Reconciler.NotInFlightSpec | pkg/controller/volume/expand/reconciler/reconciler.go:58-62 | a request is called if and only if it was listed and is not in flight; distinct keys stay distinct |
| Reconciler.GrowErrorsSpec | pkg/controller/volume/expand/reconciler/reconciler.go:62-65 | every error `GrowPvc` returns is logged, and every logged error came from a call |
| OperationTypes.OperationError.Error | pkg/volume/util/types/types.go:60-62 | the text of an error is its message; the two constructors below state it |
| OperationTypes.IsOperationFinishedError | pkg/volume/util/types/types.go:82-90 | false for the two retryable kinds, true otherwise; `ClassifiersAgree` states it over every error |
| OperationTypes.IsNonFinalError | pkg/volume/util/types/types.go:92-97 | true only for a non-final failure; `ClassifiersAgree` states it over every error |
| OperationTypes.NewTransientOperationFailure | pkg/volume/util/types/types.go:60-66 | builds a transient failure whose `Error()` is the message |
| OperationTypes.NewNonFinalOperationFailure | pkg/volume/util/types/types.go:74-80 | builds a non-final failure whose `Error()` is the message |
| OperationTypes.ClassifiersAgree | pkg/volume/util/types/types.go:82-97 | not finished iff transient or non-final, non-final iff `NonFinalOperationFailure`, nil is finished, and non-final implies not finished |
| VolumeOperation.NodeExpandVolume | pkg/volume/util/operationexecutor/volume_operation.go:48-112 | each guard's outcome `(done, err)` and effect trace: gate, inline migration, plugin and PV guards, fetch failure, no growth, read-only warning, `NodeExpand` sizes, its three outcomes, success event and patch |
| VolumeOperation.ExpandTwice | pkg/volume/util/operationexecutor/volume_operation.go:74-76 | after a successful expansion and patch, a second call is done without calling `NodeExpand` |
| ClaimAdmission.DataSourceIsEnabled | pkg/api/persistentvolumeclaim/util.go:56-77 | a nil data source is never enabled; with AnyVolumeDataSource on, every non-nil one is |
| ClaimAdmission.DataSourceEnabledWithoutAnyGate | pkg/api/persistentvolumeclaim/util.go:62-74 | with the gate off: enabled iff a claim clone with an empty or absent group, or a snapshot in `snapshot.storage.k8s.io` |
| ClaimAdmission.DataSourceInUse | pkg/api/persistentvolumeclaim/util.go:46-54 | in use iff the old spec exists and has a data source |
| ClaimAdmission.AllocatedResourcesInUse | pkg/api/persistentvolumeclaim/util.go:94-104 | in use iff the old claim exists and has allocated resources |
| ClaimAdmission.DropDisabledFields | pkg/api/persistentvolumeclaim/util.go:32-44 | the spec and status become the kept data source and allocated resources; the old claim is not modified |
| ClaimAdmission.KeptDataSourceSpec | pkg/api/persistentvolumeclaim/util.go:38-40 | the data source is dropped iff it is not enabled and the old spec has none; otherwise it is kept as is |
| ClaimAdmission.KeptAllocatedResourcesSpec | pkg/api/persistentvolumeclaim/util.go:41-43 | allocated resources are cleared iff the gate is off and the old claim has none |
| ClaimAdmission.DropIdempotent | pkg/api/persistentvolumeclaim/util.go:32-44 | dropping a second time changes nothing |
| ClaimAdmission.DataSourceTable | pkg/api/persistentvolumeclaim/util_test.go:102-229 | the clone, snapshot, generic and foreign-group data sources are kept or dropped as the table expects, with the gate off and on |
| ClaimAdmission.SetAllocatedResources | pkg/api/persistentvolumeclaim/util.go:81-92 | allocated resources become the requests only with the gate on and no old claim; the spec is unchanged |
| CsiVolumePredicate.GetDriverNameFromSC | pkg/scheduler/algorithm/predicates/csi_volume_predicate.go:207-232 | no class name or unknown class gives empty names; otherwise the provisioner and `prefix-namespace/name` |
| CsiVolumePredicate.PlaceholderHandlesDistinct | pkg/scheduler/algorithm/predicates/csi_volume_predicate.go:227-230 | placeholder handles of two claims agree only for the same namespace and name |
| CsiVolumePredicate.GetCSIDriverInfo | pkg/scheduler/algorithm/predicates/csi_volume_predicate.go:153-205 | the storage-class fallback without a PV name or PV; the PV's CSI driver and handle; empty for a non-migratable PV; the translated source otherwise |
| CsiVolumePredicate.FilterAttachableVolumes | pkg/scheduler/algorithm/predicates/csi_volume_predicate.go:119-151 | the filled map and the error are those of the entry-by-entry specification |
| CsiVolumePredicate.AddEntriesSpec | pkg/scheduler/algorithm/predicates/csi_volume_predicate.go:122-150 | an error iff some volume names an empty claim; otherwise the handles are the old ones plus those of countable volumes, each mapped to its driver's limit key |
| CsiVolumePredicate.AddEntriesStopsAtError | pkg/scheduler/algorithm/predicates/csi_volume_predicate.go:129-131 | the first error ends the loop: later volumes change nothing |
| CsiVolumePredicate.AttachedEntriesStopsAtError | pkg/scheduler/algorithm/predicates/csi_volume_predicate.go:86-90 | the first failing pod on the node ends the collection |
| CsiVolumePredicate.CountAttached | pkg/scheduler/algorithm/predicates/csi_volume_predicate.go:95-100 | the new volumes lose every handle already attached, and each key's count is its number of attached handles |
| CsiVolumePredicate.CountNew | pkg/scheduler/algorithm/predicates/csi_volume_predicate.go:102-104 | each key's count is its number of remaining new handles |
| CsiVolumePredicate.CheckLimits | pkg/scheduler/algorithm/predicates/csi_volume_predicate.go:106-116 | exceeded iff some key with a new volume has a limit and attached plus new is above it |
| CsiVolumePredicate.ExceededMeansExceeds | pkg/scheduler/algorithm/predicates/csi_volume_predicate.go:92-116 | the counting loops decide exactly the set-based exceed condition |
| CsiVolumePredicate.AttachableLimitPredicate | pkg/scheduler/algorithm/predicates/csi_volume_predicate.go:54-117 | fits when the gate is off, there are no volumes, limits or new volumes; fetch errors give `(false, nil, err)`; otherwise it fails with `ErrMaxVolumeCountExceeded` iff the limits are exceeded |
| CsiVolumePredicate.AbsentKeysNeverReject | pkg/scheduler/algorithm/predicates/csi_volume_predicate.go:107-108 | limit keys the node does not list never reject |
| CsiVolumePredicate.AttachedVolumesNotCounted | pkg/scheduler/algorithm/predicates/csi_volume_predicate.go:95-100 | a pod whose volumes are all attached already always fits |
| FileModes.Mask | pkg/volume/volume_linux.go:124-132 | rw (or ro) for owner and group, plus setgid and exec for a directory; `MaskBits` states its bits |
| FileModes.NewMode | pkg/volume/volume_linux.go:134 | the old mode with the mask added; `NewModeAdds` and `NewModeIdempotent` state what it does |
| FileModes.MaskBits | pkg/volume/volume_linux.go:124-132 | the mask holds only permission bits and setgid, and setgid only for a directory |
| FileModes.NewModeAdds | pkg/volume/volume_linux.go:124-134 | the new mode keeps every old bit, sets the mask, and adds only permission bits and setgid, so the file type is unchanged |
| FileModes.NewModeIdempotent | pkg/volume/volume_linux.go:124-134 | applying the new mode twice equals applying it once |
| FileModes.NewModeOfDirectory | pkg/volume/volume_linux.go:124-134 | a directory whose permission bits lie within the wanted ones ends with exactly the wanted bits and setgid |
| VolumeLinux.RequiresPermissionChange | pkg/volume/volume_linux.go:154-187 | false iff the root is readable, in the group, a directory, with exactly the wanted permission bits and setgid |
| VolumeLinux.SkipPermissionChange | pkg/volume/volume_linux.go:142-152 | skips iff the gate is on, the policy is OnRootMismatch and the root check passes |
| VolumeLinux.ChangedFile | pkg/volume/volume_linux.go:93-140 | the tree after `changeFilePermission` on an existing entry: same paths; `ChangedFileGrows` states what changes |
| VolumeLinux.ReadDirNames | pkg/volume/volume_linux.go:191-202 | the listing of an entry, an open failure for a missing path, or the read failure; no contract of its own |
| VolumeLinux.Walk | pkg/volume/volume_linux.go:69-91 | the tree and error after `changeAllFilesPermissions`: same paths; `WalkGrows`, `WalkError` and `WalkOwnsVisited` state what it does |
| VolumeLinux.WalkChildren | pkg/volume/volume_linux.go:83-89 | the loop over a directory's children and whether a child ended it: same paths; `WalkChildrenGrows`, `WalkChildrenOwns`, `WalkChildrenOwnsVisited` and `WalkChildrenStopsAt` state what it does |
| VolumeLinux.Ownership | pkg/volume/volume_linux.go:42-67 | the tree and error after `SetVolumeOwnership`: same paths; `OwnershipSpec`, `OwnershipOwns`, `OwnershipOwnsVolume` and `OwnershipStopLeavesRoot` state what it does |
| VolumeLinux.ChangedFileGrows | pkg/volume/volume_linux.go:93-140 | one entry changes at most: its group and mode as allowed, never its owner, listing or type; symlinks and entries without stat stay as they are |
| VolumeLinux.WalkGrows | pkg/volume/volume_linux.go:69-91 | the start path is handed to the group and gets the new mode when chown and chmod succeed on it; a non-directory is changed alone, with no recursion; the walk only grows entries and touches nothing outside the start path |
| VolumeLinux.WalkChildrenGrows | pkg/volume/volume_linux.go:83-89 | the loop over children only grows entries strictly below the directory |
| VolumeLinux.WalkChildrenOwns | pkg/volume/volume_linux.go:83-89 | when no child ends the loop, every listed child on which chown and chmod succeed is handed to the group with the new mode |
| VolumeLinux.WalkChildrenAppend | pkg/volume/volume_linux.go:83-89 | walking `a + b` walks `a`, then `b` unless a child of `a` ended the loop |
| VolumeLinux.WalkChildrenStopsAt | pkg/volume/volume_linux.go:85-88 | a child whose walk fails ends the loop: the tree is the one that walk left and no later child is visited |
| VolumeLinux.WalkError | pkg/volume/volume_linux.go:69-91 | an error iff `Lstat` of the path fails or its listing cannot be read; chown/chmod failures and failures below it are never reported |
| VolumeLinux.OwnershipSpec | pkg/volume/volume_linux.go:42-67 | a nil fsGroup or a skipped check changes nothing; an error iff the root listing fails; otherwise entries under the root only grow and nothing else changes |
| VolumeLinux.OwnershipOwns | pkg/volume/volume_linux.go:53-66 | when no child ends the loop, the root and each listed child on which chown and chmod succeed are handed to the group with the new mode |
| VolumeLinux.WalkOwnsVisited | pkg/volume/volume_linux.go:69-91 | when nothing reached from the start path fails, no error is reported and every entry reached through the listings, at any depth, is handed to the group with the new mode where chown and chmod succeed |
| VolumeLinux.WalkChildrenOwnsVisited | pkg/volume/volume_linux.go:83-89 | when nothing below any child fails, the loop runs to the end and every entry reached from a listed child is handed to the group with the new mode |
| VolumeLinux.OwnershipOwnsVolume | pkg/volume/volume_linux.go:39-67 | for a root directory below which nothing fails: no error, and the root and every entry reached from it are handed to the group with the new mode where chown and chmod succeed |
| VolumeLinux.OwnershipStopLeavesRoot | pkg/volume/volume_linux.go:58-64 | when a child ends the loop, no error is returned and the root is left as it was |
| VolumeLinux.OwnershipSettlesRoot | pkg/volume/volume_linux.go:42-67 | after a complete walk, the root check passes iff the root had no permission bits beyond the wanted ones |
| VolumeLinux.FileSystem.ChangeFilePermission | pkg/volume/volume_linux.go:93-140 | a missing entry is an `Lstat` error; otherwise the tree becomes the changed-entry specification and no error is returned |
| VolumeLinux.FileSystem.ChangeAllFilesPermissions | pkg/volume/volume_linux.go:69-91 | the tree and error are those of the walk specification |
| VolumeLinux.FileSystem.ChangeChildren | pkg/volume/volume_linux.go:83-89 | the tree and stop flag are those of the children-loop specification |
| VolumeLinux.FileSystem.SetVolumeOwnership | pkg/volume/volume_linux.go:42-67 | the tree and error are those of the ownership specification |

## Left out

- JSON marshalling, `CreateTwoWayMergePatch` and the API `Patch` calls in
  `PatchPVCStatus` and `UpdatePVSize`. Only the objects before and after are
  modelled, and the patch outcome is an input.
- ResizeUtil.PatchPVCStatus: the three marshalling and patch-creation
  failures are not modelled; only the failure of the API call is.
- ResizeUtil.UpdatePVSize: the same marshalling and patch-creation failures
  are not modelled.
- Go panics where a nil map or pointer is written or read; the model has
  no nil there and goes on.
  - `ResizeUtil.UpdatePVSize` writes into `pv.Spec.Capacity`
    (`resize_util.go:63`).
  - `ResizeUtil.MarkFSResizeFinished` writes into `pvc.Status.Capacity`
    (`resize_util.go:129`).
  - `VolumeOperation.NodeExpandVolume` reads `pv.Spec.ClaimRef`
    (`volume_operation.go:68`).
  - A `ResourceList` is a total map that reads 0 for a missing entry, and a
    volume's `claimRef` is never nil. So a claim with no status capacity
    reaches `NodeExpand` and the status patch, where Go would panic.
- The plugin manager is an oracle (`Collaborators.plugin`).
  `FindNodeExpandablePluginBySpec` assumes it finds no plugin for a nil
  spec; the plugin manager is not part of this model.
- `PatchPVCStatus` returns the claim the server sends back. The model
  returns the claim it built, and `VolumeOperation.ExpandTwice` feeds that
  claim into the second call. It assumes the server stores the status as
  patched.
- The clock (`metav1.Now()`) is a parameter of the `Mark*` helpers.
- `%q` quoting is modelled as surrounding double quotes without Go's
  escaping.
- `GenericResizeFS`: a call into the mount and resizefs libraries.
- `GeneratedOperations.Run`: its defer and panic-recovery semantics.
- `reconciler.Run` and `wait.Until`, the operation executor's goroutines and
  the body of `GrowPvc`. `GrowPvc` is an oracle and the in-flight operations
  are a set; the oracle cannot call `MarkAsResized` during the tick.
- Requests are values in the model. The pointers the Go cache hands out, and
  any aliasing through them, are not modelled.
- Go map iteration order is nondeterministic in the model. No order is
  proved for the appended conditions, the listed requests or the counting
  loops.
- `NewDesiredStateOfWorld` leaves its map nil. The model starts with an
  empty map, since no write to it can happen: `AddPvcUpdate` never stores.
- Log and event messages. Events keep only their type and reason, and
  reasons are an enumeration.
- Feature gates are boolean parameters. `resource.Quantity` is an integer;
  its formatting and units are left out.
- The CSI migration library, `GetCSIAttachLimitKey` and the listers are
  oracles and maps. The random volume-ID prefix is a parameter.
- Limits and counts are unbounded integers rather than `int64`.
- The file system is a map from paths to entries.
- `os.Stat` at the volume root is modelled like `os.Lstat`, so a symlinked
  root is not followed.
- Chown and chmod act on the entry, not on what a symlink points to; symlinks
  are never changed anyway.
- A path is its list of components; `filepath.Join` cleaning is not
  modelled.
- VolumeLinux.OwnershipSettlesRoot: stated only for a root that is not also
  flagged a symlink and that chown and chmod accept.
- `actual_state_of_world.go`, `expand_controller.go`,
  `scheduler_volume_host.go`, `aws_ebs/expander.go`, `aws_node_down.go` and
  `csi_metrics_test.go` are not part of this model. They are wiring, stubs or
  tests, and hold no decision logic.
- `util_test.go` is not modelled; its data-source table is restated as the
  lemma `ClaimAdmission.DataSourceTable`.
