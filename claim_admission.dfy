/**
 * Admission-time normalisation of a claim in the internal API: fields that a
 * disabled feature would otherwise let through are dropped before the claim
 * is stored, and the allocated resources of a new claim are initialised.
 * Feature gates are parameters.
 */
module ClaimAdmission {
  import opened Wrappers
  import CoreApi

  /** The data-source kinds and API group accepted without the AnyVolumeDataSource gate. */
  const PersistentVolumeClaimKind: string := "PersistentVolumeClaim"
  const VolumeSnapshotKind: string := "VolumeSnapshot"
  const SnapshotAPIGroup: string := "snapshot.storage.k8s.io"

  datatype TypedLocalObjectReference = TypedLocalObjectReference(apiGroup: Option<string>, kind: string, name: string)

  /** The claim spec's fields this step reads or drops; `None` is a nil pointer or map. */
  datatype PersistentVolumeClaimSpec = PersistentVolumeClaimSpec(
    dataSource: Option<TypedLocalObjectReference>,
    requests: Option<CoreApi.ResourceList>)

  datatype PersistentVolumeClaimStatus = PersistentVolumeClaimStatus(
    allocatedResources: Option<CoreApi.ResourceList>)

  /** A claim is changed in place, so it is an object; an absent old claim is `null`. */
  class PersistentVolumeClaim {
    var spec: PersistentVolumeClaimSpec
    var status: PersistentVolumeClaimStatus

    constructor (spec: PersistentVolumeClaimSpec, status: PersistentVolumeClaimStatus)
      ensures this.spec == spec && this.status == status
    {
      this.spec := spec;
      this.status := status;
    }
  }

  /** The API group of a data source, an absent one read as "". */
  function APIGroupOf(ds: TypedLocalObjectReference): string
  {
    if ds.apiGroup.Some? then ds.apiGroup.value else ""
  }

  /** Whether the spec's data source may be kept on a new claim. */
  function DataSourceIsEnabled(spec: PersistentVolumeClaimSpec, anyVolumeDataSource: bool): (enabled: bool)
    ensures enabled ==> spec.dataSource.Some?
    ensures anyVolumeDataSource ==> (enabled <==> spec.dataSource.Some?)
  {
    if spec.dataSource.Some? then
      if anyVolumeDataSource then true
      else
        var apiGroup := APIGroupOf(spec.dataSource.value);
        if spec.dataSource.value.kind == PersistentVolumeClaimKind && apiGroup == "" then true
        else if spec.dataSource.value.kind == VolumeSnapshotKind && apiGroup == SnapshotAPIGroup then true
        else false
    else false
  }

  /** Whether the old claim's spec already carried a data source; no old spec means no. */
  function DataSourceInUse(oldSpec: Option<PersistentVolumeClaimSpec>): (inUse: bool)
    ensures inUse <==> oldSpec.Some? && oldSpec.value.dataSource.Some?
  {
    if oldSpec.None? then false
    else if oldSpec.value.dataSource.Some? then true
    else false
  }

  /** Whether the old claim already carried allocated resources; no old claim means no. */
  function AllocatedResourcesInUse(oldPVC: PersistentVolumeClaim?): (inUse: bool)
    reads oldPVC
    ensures inUse <==> oldPVC != null && oldPVC.status.allocatedResources.Some?
  {
    if oldPVC == null then false
    else if oldPVC.status.allocatedResources.Some? then true
    else false
  }

  /** The data source left after dropping. */
  function KeptDataSource(spec: PersistentVolumeClaimSpec, oldSpec: Option<PersistentVolumeClaimSpec>,
                          anyVolumeDataSource: bool): Option<TypedLocalObjectReference>
  {
    if !DataSourceIsEnabled(spec, anyVolumeDataSource) && !DataSourceInUse(oldSpec) then None else spec.dataSource
  }

  /** The allocated resources left after dropping. */
  function KeptAllocatedResources(status: PersistentVolumeClaimStatus, oldStatus: Option<PersistentVolumeClaimStatus>,
                                  recoverVolumeExpansionFailure: bool): Option<CoreApi.ResourceList>
  {
    if !recoverVolumeExpansionFailure && !(oldStatus.Some? && oldStatus.value.allocatedResources.Some?) then None
    else status.allocatedResources
  }

  /** The old claim's spec, or none. */
  function SpecOf(oldPVC: PersistentVolumeClaim?): Option<PersistentVolumeClaimSpec>
    reads oldPVC
  {
    if oldPVC == null then None else Some(oldPVC.spec)
  }

  function StatusOf(oldPVC: PersistentVolumeClaim?): Option<PersistentVolumeClaimStatus>
    reads oldPVC
  {
    if oldPVC == null then None else Some(oldPVC.status)
  }

  /**
   * Drops the data source unless it is enabled or the old claim had one, and
   * the allocated resources unless the RecoverVolumeExpansionFailure gate is
   * on or the old claim had them. Only `pvc` is written; an old claim that is
   * a different object is left untouched.
   */
  method DropDisabledFields(pvc: PersistentVolumeClaim, oldPVC: PersistentVolumeClaim?,
                            anyVolumeDataSource: bool, recoverVolumeExpansionFailure: bool)
    modifies pvc
    ensures pvc.spec == old(pvc.spec).(dataSource := KeptDataSource(old(pvc.spec), old(SpecOf(oldPVC)), anyVolumeDataSource))
    ensures pvc.status == old(pvc.status).(allocatedResources :=
              KeptAllocatedResources(old(pvc.status), old(StatusOf(oldPVC)), recoverVolumeExpansionFailure))
    ensures oldPVC != null && oldPVC != pvc ==> unchanged(oldPVC)
  {
    var pvcSpec := pvc.spec;
    var oldPVCSpec := if oldPVC != null then Some(oldPVC.spec) else None;
    if !DataSourceIsEnabled(pvcSpec, anyVolumeDataSource) && !DataSourceInUse(oldPVCSpec) {
      pvc.spec := pvc.spec.(dataSource := None);
    }
    if !recoverVolumeExpansionFailure && !AllocatedResourcesInUse(oldPVC) {
      pvc.status := pvc.status.(allocatedResources := None);
    }
  }

  /**
   * With the RecoverVolumeExpansionFailure gate on, a new claim (no old one)
   * gets its requests as its allocated resources; nothing else changes.
   */
  method SetAllocatedResources(pvc: PersistentVolumeClaim, oldPVC: PersistentVolumeClaim?,
                               recoverVolumeExpansionFailure: bool)
    modifies pvc
    ensures pvc.spec == old(pvc.spec)
    ensures pvc.status.allocatedResources ==
              if recoverVolumeExpansionFailure && oldPVC == null then old(pvc.spec.requests)
              else old(pvc.status.allocatedResources)
  {
    if recoverVolumeExpansionFailure {
      var userResources := pvc.spec.requests;
      if oldPVC == null {
        pvc.status := pvc.status.(allocatedResources := userResources);
        return;
      }
    }
  }

  // ---------------------------------------------------------------------------
  // What dropping promises

  /**
   * Without the AnyVolumeDataSource gate a data source is enabled exactly when
   * it names a claim in the core group (empty or absent) or a snapshot in the
   * snapshot group.
   */
  lemma DataSourceEnabledWithoutAnyGate(spec: PersistentVolumeClaimSpec)
    ensures DataSourceIsEnabled(spec, false) <==>
              && spec.dataSource.Some?
              && ((spec.dataSource.value.kind == PersistentVolumeClaimKind &&
                   (spec.dataSource.value.apiGroup == None || spec.dataSource.value.apiGroup == Some("")))
               || (spec.dataSource.value.kind == VolumeSnapshotKind &&
                   spec.dataSource.value.apiGroup == Some(SnapshotAPIGroup)))
  {
  }

  /** The data source goes exactly when it is not enabled and the old spec had none. */
  lemma KeptDataSourceSpec(spec: PersistentVolumeClaimSpec, oldSpec: Option<PersistentVolumeClaimSpec>,
                           anyVolumeDataSource: bool)
    ensures KeptDataSource(spec, oldSpec, anyVolumeDataSource) == None <==>
              spec.dataSource == None ||
              (!DataSourceIsEnabled(spec, anyVolumeDataSource) && (oldSpec.None? || oldSpec.value.dataSource.None?))
    ensures KeptDataSource(spec, oldSpec, anyVolumeDataSource) != None ==>
              KeptDataSource(spec, oldSpec, anyVolumeDataSource) == spec.dataSource
    ensures anyVolumeDataSource ==> KeptDataSource(spec, oldSpec, anyVolumeDataSource) == spec.dataSource
  {
  }

  /** Dropping is idempotent: a second pass against the same old claim changes nothing more. */
  lemma DropIdempotent(spec: PersistentVolumeClaimSpec, status: PersistentVolumeClaimStatus,
                       oldSpec: Option<PersistentVolumeClaimSpec>, oldStatus: Option<PersistentVolumeClaimStatus>,
                       anyVolumeDataSource: bool, recoverVolumeExpansionFailure: bool)
    ensures var spec' := spec.(dataSource := KeptDataSource(spec, oldSpec, anyVolumeDataSource));
            KeptDataSource(spec', oldSpec, anyVolumeDataSource) == spec'.dataSource
    ensures var status' := status.(allocatedResources :=
              KeptAllocatedResources(status, oldStatus, recoverVolumeExpansionFailure));
            KeptAllocatedResources(status', oldStatus, recoverVolumeExpansionFailure) == status'.allocatedResources
  {
  }

  /**
   * The allocated resources are cleared exactly when the gate is off and the
   * old claim is absent or had none.
   */
  lemma KeptAllocatedResourcesSpec(status: PersistentVolumeClaimStatus, oldStatus: Option<PersistentVolumeClaimStatus>,
                                   recoverVolumeExpansionFailure: bool)
    ensures KeptAllocatedResources(status, oldStatus, recoverVolumeExpansionFailure) ==
              if !recoverVolumeExpansionFailure && (oldStatus.None? || oldStatus.value.allocatedResources.None?)
              then None else status.allocatedResources
  {
  }

  /**
   * The table of data sources checked with the AnyVolumeDataSource gate off
   * and on, with no old claim: a claim clone (with an empty or absent group)
   * and a snapshot are kept either way, a generic source only with the gate
   * on, and a claim clone in a foreign group not without it.
   */
  lemma DataSourceTable(anyGate: bool)
    ensures var clone := Some(TypedLocalObjectReference(Some(""), "PersistentVolumeClaim", "my-vol"));
            KeptDataSource(PersistentVolumeClaimSpec(clone, None), None, anyGate) == clone
    ensures var clone := Some(TypedLocalObjectReference(None, "PersistentVolumeClaim", "test_clone"));
            KeptDataSource(PersistentVolumeClaimSpec(clone, None), None, anyGate) == clone
    ensures var snap := Some(TypedLocalObjectReference(Some("snapshot.storage.k8s.io"), "VolumeSnapshot", "my-snap"));
            KeptDataSource(PersistentVolumeClaimSpec(snap, None), None, anyGate) == snap
    ensures var generic := Some(TypedLocalObjectReference(Some("generic.storage.k8s.io"), "Generic", "my-foo"));
            KeptDataSource(PersistentVolumeClaimSpec(generic, None), None, anyGate) == if anyGate then generic else None
    ensures var invalid := Some(TypedLocalObjectReference(Some("invalid.pvc.api.group"), "PersistentVolumeClaim", "test_clone_invalid"));
            KeptDataSource(PersistentVolumeClaimSpec(invalid, None), None, false) == None
    ensures KeptDataSource(PersistentVolumeClaimSpec(None, None), None, anyGate) == None
  {
  }
}
