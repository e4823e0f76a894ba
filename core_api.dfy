/**
 * The slice of the cluster API objects (claims, persistent volumes, their
 * conditions and resource lists) that the volume-expansion core reads and
 * writes. A `resource.Quantity` is an integer and `Cmp` is integer comparison.
 */
module CoreApi {
  import opened Wrappers

  type Quantity = int
  type ResourceName = string

  /** The resource name `storage` under which capacities and requests are kept. */
  const ResourceStorage: ResourceName := "storage"

  /** A resource list; a missing entry reads as the zero quantity, as a Go map lookup does. */
  type ResourceList = map<ResourceName, Quantity>

  function Lookup(rl: ResourceList, name: ResourceName): (q: Quantity)
    ensures name in rl ==> q == rl[name]
    ensures name !in rl ==> q == 0
  {
    if name in rl then rl[name] else 0
  }

  type ConditionType = string
  type ConditionStatus = string

  const Resizing: ConditionType := "Resizing"
  const FileSystemResizePending: ConditionType := "FileSystemResizePending"

  const ConditionTrue: ConditionStatus := "True"

  /** A point in time, as written into `LastTransitionTime`. */
  type Time = int

  datatype Condition = Condition(
    conditionType: ConditionType,
    status: ConditionStatus,
    lastTransitionTime: Time,
    message: string)

  datatype ClaimSpec = ClaimSpec(
    requests: ResourceList,
    volumeName: string,
    storageClassName: Option<string>)

  datatype ClaimStatus = ClaimStatus(
    capacity: ResourceList,
    conditions: seq<Condition>)

  datatype PersistentVolumeClaim = PersistentVolumeClaim(
    namespace: string,
    name: string,
    uid: string,
    spec: ClaimSpec,
    status: ClaimStatus)

  datatype ObjectReference = ObjectReference(namespace: string, name: string)

  datatype CSIPersistentVolumeSource = CSIPersistentVolumeSource(driver: string, volumeHandle: string)

  datatype PersistentVolume = PersistentVolume(
    name: string,
    capacity: ResourceList,
    claimRef: ObjectReference,
    csi: Option<CSIPersistentVolumeSource>)

  /**
   * The volume a pod mounts: backed by a persistent volume or inline, read-only
   * or not, and flagged when it is an inline volume migrated to CSI.
   */
  datatype VolumeSpec = VolumeSpec(
    persistentVolume: Option<PersistentVolume>,
    readOnly: bool,
    inlineVolumeSpecForCSIMigration: bool)
}
