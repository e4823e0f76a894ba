/**
 * The kubelet's node-side expansion step, `NodeExpandVolume`: an ordered
 * chain of guards decides whether the file system on the node is grown, which
 * events are recorded and whether the claim's status is patched afterwards.
 * The API client, the plugin manager, the plugin and the event recorder are
 * replaced by their outcomes, and what the step does to them is returned as
 * a trace of effects.
 */
module VolumeOperation {
  import opened Wrappers
  import opened CoreApi
  import opened OperationTypes
  import opened ResizeUtil

  /** A plugin able to expand a volume on the node. */
  datatype NodeExpandablePlugin = NodeExpandablePlugin(requiresFSResize: bool)

  /** The options handed to the plugin's `NodeExpand`. */
  datatype NodeResizeOptions = NodeResizeOptions(
    volumeSpec: Option<VolumeSpec>,
    devicePath: string,
    deviceMountPath: string,
    newSize: Quantity,
    oldSize: Quantity)

  datatype VolumeToMount = VolumeToMount(volumeName: string, podName: string, volumeSpec: Option<VolumeSpec>)

  datatype EventType = Warning | Normal
  datatype EventReason = FileSystemResizeFailed | FileSystemResizeSuccess

  /** What the step does to the world outside it, in order. */
  datatype Effect =
    | GetClaim(namespace: string, name: string)
    | Event(pod: string, eventType: EventType, reason: EventReason)
    | NodeExpand(opts: NodeResizeOptions)
    | PatchClaimStatus(oldPVC: PersistentVolumeClaim, newPVC: PersistentVolumeClaim)

  /**
   * The answers of the collaborators: the ExpandPersistentVolumes gate, the
   * plugin the plugin manager finds for a (non-nil) spec, the claim fetch,
   * the plugin's `NodeExpand` and the status patch.
   */
  datatype Collaborators = Collaborators(
    expandPersistentVolumes: bool,
    plugin: Option<NodeExpandablePlugin>,
    claimLookup: Result<PersistentVolumeClaim, string>,
    nodeExpand: Result<bool, string>,
    patchFailure: Option<string>)

  /** The plugin manager's lookup, an oracle here, assumed to find no plugin for a nil spec. */
  function FindNodeExpandablePluginBySpec(env: Collaborators, spec: Option<VolumeSpec>): (p: Option<NodeExpandablePlugin>)
    ensures spec.None? ==> p.None?
    ensures spec.Some? ==> p == env.plugin
  {
    if spec.None? then None else env.plugin
  }

  /** The trace calls the plugin's `NodeExpand`. */
  predicate Expands(effects: seq<Effect>)
  {
    exists i :: 0 <= i < |effects| && effects[i].NodeExpand?
  }

  /** The persistent volume whose file system needs growing, if the guards let the step reach the claim fetch. */
  function ResizeTarget(volumeToMount: VolumeToMount, env: Collaborators): Option<PersistentVolume>
  {
    if !env.expandPersistentVolumes then None
    else if volumeToMount.volumeSpec.Some? && volumeToMount.volumeSpec.value.inlineVolumeSpecForCSIMigration then None
    else
      var plugin := FindNodeExpandablePluginBySpec(env, volumeToMount.volumeSpec);
      if plugin.Some? && plugin.value.requiresFSResize && volumeToMount.volumeSpec.value.persistentVolume.Some?
      then volumeToMount.volumeSpec.value.persistentVolume
      else None
  }

  method NodeExpandVolume(volumeToMount: VolumeToMount, rsOpts: NodeResizeOptions, env: Collaborators)
    returns (done: bool, err: Option<OperationError>, effects: seq<Effect>)
    // Gate off, a migrated inline volume, no expandable plugin, no file
    // system resize needed, or no persistent volume: done, nothing fetched.
    ensures ResizeTarget(volumeToMount, env).None? ==> done && err.None? && effects == []
    ensures !env.expandPersistentVolumes ==> ResizeTarget(volumeToMount, env).None?
    ensures volumeToMount.volumeSpec.Some? && volumeToMount.volumeSpec.value.inlineVolumeSpecForCSIMigration ==>
              ResizeTarget(volumeToMount, env).None?
    // Otherwise the claim bound to the volume is fetched first.
    ensures ResizeTarget(volumeToMount, env).Some? ==>
              var pv := ResizeTarget(volumeToMount, env).value;
              |effects| >= 1 && effects[0] == GetClaim(pv.claimRef.namespace, pv.claimRef.name)
    ensures ResizeTarget(volumeToMount, env).Some? && env.claimLookup.Failure? ==>
              && !done && effects == effects[..1]
              && err == Some(GenericError("MountVolume.NodeExpandVolume get PVC failed : " + env.claimLookup.error))
    // Nothing to grow: the claim already reports the volume's capacity.
    ensures ResizeTarget(volumeToMount, env).Some? && env.claimLookup.Success? &&
            Lookup(env.claimLookup.value.status.capacity, ResourceStorage) >=
            Lookup(ResizeTarget(volumeToMount, env).value.capacity, ResourceStorage) ==>
              done && err.None? && effects == effects[..1]
    // The plugin is called only for a grown, writable volume, with the claim's
    // size as the old size and the volume's as the new one.
    ensures Expands(effects) <==>
              && ResizeTarget(volumeToMount, env).Some? && env.claimLookup.Success?
              && Lookup(env.claimLookup.value.status.capacity, ResourceStorage) <
                 Lookup(ResizeTarget(volumeToMount, env).value.capacity, ResourceStorage)
              && !volumeToMount.volumeSpec.value.readOnly
    ensures Expands(effects) ==>
              |effects| >= 2 &&
              effects[1] == NodeExpand(rsOpts.(volumeSpec := volumeToMount.volumeSpec,
                                               newSize := Lookup(ResizeTarget(volumeToMount, env).value.capacity, ResourceStorage),
                                               oldSize := Lookup(env.claimLookup.value.status.capacity, ResourceStorage)))
    // A read-only volume that needs growing: one warning, done.
    ensures ResizeTarget(volumeToMount, env).Some? && env.claimLookup.Success? &&
            Lookup(env.claimLookup.value.status.capacity, ResourceStorage) <
            Lookup(ResizeTarget(volumeToMount, env).value.capacity, ResourceStorage) &&
            volumeToMount.volumeSpec.value.readOnly ==>
              && done && err.None?
              && effects == effects[..1] + [Event(volumeToMount.podName, Warning, FileSystemResizeFailed)]
    // The plugin's answers.
    ensures Expands(effects) && env.nodeExpand.Failure? ==>
              && !done && effects == effects[..2]
              && err == Some(GenericError("MountVolume.NodeExpandVolume failed : " + env.nodeExpand.error))
    ensures Expands(effects) && env.nodeExpand == Success(false) ==> !done && err.None? && effects == effects[..2]
    ensures Expands(effects) && env.nodeExpand == Success(true) ==>
              var pvc := env.claimLookup.value;
              var newPVC := pvc.(status := ClaimStatus(
                pvc.status.capacity[ResourceStorage := Lookup(ResizeTarget(volumeToMount, env).value.capacity, ResourceStorage)],
                NonResize(pvc.status.conditions)));
              && effects == effects[..2] + [Event(volumeToMount.podName, Normal, FileSystemResizeSuccess),
                                            PatchClaimStatus(pvc, newPVC)]
              && done == env.patchFailure.None?
              && (env.patchFailure.Some? ==>
                    err == Some(GenericError("MountVolume.NodeExpandVolume update PVC status failed : " +
                                             PatchPVCStatus(pvc, newPVC, env.patchFailure).error)))
              && (env.patchFailure.None? ==> err.None?)
  {
    effects := [];
    if !env.expandPersistentVolumes {
      return true, None, effects;
    }
    if volumeToMount.volumeSpec.Some? && volumeToMount.volumeSpec.value.inlineVolumeSpecForCSIMigration {
      return true, None, effects;
    }
    var expandableVolumePlugin := FindNodeExpandablePluginBySpec(env, volumeToMount.volumeSpec);
    if expandableVolumePlugin.Some? && expandableVolumePlugin.value.requiresFSResize &&
       volumeToMount.volumeSpec.value.persistentVolume.Some? {
      var spec := volumeToMount.volumeSpec.value;
      var pv := spec.persistentVolume.value;
      effects := effects + [GetClaim(pv.claimRef.namespace, pv.claimRef.name)];
      if env.claimLookup.Failure? {
        return false, Some(GenericError("MountVolume.NodeExpandVolume get PVC failed : " + env.claimLookup.error)), effects;
      }
      var pvc := env.claimLookup.value;
      var pvcStatusCap := Lookup(pvc.status.capacity, ResourceStorage);
      var pvSpecCap := Lookup(pv.capacity, ResourceStorage);
      if pvcStatusCap < pvSpecCap {
        if spec.readOnly {
          effects := effects + [Event(volumeToMount.podName, Warning, FileSystemResizeFailed)];
          return true, None, effects;
        }
        var opts := rsOpts.(volumeSpec := volumeToMount.volumeSpec, newSize := pvSpecCap, oldSize := pvcStatusCap);
        effects := effects + [NodeExpand(opts)];
        assert effects[1].NodeExpand?;
        if env.nodeExpand.Failure? {
          return false, Some(GenericError("MountVolume.NodeExpandVolume failed : " + env.nodeExpand.error)), effects;
        }
        if !env.nodeExpand.value {
          return false, None, effects;
        }
        effects := effects + [Event(volumeToMount.podName, Normal, FileSystemResizeSuccess)];
        var newPVC, patchErr := MarkFSResizeFinished(pvc, pvSpecCap, env.patchFailure);
        effects := effects + [PatchClaimStatus(pvc, newPVC)];
        assert effects[1] == NodeExpand(opts);
        if patchErr.Some? {
          return false, Some(GenericError("MountVolume.NodeExpandVolume update PVC status failed : " + patchErr.value)), effects;
        }
        return true, None, effects;
      }
    }
    return true, None, effects;
  }

  /**
   * Re-entry after a finished expansion does nothing: once the claim's status
   * was patched to the volume's capacity, the next call with that claim is
   * done at once and does not call the plugin again.
   */
  method ExpandTwice(volumeToMount: VolumeToMount, rsOpts: NodeResizeOptions, env: Collaborators)
    returns (first: bool, second: bool, secondEffects: seq<Effect>)
    requires ResizeTarget(volumeToMount, env).Some? && env.claimLookup.Success?
    requires Lookup(env.claimLookup.value.status.capacity, ResourceStorage) <
             Lookup(ResizeTarget(volumeToMount, env).value.capacity, ResourceStorage)
    requires !volumeToMount.volumeSpec.value.readOnly
    requires env.nodeExpand == Success(true) && env.patchFailure.None?
    ensures first && second
    ensures !Expands(secondEffects) && |secondEffects| == 1
  {
    var err, effects;
    first, err, effects := NodeExpandVolume(volumeToMount, rsOpts, env);
    var patched := effects[3].newPVC;
    var env' := env.(claimLookup := Success(patched));
    assert ResizeTarget(volumeToMount, env') == ResizeTarget(volumeToMount, env);
    second, err, secondEffects := NodeExpandVolume(volumeToMount, rsOpts, env');
  }
}
