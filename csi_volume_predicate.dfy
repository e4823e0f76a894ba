/**
 * The scheduler's CSI attach-limit predicate: a pod fits a node unless, for
 * some attach-limit key the node reports, the CSI volumes already attached
 * there plus the pod's new ones exceed the limit. Volumes are identified by
 * their CSI volume handle; claim, volume and storage-class lookups are maps,
 * and the CSI translation library is a set of oracles.
 */
module CsiVolumePredicate {
  import opened Wrappers
  import opened CoreApi
  import ResizeUtil

  datatype StorageClass = StorageClass(provisioner: string)

  /** The listers the checker consults, and the random prefix chosen when it was built. */
  datatype CSIMaxVolumeLimitChecker = CSIMaxVolumeLimitChecker(
    pvInfo: map<string, PersistentVolume>,
    pvcInfo: map<(string, string), PersistentVolumeClaim>,
    scInfo: map<string, StorageClass>,
    randomVolumeIDPrefix: string)

  /**
   * The CSI translation library and the node's CSI migration state: whether an
   * in-tree volume is migratable, its in-tree plugin name, whether migration
   * of that plugin is on for the node, the translation to a CSI volume, and
   * the attach-limit key of a driver.
   */
  datatype CsiLib = CsiLib(
    isPVMigratable: PersistentVolume -> bool,
    inTreePluginName: PersistentVolume -> Result<string, string>,
    isCSIMigrationOn: string -> bool,
    translateInTreePVToCSI: PersistentVolume -> Result<PersistentVolume, string>,
    attachLimitKey: string -> string)

  /** A pod volume: a claim reference (possibly with an empty name) or some other source. */
  datatype Volume = Volume(persistentVolumeClaim: Option<string>)

  datatype Pod = Pod(namespace: string, volumes: seq<Volume>)

  datatype NodeInfo = NodeInfo(volumeLimits: map<string, int>, pods: seq<Pod>)

  datatype PredicateFailureReason = ErrMaxVolumeCountExceeded

  const NoClaimNameError: string := "PersistentVolumeClaim had no name"

  /**
   * The driver and a placeholder handle for a claim not yet bound, taken from
   * its storage class; two empty strings when it names none or an unknown one.
   */
  function GetDriverNameFromSC(c: CSIMaxVolumeLimitChecker, pvc: PersistentVolumeClaim): (r: (string, string))
    ensures pvc.spec.storageClassName.None? || pvc.spec.storageClassName.value !in c.scInfo ==> r == ("", "")
    ensures pvc.spec.storageClassName.Some? && pvc.spec.storageClassName.value in c.scInfo ==>
              && r.0 == c.scInfo[pvc.spec.storageClassName.value].provisioner
              && r.1 == c.randomVolumeIDPrefix + "-" + ResizeUtil.ClaimToClaimKey(pvc)
  {
    var placeHolderCSIDriver, placeHolderHandle := "", "";
    if pvc.spec.storageClassName.None? then (placeHolderCSIDriver, placeHolderHandle)
    else if pvc.spec.storageClassName.value !in c.scInfo then (placeHolderCSIDriver, placeHolderHandle)
    else
      var storageClass := c.scInfo[pvc.spec.storageClassName.value];
      (storageClass.provisioner, c.randomVolumeIDPrefix + "-" + pvc.namespace + "/" + pvc.name)
  }

  /**
   * An in-tree volume counts as a CSI volume only when it is migratable, its
   * plugin is known, migration of that plugin is on and it translates to a
   * volume with a CSI source.
   */
  predicate MigratesToCSI(lib: CsiLib, pv: PersistentVolume)
  {
    && lib.isPVMigratable(pv)
    && lib.inTreePluginName(pv).Success?
    && lib.isCSIMigrationOn(lib.inTreePluginName(pv).value)
    && lib.translateInTreePVToCSI(pv).Success?
    && lib.translateInTreePVToCSI(pv).value.csi.Some?
  }

  /**
   * The driver and volume handle a claim counts under: from its bound
   * volume's CSI source, from the translation of a migratable in-tree volume,
   * or from its storage class when it has no volume name or the volume is
   * unknown; two empty strings when none applies.
   */
  function GetCSIDriverInfo(c: CSIMaxVolumeLimitChecker, lib: CsiLib, pvc: PersistentVolumeClaim): (r: (string, string))
    ensures pvc.spec.volumeName == "" || pvc.spec.volumeName !in c.pvInfo ==> r == GetDriverNameFromSC(c, pvc)
    ensures pvc.spec.volumeName != "" && pvc.spec.volumeName in c.pvInfo &&
            c.pvInfo[pvc.spec.volumeName].csi.Some? ==>
              r == (c.pvInfo[pvc.spec.volumeName].csi.value.driver, c.pvInfo[pvc.spec.volumeName].csi.value.volumeHandle)
    ensures pvc.spec.volumeName != "" && pvc.spec.volumeName in c.pvInfo &&
            c.pvInfo[pvc.spec.volumeName].csi.None? && !MigratesToCSI(lib, c.pvInfo[pvc.spec.volumeName]) ==>
              r == ("", "")
    ensures pvc.spec.volumeName != "" && pvc.spec.volumeName in c.pvInfo &&
            c.pvInfo[pvc.spec.volumeName].csi.None? && MigratesToCSI(lib, c.pvInfo[pvc.spec.volumeName]) ==>
              var csi := lib.translateInTreePVToCSI(c.pvInfo[pvc.spec.volumeName]).value.csi.value;
              r == (csi.driver, csi.volumeHandle)
  {
    var pvName := pvc.spec.volumeName;
    if pvName == "" then GetDriverNameFromSC(c, pvc)
    else if pvName !in c.pvInfo then GetDriverNameFromSC(c, pvc)
    else
      var pv := c.pvInfo[pvName];
      if pv.csi.Some? then (pv.csi.value.driver, pv.csi.value.volumeHandle)
      else if !lib.isPVMigratable(pv) then ("", "")
      else
        var pluginName := lib.inTreePluginName(pv);
        if pluginName.Failure? then ("", "")
        else if !lib.isCSIMigrationOn(pluginName.value) then ("", "")
        else
          var csiPV := lib.translateInTreePVToCSI(pv);
          if csiPV.Failure? then ("", "")
          else if csiPV.value.csi.None? then ("", "")
          else (csiPV.value.csi.value.driver, csiPV.value.csi.value.volumeHandle)
  }

  /**
   * Placeholder handles of two claims from the same checker coincide only for
   * the same claim (namespaces never contain '/').
   */
  lemma {:induction false} PlaceholderHandlesDistinct(c: CSIMaxVolumeLimitChecker, a: PersistentVolumeClaim,
                                                      b: PersistentVolumeClaim)
    requires '/' !in a.namespace && '/' !in b.namespace
    requires a.spec.storageClassName.Some? && a.spec.storageClassName.value in c.scInfo
    requires b.spec.storageClassName.Some? && b.spec.storageClassName.value in c.scInfo
    requires GetDriverNameFromSC(c, a).1 == GetDriverNameFromSC(c, b).1
    ensures a.namespace == b.namespace && a.name == b.name
  {
    var p := c.randomVolumeIDPrefix + "-";
    var ka, kb := ResizeUtil.ClaimToClaimKey(a), ResizeUtil.ClaimToClaimKey(b);
    assert ka == (p + ka)[|p|..];
    assert kb == (p + kb)[|p|..];
    ResizeUtil.ClaimKeyIdentifiesClaim(a, b);
  }

  // ---------------------------------------------------------------------------
  // Collecting the volumes of pods

  /** The claim's driver and handle, for a claim name known in `namespace`. */
  function ClaimDriverInfo(c: CSIMaxVolumeLimitChecker, lib: CsiLib, namespace: string, claimName: string): (string, string)
    requires (namespace, claimName) in c.pvcInfo
  {
    GetCSIDriverInfo(c, lib, c.pvcInfo[(namespace, claimName)])
  }

  /** A pod volume that is counted: a named, known claim with a driver and a handle. */
  predicate Countable(c: CSIMaxVolumeLimitChecker, lib: CsiLib, namespace: string, vol: Volume)
  {
    && vol.persistentVolumeClaim.Some? && vol.persistentVolumeClaim.value != ""
    && (namespace, vol.persistentVolumeClaim.value) in c.pvcInfo
    && ClaimDriverInfo(c, lib, namespace, vol.persistentVolumeClaim.value).0 != ""
    && ClaimDriverInfo(c, lib, namespace, vol.persistentVolumeClaim.value).1 != ""
  }

  /** What one volume adds to the handle-to-limit-key map. */
  function AddEntry(c: CSIMaxVolumeLimitChecker, lib: CsiLib, namespace: string, vol: Volume,
                    result: map<string, string>): Result<map<string, string>, string>
  {
    if vol.persistentVolumeClaim.None? then Success(result)
    else if vol.persistentVolumeClaim.value == "" then Failure(NoClaimNameError)
    else if (namespace, vol.persistentVolumeClaim.value) !in c.pvcInfo then Success(result)
    else
      var info := ClaimDriverInfo(c, lib, namespace, vol.persistentVolumeClaim.value);
      if info.0 == "" || info.1 == "" then Success(result)
      else Success(result[info.1 := lib.attachLimitKey(info.0)])
  }

  /** The map after adding `volumes` in order; the first unnamed claim is an error. */
  function AddEntries(c: CSIMaxVolumeLimitChecker, lib: CsiLib, namespace: string, volumes: seq<Volume>,
                      result: map<string, string>): Result<map<string, string>, string>
  {
    if volumes == [] then Success(result)
    else
      match AddEntries(c, lib, namespace, volumes[..|volumes| - 1], result)
      case Failure(e) => Failure(e)
      case Success(m) => AddEntry(c, lib, namespace, volumes[|volumes| - 1], m)
  }

  /** The map after adding the volumes of every pod in `pods`, in order. */
  function AttachedEntries(c: CSIMaxVolumeLimitChecker, lib: CsiLib, pods: seq<Pod>,
                           result: map<string, string>): Result<map<string, string>, string>
  {
    if pods == [] then Success(result)
    else
      match AttachedEntries(c, lib, pods[..|pods| - 1], result)
      case Failure(e) => Failure(e)
      case Success(m) => AddEntries(c, lib, pods[|pods| - 1].namespace, pods[|pods| - 1].volumes, m)
  }

  /**
   * Adds, for every counted volume, its handle with the attach-limit key of
   * its driver to `result`; an unnamed claim stops the scan with an error.
   */
  method FilterAttachableVolumes(c: CSIMaxVolumeLimitChecker, lib: CsiLib, volumes: seq<Volume>, namespace: string,
                                 result: map<string, string>)
    returns (newResult: map<string, string>, err: Option<string>)
    ensures err.None? <==> AddEntries(c, lib, namespace, volumes, result).Success?
    ensures err.None? ==> newResult == AddEntries(c, lib, namespace, volumes, result).value
    ensures err.Some? ==> err.value == AddEntries(c, lib, namespace, volumes, result).error
  {
    newResult := result;
    for i := 0 to |volumes|
      invariant AddEntries(c, lib, namespace, volumes[..i], result) == Success(newResult)
    {
      assert volumes[..i + 1][..i] == volumes[..i];
      var vol := volumes[i];
      if vol.persistentVolumeClaim.None? {
        continue;
      }
      var pvcName := vol.persistentVolumeClaim.value;
      if pvcName == "" {
        err := Some(NoClaimNameError);
        AddEntriesStopsAtError(c, lib, namespace, volumes, result, i + 1);
        return;
      }
      if (namespace, pvcName) !in c.pvcInfo {
        continue;
      }
      var pvc := c.pvcInfo[(namespace, pvcName)];
      var (driverName, volumeHandle) := GetCSIDriverInfo(c, lib, pvc);
      if driverName == "" || volumeHandle == "" {
        continue;
      }
      var volumeLimitKey := lib.attachLimitKey(driverName);
      newResult := newResult[volumeHandle := volumeLimitKey];
    }
    assert volumes[..|volumes|] == volumes;
    err := None;
  }

  /** Once a prefix of the volumes fails, all of them fail with the same error. */
  lemma {:induction false} AddEntriesStopsAtError(c: CSIMaxVolumeLimitChecker, lib: CsiLib, namespace: string,
                                                  volumes: seq<Volume>, result: map<string, string>, n: nat)
    requires n <= |volumes| && AddEntries(c, lib, namespace, volumes[..n], result).Failure?
    ensures AddEntries(c, lib, namespace, volumes, result) == AddEntries(c, lib, namespace, volumes[..n], result)
    decreases |volumes| - n
  {
    if n < |volumes| {
      assert volumes[..n + 1][..n] == volumes[..n];
      AddEntriesStopsAtError(c, lib, namespace, volumes, result, n + 1);
    } else {
      assert volumes[..n] == volumes;
    }
  }

  /** The same for the pods of a node. */
  lemma {:induction false} AttachedEntriesStopsAtError(c: CSIMaxVolumeLimitChecker, lib: CsiLib, pods: seq<Pod>,
                                                       result: map<string, string>, n: nat)
    requires n <= |pods| && AttachedEntries(c, lib, pods[..n], result).Failure?
    ensures AttachedEntries(c, lib, pods, result) == AttachedEntries(c, lib, pods[..n], result)
    decreases |pods| - n
  {
    if n < |pods| {
      assert pods[..n + 1][..n] == pods[..n];
      AttachedEntriesStopsAtError(c, lib, pods, result, n + 1);
    } else {
      assert pods[..n] == pods;
    }
  }

  /**
   * Collecting fails exactly when some volume is a claim with an empty name.
   * Otherwise a handle is in the result exactly when it was there before or
   * belongs to a counted volume, and its key is the earlier one or that of a
   * counted volume with that handle: entries keyed by handle collapse.
   */
  lemma {:induction false} AddEntriesSpec(c: CSIMaxVolumeLimitChecker, lib: CsiLib, namespace: string,
                                          volumes: seq<Volume>, result: map<string, string>)
    ensures AddEntries(c, lib, namespace, volumes, result).Failure? <==>
              exists i :: 0 <= i < |volumes| && volumes[i].persistentVolumeClaim == Some("")
    ensures AddEntries(c, lib, namespace, volumes, result).Success? ==>
              forall h :: h in AddEntries(c, lib, namespace, volumes, result).value <==>
                (h in result || exists i :: 0 <= i < |volumes| && Countable(c, lib, namespace, volumes[i]) &&
                                             ClaimDriverInfo(c, lib, namespace, volumes[i].persistentVolumeClaim.value).1 == h)
    ensures AddEntries(c, lib, namespace, volumes, result).Success? ==>
              var m := AddEntries(c, lib, namespace, volumes, result).value;
              forall h | h in m ::
                (h in result && m[h] == result[h]) ||
                exists i :: 0 <= i < |volumes| && Countable(c, lib, namespace, volumes[i]) &&
                            ClaimDriverInfo(c, lib, namespace, volumes[i].persistentVolumeClaim.value).1 == h &&
                            m[h] == lib.attachLimitKey(ClaimDriverInfo(c, lib, namespace, volumes[i].persistentVolumeClaim.value).0)
  {
    if volumes != [] {
      var init, last := volumes[..|volumes| - 1], volumes[|volumes| - 1];
      AddEntriesSpec(c, lib, namespace, init, result);
      assert forall i | 0 <= i < |init| :: volumes[i] == init[i];
      assert volumes == init + [last];
    }
  }

  // ---------------------------------------------------------------------------
  // Counting against the node's limits

  /** How many of the handles in `hs` map to `key`. */
  function CountIn(vols: map<string, string>, hs: set<string>, key: string): nat
  {
    |set h | h in hs && h in vols && vols[h] == key|
  }

  /** How many volumes of `vols` count under `key`. */
  function CountOf(vols: map<string, string>, key: string): nat
  {
    CountIn(vols, vols.Keys, key)
  }

  /** A per-key counter; an absent key reads as zero, as a Go map lookup does. */
  function CountAt(counts: map<string, int>, key: string): int
  {
    if key in counts then counts[key] else 0
  }

  /** The entries of `vols` whose handle is not in `hs`. */
  function Without(vols: map<string, string>, hs: set<string>): map<string, string>
  {
    map h | h in vols && h !in hs :: vols[h]
  }

  /** The new volumes that are not attached to the node already. */
  function Remaining(newVolumes: map<string, string>, attachedVolumes: map<string, string>): map<string, string>
  {
    Without(newVolumes, attachedVolumes.Keys)
  }

  /** Some limit key of the node would be exceeded by the pod's remaining new volumes. */
  predicate Exceeds(limits: map<string, int>, newVolumes: map<string, string>, attachedVolumes: map<string, string>)
  {
    exists k | k in limits ::
      CountOf(Remaining(newVolumes, attachedVolumes), k) > 0 &&
      CountOf(attachedVolumes, k) + CountOf(Remaining(newVolumes, attachedVolumes), k) > limits[k]
  }

  lemma CountStep(vols: map<string, string>, hs: set<string>, t: string, key: string)
    requires t in vols && t !in hs
    ensures CountIn(vols, hs + {t}, key) == CountIn(vols, hs, key) + (if vols[t] == key then 1 else 0)
  {
    var before := set h | h in hs && h in vols && vols[h] == key;
    var after := set h | h in hs + {t} && h in vols && vols[h] == key;
    if vols[t] == key {
      assert after == before + {t};
    } else {
      assert after == before;
    }
  }

  /**
   * The first counting loop: drop each attached handle from the new volumes
   * and count the attached volumes per key.
   */
  method CountAttached(newVolumes: map<string, string>, attachedVolumes: map<string, string>)
    returns (remaining: map<string, string>, attachedVolumeCount: map<string, int>)
    ensures remaining == Remaining(newVolumes, attachedVolumes)
    ensures forall k :: CountAt(attachedVolumeCount, k) == CountOf(attachedVolumes, k)
  {
    remaining := newVolumes;
    attachedVolumeCount := map[];
    var todo := attachedVolumes.Keys;
    while todo != {}
      invariant todo <= attachedVolumes.Keys
      invariant remaining == Without(newVolumes, attachedVolumes.Keys - todo)
      invariant forall k :: CountAt(attachedVolumeCount, k) == CountIn(attachedVolumes, attachedVolumes.Keys - todo, k)
      decreases todo
    {
      var volumeName :| volumeName in todo;
      var volumeLimitKey := attachedVolumes[volumeName];
      ghost var done := attachedVolumes.Keys - todo;
      if volumeName in remaining {
        remaining := remaining - {volumeName};
      }
      attachedVolumeCount := attachedVolumeCount[volumeLimitKey := CountAt(attachedVolumeCount, volumeLimitKey) + 1];
      todo := todo - {volumeName};
      assert attachedVolumes.Keys - todo == done + {volumeName};
      forall k ensures CountIn(attachedVolumes, done + {volumeName}, k) ==
                       CountIn(attachedVolumes, done, k) + (if volumeLimitKey == k then 1 else 0) {
        CountStep(attachedVolumes, done, volumeName, k);
      }
    }
    assert attachedVolumes.Keys - todo == attachedVolumes.Keys;
  }

  /** The second counting loop: count the remaining new volumes per key. */
  method CountNew(remaining: map<string, string>) returns (newVolumeCount: map<string, int>)
    ensures forall k :: CountAt(newVolumeCount, k) == CountOf(remaining, k)
    ensures forall k | k in newVolumeCount :: newVolumeCount[k] > 0
  {
    newVolumeCount := map[];
    var todo := remaining.Keys;
    while todo != {}
      invariant todo <= remaining.Keys
      invariant forall k :: CountAt(newVolumeCount, k) == CountIn(remaining, remaining.Keys - todo, k)
      invariant forall k | k in newVolumeCount :: newVolumeCount[k] > 0
      decreases todo
    {
      var volumeName :| volumeName in todo;
      var volumeLimitKey := remaining[volumeName];
      ghost var done := remaining.Keys - todo;
      newVolumeCount := newVolumeCount[volumeLimitKey := CountAt(newVolumeCount, volumeLimitKey) + 1];
      todo := todo - {volumeName};
      assert remaining.Keys - todo == done + {volumeName};
      forall k ensures CountIn(remaining, done + {volumeName}, k) ==
                       CountIn(remaining, done, k) + (if volumeLimitKey == k then 1 else 0) {
        CountStep(remaining, done, volumeName, k);
      }
    }
    assert remaining.Keys - todo == remaining.Keys;
  }

  /** The last loop: is some counted key over the node's limit for it? */
  method CheckLimits(newVolumeCount: map<string, int>, attachedVolumeCount: map<string, int>, limits: map<string, int>)
    returns (exceeded: bool)
    ensures exceeded <==> exists k | k in newVolumeCount ::
              k in limits && CountAt(attachedVolumeCount, k) + newVolumeCount[k] > limits[k]
  {
    var todo := newVolumeCount.Keys;
    while todo != {}
      invariant todo <= newVolumeCount.Keys
      invariant forall k | k in newVolumeCount && k !in todo ::
                  !(k in limits && CountAt(attachedVolumeCount, k) + newVolumeCount[k] > limits[k])
      decreases todo
    {
      var volumeLimitKey :| volumeLimitKey in todo;
      var count := newVolumeCount[volumeLimitKey];
      if volumeLimitKey in limits {
        var currentVolumeCount := CountAt(attachedVolumeCount, volumeLimitKey);
        if currentVolumeCount + count > limits[volumeLimitKey] {
          return true;
        }
      }
      todo := todo - {volumeLimitKey};
    }
    return false;
  }

  /** The predicate's early exits are not taken: gate on, the pod has volumes, the node has limits. */
  predicate Checked(attachVolumeLimit: bool, pod: Pod, nodeInfo: NodeInfo)
  {
    attachVolumeLimit && |pod.volumes| > 0 && |nodeInfo.volumeLimits| > 0
  }

  function NewVolumesOf(c: CSIMaxVolumeLimitChecker, lib: CsiLib, pod: Pod): Result<map<string, string>, string>
  {
    AddEntries(c, lib, pod.namespace, pod.volumes, map[])
  }

  function AttachedVolumesOf(c: CSIMaxVolumeLimitChecker, lib: CsiLib, nodeInfo: NodeInfo): Result<map<string, string>, string>
  {
    AttachedEntries(c, lib, nodeInfo.pods, map[])
  }

  /**
   * Whether `pod` fits `nodeInfo` as far as CSI attach limits go. An
   * unnamed claim among the pod's volumes, or among those of the node's pods
   * once the pod has counted volumes, is an error.
   */
  method AttachableLimitPredicate(c: CSIMaxVolumeLimitChecker, lib: CsiLib, attachVolumeLimit: bool,
                                  pod: Pod, nodeInfo: NodeInfo)
    returns (fits: bool, reasons: seq<PredicateFailureReason>, err: Option<string>)
    ensures !Checked(attachVolumeLimit, pod, nodeInfo) ==> fits && reasons == [] && err.None?
    ensures Checked(attachVolumeLimit, pod, nodeInfo) && NewVolumesOf(c, lib, pod).Failure? ==>
              !fits && reasons == [] && err == Some(NewVolumesOf(c, lib, pod).error)
    ensures Checked(attachVolumeLimit, pod, nodeInfo) && NewVolumesOf(c, lib, pod) == Success(map[]) ==>
              fits && reasons == [] && err.None?
    ensures Checked(attachVolumeLimit, pod, nodeInfo) && NewVolumesOf(c, lib, pod).Success? &&
            NewVolumesOf(c, lib, pod).value != map[] && AttachedVolumesOf(c, lib, nodeInfo).Failure? ==>
              !fits && reasons == [] && err == Some(AttachedVolumesOf(c, lib, nodeInfo).error)
    ensures Checked(attachVolumeLimit, pod, nodeInfo) && NewVolumesOf(c, lib, pod).Success? &&
            NewVolumesOf(c, lib, pod).value != map[] && AttachedVolumesOf(c, lib, nodeInfo).Success? ==>
              && err.None?
              && (fits <==> !Exceeds(nodeInfo.volumeLimits, NewVolumesOf(c, lib, pod).value,
                                     AttachedVolumesOf(c, lib, nodeInfo).value))
              && reasons == if fits then [] else [ErrMaxVolumeCountExceeded]
  {
    if !attachVolumeLimit {
      return true, [], None;
    }
    if |pod.volumes| == 0 {
      return true, [], None;
    }
    var nodeVolumeLimits := nodeInfo.volumeLimits;
    if |nodeVolumeLimits| == 0 {
      return true, [], None;
    }
    var newVolumes;
    newVolumes, err := FilterAttachableVolumes(c, lib, pod.volumes, pod.namespace, map[]);
    if err.Some? {
      return false, [], err;
    }
    if |newVolumes| == 0 {
      return true, [], None;
    }
    var attachedVolumes: map<string, string> := map[];
    for i := 0 to |nodeInfo.pods|
      invariant AttachedEntries(c, lib, nodeInfo.pods[..i], map[]) == Success(attachedVolumes)
    {
      assert nodeInfo.pods[..i + 1][..i] == nodeInfo.pods[..i];
      var existingPod := nodeInfo.pods[i];
      attachedVolumes, err := FilterAttachableVolumes(c, lib, existingPod.volumes, existingPod.namespace, attachedVolumes);
      if err.Some? {
        AttachedEntriesStopsAtError(c, lib, nodeInfo.pods, map[], i + 1);
        return false, [], err;
      }
    }
    assert nodeInfo.pods[..|nodeInfo.pods|] == nodeInfo.pods;
    var remaining, attachedVolumeCount := CountAttached(newVolumes, attachedVolumes);
    var newVolumeCount := CountNew(remaining);
    var exceeded := CheckLimits(newVolumeCount, attachedVolumeCount, nodeVolumeLimits);
    ExceededMeansExceeds(newVolumeCount, attachedVolumeCount, nodeVolumeLimits, newVolumes, attachedVolumes);
    if exceeded {
      return false, [ErrMaxVolumeCountExceeded], None;
    }
    return true, [], None;
  }

  /** What the three counting loops compute is the `Exceeds` rule. */
  lemma ExceededMeansExceeds(newVolumeCount: map<string, int>, attachedVolumeCount: map<string, int>,
                             limits: map<string, int>, newVolumes: map<string, string>,
                             attachedVolumes: map<string, string>)
    requires forall k :: CountAt(newVolumeCount, k) == CountOf(Remaining(newVolumes, attachedVolumes), k)
    requires forall k | k in newVolumeCount :: newVolumeCount[k] > 0
    requires forall k :: CountAt(attachedVolumeCount, k) == CountOf(attachedVolumes, k)
    ensures (exists k | k in newVolumeCount :: k in limits && CountAt(attachedVolumeCount, k) + newVolumeCount[k] > limits[k])
            <==> Exceeds(limits, newVolumes, attachedVolumes)
  {
    if exists k | k in newVolumeCount :: k in limits && CountAt(attachedVolumeCount, k) + newVolumeCount[k] > limits[k] {
      var k :| k in newVolumeCount && k in limits && CountAt(attachedVolumeCount, k) + newVolumeCount[k] > limits[k];
      assert CountAt(newVolumeCount, k) == newVolumeCount[k];
    }
    if Exceeds(limits, newVolumes, attachedVolumes) {
      var k :| k in limits && CountOf(Remaining(newVolumes, attachedVolumes), k) > 0 &&
               CountOf(attachedVolumes, k) + CountOf(Remaining(newVolumes, attachedVolumes), k) > limits[k];
      assert CountAt(newVolumeCount, k) > 0;
    }
  }

  /** A key that the node has no limit for never rejects the pod. */
  lemma AbsentKeysNeverReject(limits: map<string, int>, newVolumes: map<string, string>,
                              attachedVolumes: map<string, string>)
    requires forall h | h in newVolumes && h !in attachedVolumes :: newVolumes[h] !in limits
    ensures !Exceeds(limits, newVolumes, attachedVolumes)
  {
    var r := Remaining(newVolumes, attachedVolumes);
    forall k | k in limits ensures CountOf(r, k) == 0 {
      assert (set h | h in r.Keys && h in r && r[h] == k) == {};
    }
  }

  /** New volumes already attached to the node are not counted again: if all are, the pod fits. */
  lemma AttachedVolumesNotCounted(limits: map<string, int>, newVolumes: map<string, string>,
                                  attachedVolumes: map<string, string>)
    requires newVolumes.Keys <= attachedVolumes.Keys
    ensures !Exceeds(limits, newVolumes, attachedVolumes)
  {
    var r := Remaining(newVolumes, attachedVolumes);
    assert r == map[];
    forall k | k in limits ensures CountOf(r, k) == 0 {
      assert (set h | h in r.Keys && h in r && r[h] == k) == {};
    }
  }
}
