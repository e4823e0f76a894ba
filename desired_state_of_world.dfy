/**
 * The expand controller's desired state of the world: the resize requests it
 * knows of, keyed by claim UID, each flagged once the resize is done.
 */
module DesiredStateOfWorld {
  import opened CoreApi

  type UniquePvcName = string

  datatype PvcWithResizeRequest = PvcWithResizeRequest(
    pvc: PersistentVolumeClaim,
    volumeSpec: VolumeSpec,
    currentSize: Quantity,
    expectedSize: Quantity,
    resizeDone: bool)
  {
    /** A request is filed under the UID of its claim. */
    function UniquePvcKey(): UniquePvcName
    {
      pvc.uid
    }
  }

  type RequestTable = map<UniquePvcName, PvcWithResizeRequest>

  /** Every request is filed under its own key. */
  ghost predicate WellKeyed(pvcrs: RequestTable)
  {
    forall k | k in pvcrs :: pvcrs[k].UniquePvcKey() == k
  }

  /** The keys of the requests whose resize is still to be done. */
  function PendingKeys(pvcrs: RequestTable): set<UniquePvcName>
  {
    set k | k in pvcrs && !pvcrs[k].resizeDone
  }

  /** The table after the request under `key`, if any, is flagged done. */
  function Marked(pvcrs: RequestTable, key: UniquePvcName): RequestTable
  {
    if key in pvcrs then pvcrs[key := pvcrs[key].(resizeDone := true)] else pvcrs
  }

  /** The table after storing `req` when the size grew; unchanged otherwise. */
  function Stored(pvcrs: RequestTable, newSize: Quantity, oldSize: Quantity, req: PvcWithResizeRequest): RequestTable
  {
    if newSize > oldSize then pvcrs[req.UniquePvcKey() := req] else pvcrs
  }

  /** The request built for a grown claim: current size from its status, expected from its spec. */
  function NewRequest(newPvc: PersistentVolumeClaim, spec: VolumeSpec): (r: PvcWithResizeRequest)
    ensures r.UniquePvcKey() == newPvc.uid && r.pvc == newPvc && r.volumeSpec == spec
    ensures r.currentSize == Lookup(newPvc.status.capacity, ResourceStorage)
    ensures r.expectedSize == Lookup(newPvc.spec.requests, ResourceStorage)
    ensures !r.resizeDone
  {
    PvcWithResizeRequest(
      newPvc, spec,
      Lookup(newPvc.status.capacity, ResourceStorage),
      Lookup(newPvc.spec.requests, ResourceStorage),
      false)
  }

  class DesiredStateOfWorld {
    var pvcrs: RequestTable

    ghost predicate Valid()
      reads this
    {
      WellKeyed(pvcrs)
    }

    /** The table starts empty. */
    constructor ()
      ensures Valid() && pvcrs == map[]
    {
      pvcrs := map[];
    }

    /**
     * Files a resize request for `newPvc` when its requested size grew. Both
     * sizes are read from the new claim's requests, so the comparison never
     * holds and the table is left as it was; `oldPvc` is not consulted.
     */
    method AddPvcUpdate(newPvc: PersistentVolumeClaim, oldPvc: PersistentVolumeClaim, spec: VolumeSpec)
      requires Valid()
      modifies this
      ensures Valid()
      ensures pvcrs == Stored(old(pvcrs), Lookup(newPvc.spec.requests, ResourceStorage),
                              Lookup(newPvc.spec.requests, ResourceStorage), NewRequest(newPvc, spec))
      ensures pvcrs == old(pvcrs)
    {
      var newSize := Lookup(newPvc.spec.requests, ResourceStorage);
      var oldSize := Lookup(newPvc.spec.requests, ResourceStorage);
      StoreIfGrown(newSize, oldSize, NewRequest(newPvc, spec));
    }

    /** The guarded store of `AddPvcUpdate`: files `req` under its key when `newSize > oldSize`. */
    method StoreIfGrown(newSize: Quantity, oldSize: Quantity, req: PvcWithResizeRequest)
      requires Valid()
      modifies this
      ensures Valid()
      ensures pvcrs == Stored(old(pvcrs), newSize, oldSize, req)
    {
      if newSize > oldSize {
        pvcrs := pvcrs[req.UniquePvcKey() := req];
      }
    }

    /**
     * Lists the requests whose resize is not done, each once, in the table's
     * (unspecified) iteration order.
     */
    method GetPvcsWithResizeRequest() returns (r: seq<PvcWithResizeRequest>)
      requires Valid()
      ensures forall i | 0 <= i < |r| ::
                r[i].UniquePvcKey() in pvcrs && pvcrs[r[i].UniquePvcKey()] == r[i] && !r[i].resizeDone
      ensures forall i, j | 0 <= i < j < |r| :: r[i].UniquePvcKey() != r[j].UniquePvcKey()
      ensures forall k | k in PendingKeys(pvcrs) :: exists i :: 0 <= i < |r| && r[i].UniquePvcKey() == k
    {
      r := [];
      var todo := pvcrs.Keys;
      while todo != {}
        invariant todo <= pvcrs.Keys
        invariant forall i | 0 <= i < |r| ::
                    r[i].UniquePvcKey() in pvcrs - todo && pvcrs[r[i].UniquePvcKey()] == r[i] && !r[i].resizeDone
        invariant forall i, j | 0 <= i < j < |r| :: r[i].UniquePvcKey() != r[j].UniquePvcKey()
        invariant forall k | k in PendingKeys(pvcrs) - todo :: exists i :: 0 <= i < |r| && r[i].UniquePvcKey() == k
        decreases todo
      {
        var k :| k in todo;
        var pvcr := pvcrs[k];
        if !pvcr.resizeDone {
          ghost var r0 := r;
          r := r + [pvcr];
          assert r[|r| - 1].UniquePvcKey() == k;
          assert forall i | 0 <= i < |r0| :: r[i] == r0[i];
        }
        assert PendingKeys(pvcrs) - (todo - {k}) <= (PendingKeys(pvcrs) - todo) + (if pvcr.resizeDone then {} else {k});
        todo := todo - {k};
      }
      assert PendingKeys(pvcrs) - todo == PendingKeys(pvcrs);
    }

    /**
     * Flags the stored request with the same key as `pvcr` as done; the
     * argument itself is not the object changed. An unknown key is ignored.
     */
    method MarkAsResized(pvcr: PvcWithResizeRequest)
      requires Valid()
      modifies this
      ensures Valid()
      ensures pvcrs == Marked(old(pvcrs), pvcr.UniquePvcKey())
    {
      var pvcUniqueName := pvcr.UniquePvcKey();
      if pvcUniqueName in pvcrs {
        var stored := pvcrs[pvcUniqueName];
        pvcrs := pvcrs[pvcUniqueName := stored.(resizeDone := true)];
      }
    }
  }

  // ---------------------------------------------------------------------------
  // What the table operations promise

  /** A store whose sizes are equal, as `AddPvcUpdate` performs it, changes nothing. */
  lemma StoredUnlessGrown(pvcrs: RequestTable, size: Quantity, req: PvcWithResizeRequest)
    ensures Stored(pvcrs, size, size, req) == pvcrs
  {
  }

  /**
   * A store with a grown size files the request under its key, replacing any
   * earlier one, makes it pending and leaves every other entry alone.
   */
  lemma StoredWhenGrown(pvcrs: RequestTable, newSize: Quantity, oldSize: Quantity, req: PvcWithResizeRequest)
    requires newSize > oldSize && !req.resizeDone
    requires WellKeyed(pvcrs)
    ensures WellKeyed(Stored(pvcrs, newSize, oldSize, req))
    ensures Stored(pvcrs, newSize, oldSize, req).Keys == pvcrs.Keys + {req.UniquePvcKey()}
    ensures Stored(pvcrs, newSize, oldSize, req)[req.UniquePvcKey()] == req
    ensures forall k | k in pvcrs && k != req.UniquePvcKey() :: Stored(pvcrs, newSize, oldSize, req)[k] == pvcrs[k]
    ensures PendingKeys(Stored(pvcrs, newSize, oldSize, req)) == PendingKeys(pvcrs) + {req.UniquePvcKey()}
  {
  }

  /**
   * Marking never adds or removes keys, flags only the entry under `key`,
   * leaves every other entry alone, and takes `key` out of the pending set.
   */
  lemma MarkedSpec(pvcrs: RequestTable, key: UniquePvcName)
    requires WellKeyed(pvcrs)
    ensures WellKeyed(Marked(pvcrs, key))
    ensures Marked(pvcrs, key).Keys == pvcrs.Keys
    ensures key in pvcrs ==> Marked(pvcrs, key)[key] == pvcrs[key].(resizeDone := true)
    ensures forall k | k in pvcrs && k != key :: Marked(pvcrs, key)[k] == pvcrs[k]
    ensures PendingKeys(Marked(pvcrs, key)) == PendingKeys(pvcrs) - {key}
  {
  }

  /** Marking the same request twice is the same as marking it once. */
  lemma MarkedIdempotent(pvcrs: RequestTable, key: UniquePvcName)
    ensures Marked(Marked(pvcrs, key), key) == Marked(pvcrs, key)
  {
  }
}
