/**
 * One tick of the expand controller's reconciler: every pending resize
 * request whose operation is not already in flight is handed to `GrowPvc`;
 * an error is logged and the tick goes on with the next request.
 */
module Reconciler {
  import opened Wrappers
  import opened OperationTypes
  import opened DesiredStateOfWorld

  type UniqueVolumeName = string

  /** The key under which the operation executor tracks a request: its claim UID as a volume name. */
  function VolumeKey(pvcr: PvcWithResizeRequest): (v: UniqueVolumeName)
    ensures v == pvcr.pvc.uid
  {
    pvcr.UniquePvcKey()
  }

  /** The errors `growPvc` reports for `calls`, in call order. */
  function GrowErrors(calls: seq<PvcWithResizeRequest>, growPvc: PvcWithResizeRequest -> Option<OperationError>)
    : seq<OperationError>
  {
    if calls == [] then []
    else GrowErrors(calls[..|calls| - 1], growPvc) +
         (match growPvc(calls[|calls| - 1]) case Some(e) => [e] case None => [])
  }

  /** The requests whose operation is not in flight, in listing order. */
  function NotInFlight(requests: seq<PvcWithResizeRequest>, pendingOperations: set<(UniqueVolumeName, string)>)
    : seq<PvcWithResizeRequest>
  {
    if requests == [] then []
    else NotInFlight(requests[..|requests| - 1], pendingOperations) +
         (if (VolumeKey(requests[|requests| - 1]), "") in pendingOperations then [] else [requests[|requests| - 1]])
  }

  /**
   * One pass over the requests listed at the start of the tick.
   * `pendingOperations` holds the (volume name, pod name) pairs the operation
   * executor reports as in flight; `growPvc` is the outcome of starting a
   * resize. Returns the requests `GrowPvc` was called on, in call order, and
   * the errors logged.
   */
  method Reconcile(dsow: DesiredStateOfWorld, pendingOperations: set<(UniqueVolumeName, string)>,
                   growPvc: PvcWithResizeRequest -> Option<OperationError>)
    returns (calls: seq<PvcWithResizeRequest>, logged: seq<OperationError>)
    requires dsow.Valid()
    ensures forall i | 0 <= i < |calls| ::
              && calls[i].UniquePvcKey() in dsow.pvcrs
              && dsow.pvcrs[calls[i].UniquePvcKey()] == calls[i]
              && !calls[i].resizeDone
              && (VolumeKey(calls[i]), "") !in pendingOperations
    ensures forall i, j | 0 <= i < j < |calls| :: calls[i].UniquePvcKey() != calls[j].UniquePvcKey()
    ensures forall k | k in PendingKeys(dsow.pvcrs) && (k, "") !in pendingOperations ::
              exists i :: 0 <= i < |calls| && calls[i].UniquePvcKey() == k
    ensures logged == GrowErrors(calls, growPvc)
  {
    var requests := dsow.GetPvcsWithResizeRequest();
    calls, logged := GrowEach(requests, pendingOperations, growPvc);
    NotInFlightSpec(requests, pendingOperations);
    forall i | 0 <= i < |calls|
      ensures calls[i].UniquePvcKey() in dsow.pvcrs && dsow.pvcrs[calls[i].UniquePvcKey()] == calls[i]
      ensures !calls[i].resizeDone
    {
      assert calls[i] in calls;
      var a :| 0 <= a < |requests| && requests[a] == calls[i];
    }
    forall k | k in PendingKeys(dsow.pvcrs) && (k, "") !in pendingOperations
      ensures exists i :: 0 <= i < |calls| && calls[i].UniquePvcKey() == k
    {
      var a :| 0 <= a < |requests| && requests[a].UniquePvcKey() == k;
      assert requests[a] in requests && VolumeKey(requests[a]) == k;
      var i :| 0 <= i < |calls| && calls[i] == requests[a];
    }
  }

  /** The loop of a tick: skip what is in flight, grow the rest, log the errors and carry on. */
  method GrowEach(requests: seq<PvcWithResizeRequest>, pendingOperations: set<(UniqueVolumeName, string)>,
                  growPvc: PvcWithResizeRequest -> Option<OperationError>)
    returns (calls: seq<PvcWithResizeRequest>, logged: seq<OperationError>)
    ensures calls == NotInFlight(requests, pendingOperations)
    ensures logged == GrowErrors(calls, growPvc)
  {
    calls, logged := [], [];
    for n := 0 to |requests|
      invariant calls == NotInFlight(requests[..n], pendingOperations)
      invariant logged == GrowErrors(calls, growPvc)
    {
      assert requests[..n + 1][..n] == requests[..n];
      var pvcWithResizeRequest := requests[n];
      var uniqueVolumeKey := VolumeKey(pvcWithResizeRequest);
      if (uniqueVolumeKey, "") in pendingOperations {
        continue;
      }
      var growFuncError := growPvc(pvcWithResizeRequest);
      ghost var calls0 := calls;
      calls := calls + [pvcWithResizeRequest];
      assert calls[..|calls| - 1] == calls0;
      if growFuncError.Some? {
        logged := logged + [growFuncError.value];
      }
    }
    assert requests[..|requests|] == requests;
  }

  /**
   * The requests grown are exactly the listed ones not in flight: each
   * comes from the listing, each listed request not in flight is among them,
   * and the order of the listing, hence its distinct keys, is kept.
   */
  lemma {:induction false} NotInFlightSpec(requests: seq<PvcWithResizeRequest>,
                                           pendingOperations: set<(UniqueVolumeName, string)>)
    ensures forall c | c in NotInFlight(requests, pendingOperations) ::
              c in requests && (VolumeKey(c), "") !in pendingOperations
    ensures forall r | r in requests && (VolumeKey(r), "") !in pendingOperations ::
              r in NotInFlight(requests, pendingOperations)
    ensures (forall i, j | 0 <= i < j < |requests| :: requests[i].UniquePvcKey() != requests[j].UniquePvcKey()) ==>
              (forall i, j | 0 <= i < j < |NotInFlight(requests, pendingOperations)| ::
                 NotInFlight(requests, pendingOperations)[i].UniquePvcKey() !=
                 NotInFlight(requests, pendingOperations)[j].UniquePvcKey())
  {
    if requests != [] {
      var init, last := requests[..|requests| - 1], requests[|requests| - 1];
      NotInFlightSpec(init, pendingOperations);
      assert requests == init + [last];
      if forall i, j | 0 <= i < j < |requests| :: requests[i].UniquePvcKey() != requests[j].UniquePvcKey() {
        var s := NotInFlight(init, pendingOperations);
        forall c | c in s ensures c.UniquePvcKey() != last.UniquePvcKey() {
          var a :| 0 <= a < |init| && init[a] == c;
          assert requests[a] == c;
        }
      }
    }
  }

  /**
   * Errors never cut a tick short: every call that fails has its error
   * logged, and every logged error comes from one of the calls.
   */
  lemma {:induction false} GrowErrorsSpec(calls: seq<PvcWithResizeRequest>,
                                          growPvc: PvcWithResizeRequest -> Option<OperationError>)
    ensures |GrowErrors(calls, growPvc)| <= |calls|
    ensures forall i | 0 <= i < |calls| && growPvc(calls[i]).Some? :: growPvc(calls[i]).value in GrowErrors(calls, growPvc)
    ensures forall e | e in GrowErrors(calls, growPvc) :: exists i :: 0 <= i < |calls| && growPvc(calls[i]) == Some(e)
  {
    if calls != [] {
      var init := calls[..|calls| - 1];
      GrowErrorsSpec(init, growPvc);
      assert forall i | 0 <= i < |init| :: calls[i] == init[i];
    }
  }
}
