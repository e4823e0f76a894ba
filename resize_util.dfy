/**
 * The resize status machine: the persisted resize conditions on a claim
 * (`Resizing`, `FileSystemResizePending`), the merge that replaces them while
 * leaving every other condition alone, and the in-memory claim and volume
 * objects that the `Mark*` helpers and `UpdatePVSize` build before patching.
 * The patch itself is an abstract outcome: `None` for success, `Some(cause)`
 * for a failure.
 */
module ResizeUtil {
  import opened Wrappers
  import opened CoreApi

  /** The condition types in `knownResizeConditions`. */
  predicate IsKnownResizeCondition(t: ConditionType)
  {
    t == FileSystemResizePending || t == Resizing
  }

  // ---------------------------------------------------------------------------
  // Claim key

  /** `namespace/name` of a claim. */
  function ClaimToClaimKey(claim: PersistentVolumeClaim): (key: string)
    ensures |key| == |claim.namespace| + 1 + |claim.name|
    ensures key[..|claim.namespace|] == claim.namespace
    ensures key[|claim.namespace|] == '/'
    ensures key[|claim.namespace| + 1..] == claim.name
  {
    claim.namespace + "/" + claim.name
  }

  /** Namespaces never contain a slash, so the key names exactly one claim. */
  lemma {:induction false} ClaimKeyIdentifiesClaim(a: PersistentVolumeClaim, b: PersistentVolumeClaim)
    requires '/' !in a.namespace && '/' !in b.namespace
    requires ClaimToClaimKey(a) == ClaimToClaimKey(b)
    ensures a.namespace == b.namespace && a.name == b.name
  {
    var key := ClaimToClaimKey(a);
    var na, nb := |a.namespace|, |b.namespace|;
    assert forall j | 0 <= j < na :: key[j] == a.namespace[j] && key[j] != '/';
    assert forall j | 0 <= j < nb :: key[j] == b.namespace[j] && key[j] != '/';
    assert key[na] == '/' && key[nb] == '/';
    assert na == nb;
    assert a.namespace == key[..na] == b.namespace;
    assert a.name == key[na + 1..] == b.name;
  }

  // ---------------------------------------------------------------------------
  // Specification of the condition merge

  /** No later request has the same type as `reqs[i]`. */
  predicate LastOfType(reqs: seq<Condition>, i: int)
    requires 0 <= i < |reqs|
  {
    forall j | i < j < |reqs| :: reqs[j].conditionType != reqs[i].conditionType
  }

  /** The requested conditions by type, as `resizeConditionMap` holds them. */
  function RequestedByType(reqs: seq<Condition>): map<ConditionType, Condition>
  {
    if reqs == [] then map[]
    else RequestedByType(reqs[..|reqs| - 1])[reqs[|reqs| - 1].conditionType := reqs[|reqs| - 1]]
  }

  /** Every requested type is a key, and it maps to the last request of that type. */
  lemma {:induction false} RequestedByTypeSpec(reqs: seq<Condition>)
    ensures forall t | t in RequestedByType(reqs) ::
              RequestedByType(reqs)[t].conditionType == t && RequestedByType(reqs)[t] in reqs
    ensures forall i | 0 <= i < |reqs| :: reqs[i].conditionType in RequestedByType(reqs)
    ensures forall i | 0 <= i < |reqs| && LastOfType(reqs, i) :: RequestedByType(reqs)[reqs[i].conditionType] == reqs[i]
  {
    if reqs != [] {
      var init := reqs[..|reqs| - 1];
      RequestedByTypeSpec(init);
      assert forall i | 0 <= i < |init| :: init[i] == reqs[i];
    }
  }

  /** What the scan of the existing list contributes for one condition. */
  function Keep(c: Condition, m: map<ConditionType, Condition>): seq<Condition>
  {
    if !IsKnownResizeCondition(c.conditionType) then [c]
    else if c.conditionType in m then
      if m[c.conditionType].status != c.status then [m[c.conditionType]] else [c]
    else []
  }

  /** The conditions kept or replaced by the scan of the existing list, in its order. */
  function Retained(olds: seq<Condition>, m: map<ConditionType, Condition>): seq<Condition>
  {
    if olds == [] then []
    else Retained(olds[..|olds| - 1], m) + Keep(olds[|olds| - 1], m)
  }

  /** The resize types met by the scan, i.e. the requested types it marks processed. */
  function ResizeTypesIn(olds: seq<Condition>): set<ConditionType>
  {
    set c | c in olds && IsKnownResizeCondition(c.conditionType) :: c.conditionType
  }

  /** `tail` holds exactly one condition per type in `types`, namely the requested one. */
  predicate AppendedExactly(tail: seq<Condition>, m: map<ConditionType, Condition>, types: set<ConditionType>)
  {
    && (forall i | 0 <= i < |tail| :: tail[i].conditionType in types && tail[i].conditionType in m
                                        && tail[i] == m[tail[i].conditionType])
    && (forall i, j | 0 <= i < j < |tail| :: tail[i].conditionType != tail[j].conditionType)
    && (forall t | t in types :: exists i :: 0 <= i < |tail| && tail[i].conditionType == t)
    && |tail| == |types|
  }

  /**
   * `conds` is a possible result of merging `reqs` into `olds`: first what the
   * scan retained, in the original order, then each requested condition whose
   * type the scan never met, once, in any order (Go map iteration order).
   */
  predicate MergedConditions(olds: seq<Condition>, reqs: seq<Condition>, conds: seq<Condition>)
  {
    var m := RequestedByType(reqs);
    var kept := Retained(olds, m);
    && |kept| <= |conds|
    && conds[..|kept|] == kept
    && AppendedExactly(conds[|kept|..], m, m.Keys - ResizeTypesIn(olds))
  }

  // ---------------------------------------------------------------------------
  // The merge itself

  datatype ResizeProcessStatus = ResizeProcessStatus(condition: Condition, processed: bool)

  /** Replaces the claim's resize conditions by the requested ones; all else on the claim is kept. */
  method MergeResizeConditionOnPVC(pvc: PersistentVolumeClaim, resizeConditions: seq<Condition>)
    returns (r: PersistentVolumeClaim)
    ensures r == pvc.(status := pvc.status.(conditions := r.status.conditions))
    ensures MergedConditions(pvc.status.conditions, resizeConditions, r.status.conditions)
  {
    RequestedByTypeSpec(resizeConditions);
    var resizeConditionMap := BuildResizeConditionMap(resizeConditions);
    var oldConditions := pvc.status.conditions;
    var newConditions;
    newConditions, resizeConditionMap := ScanConditions(oldConditions, resizeConditionMap, RequestedByType(resizeConditions));
    newConditions := AppendUnprocessed(newConditions, resizeConditionMap, RequestedByType(resizeConditions), oldConditions);
    r := pvc.(status := pvc.status.(conditions := newConditions));
  }

  /** The first loop: one entry per requested type, the last request of a type winning, none processed. */
  method BuildResizeConditionMap(resizeConditions: seq<Condition>)
    returns (resizeConditionMap: map<ConditionType, ResizeProcessStatus>)
    ensures resizeConditionMap.Keys == RequestedByType(resizeConditions).Keys
    ensures forall t | t in resizeConditionMap ::
              resizeConditionMap[t] == ResizeProcessStatus(RequestedByType(resizeConditions)[t], false)
  {
    resizeConditionMap := map[];
    for i := 0 to |resizeConditions|
      invariant resizeConditionMap.Keys == RequestedByType(resizeConditions[..i]).Keys
      invariant forall t | t in resizeConditionMap ::
                  resizeConditionMap[t] == ResizeProcessStatus(RequestedByType(resizeConditions[..i])[t], false)
    {
      var condition := resizeConditions[i];
      assert resizeConditions[..i + 1][..i] == resizeConditions[..i];
      resizeConditionMap := resizeConditionMap[condition.conditionType := ResizeProcessStatus(condition, false)];
    }
    assert resizeConditions[..|resizeConditions|] == resizeConditions;
  }

  /**
   * The second loop: keep every non-resize condition, keep or replace each
   * requested resize condition, drop the others, and flag the requested types
   * met.
   */
  method ScanConditions(oldConditions: seq<Condition>, rmap: map<ConditionType, ResizeProcessStatus>,
                        ghost m: map<ConditionType, Condition>)
    returns (newConditions: seq<Condition>, resizeConditionMap: map<ConditionType, ResizeProcessStatus>)
    requires rmap.Keys == m.Keys
    requires forall t | t in rmap :: rmap[t] == ResizeProcessStatus(m[t], false)
    ensures newConditions == Retained(oldConditions, m)
    ensures resizeConditionMap.Keys == m.Keys
    ensures forall t | t in resizeConditionMap ::
              resizeConditionMap[t] == ResizeProcessStatus(m[t], t in ResizeTypesIn(oldConditions))
  {
    resizeConditionMap := rmap;
    newConditions := [];
    for i := 0 to |oldConditions|
      invariant resizeConditionMap.Keys == m.Keys
      invariant forall t | t in resizeConditionMap ::
                  resizeConditionMap[t] == ResizeProcessStatus(m[t], t in ResizeTypesIn(oldConditions[..i]))
      invariant newConditions == Retained(oldConditions[..i], m)
    {
      var condition := oldConditions[i];
      assert oldConditions[..i + 1][..i] == oldConditions[..i];
      assert ResizeTypesIn(oldConditions[..i + 1]) ==
             ResizeTypesIn(oldConditions[..i]) +
             (if IsKnownResizeCondition(condition.conditionType) then {condition.conditionType} else {});
      if !IsKnownResizeCondition(condition.conditionType) {
        newConditions := newConditions + [condition];
        continue;
      }
      if condition.conditionType in resizeConditionMap {
        var newCondition := resizeConditionMap[condition.conditionType];
        if newCondition.condition.status != condition.status {
          newConditions := newConditions + [newCondition.condition];
        } else {
          newConditions := newConditions + [condition];
        }
        resizeConditionMap := resizeConditionMap[condition.conditionType := newCondition.(processed := true)];
      }
    }
    assert oldConditions[..|oldConditions|] == oldConditions;
  }

  /** The third loop: append each unprocessed requested condition, in map iteration order. */
  method AppendUnprocessed(kept: seq<Condition>, resizeConditionMap: map<ConditionType, ResizeProcessStatus>,
                           ghost m: map<ConditionType, Condition>, ghost olds: seq<Condition>)
    returns (newConditions: seq<Condition>)
    requires resizeConditionMap.Keys == m.Keys
    requires forall t | t in m :: m[t].conditionType == t
    requires forall t | t in resizeConditionMap ::
               resizeConditionMap[t] == ResizeProcessStatus(m[t], t in ResizeTypesIn(olds))
    ensures |kept| <= |newConditions| && newConditions[..|kept|] == kept
    ensures AppendedExactly(newConditions[|kept|..], m, m.Keys - ResizeTypesIn(olds))
  {
    ghost var processed := ResizeTypesIn(olds);
    var tail: seq<Condition> := [];
    var todo := resizeConditionMap.Keys;
    while todo != {}
      invariant todo <= m.Keys
      invariant AppendedExactly(tail, m, (m.Keys - todo) - processed)
      decreases todo
    {
      var t :| t in todo;
      if !resizeConditionMap[t].processed {
        AppendOne(tail, m, todo, processed, t);
        tail := tail + [resizeConditionMap[t].condition];
      } else {
        SkipOne(m, todo, processed, t);
      }
      todo := todo - {t};
    }
    newConditions := kept + tail;
    assert newConditions[|kept|..] == tail;
  }

  lemma SkipOne(m: map<ConditionType, Condition>, todo: set<ConditionType>,
                processed: set<ConditionType>, t: ConditionType)
    requires t in processed
    ensures (m.Keys - (todo - {t})) - processed == (m.Keys - todo) - processed
  {
  }

  lemma AppendOne(tail: seq<Condition>, m: map<ConditionType, Condition>, todo: set<ConditionType>,
                  processed: set<ConditionType>, t: ConditionType)
    requires AppendedExactly(tail, m, (m.Keys - todo) - processed)
    requires t in todo && todo <= m.Keys && t !in processed && m[t].conditionType == t
    ensures AppendedExactly(tail + [m[t]], m, (m.Keys - (todo - {t})) - processed)
  {
    var types := (m.Keys - todo) - processed;
    assert (m.Keys - (todo - {t})) - processed == types + {t};
    assert t !in types;
    var tail' := tail + [m[t]];
    assert |types + {t}| == |types| + 1;
    forall i | 0 <= i < |tail'|
      ensures tail'[i].conditionType in types + {t} && tail'[i].conditionType in m
      ensures tail'[i] == m[tail'[i].conditionType]
    {
      if i < |tail| {
        assert tail'[i] == tail[i];
      }
    }
    forall i, j | 0 <= i < j < |tail'|
      ensures tail'[i].conditionType != tail'[j].conditionType
    {
      assert tail'[i] == tail[i];
      if j < |tail| {
        assert tail'[j] == tail[j];
      }
    }
    forall u | u in types + {t} ensures exists i :: 0 <= i < |tail'| && tail'[i].conditionType == u {
      if u == t {
        assert tail'[|tail|].conditionType == u;
      } else {
        var i :| 0 <= i < |tail| && tail[i].conditionType == u;
        assert tail'[i] == tail[i];
      }
    }
  }

  // ---------------------------------------------------------------------------
  // What a merge promises

  /** The conditions whose type is not a resize type, in order. */
  function NonResize(s: seq<Condition>): (r: seq<Condition>)
  {
    if s == [] then []
    else NonResize(s[..|s| - 1]) +
         (if IsKnownResizeCondition(s[|s| - 1].conditionType) then [] else [s[|s| - 1]])
  }

  lemma {:induction false} NonResizeAppend(a: seq<Condition>, b: seq<Condition>)
    ensures NonResize(a + b) == NonResize(a) + NonResize(b)
    decreases |b|
  {
    if b != [] {
      var b0 := b[..|b| - 1];
      assert (a + b)[..|a + b| - 1] == a + b0;
      NonResizeAppend(a, b0);
    } else {
      assert a + b == a;
    }
  }

  lemma {:induction false} NonResizeOfRetained(olds: seq<Condition>, m: map<ConditionType, Condition>)
    requires forall t | t in m :: m[t].conditionType == t
    ensures NonResize(Retained(olds, m)) == NonResize(olds)
  {
    if olds != [] {
      var init, last := olds[..|olds| - 1], olds[|olds| - 1];
      NonResizeOfRetained(init, m);
      NonResizeAppend(Retained(init, m), Keep(last, m));
      var k := Keep(last, m);
      assert k != [] ==> NonResize(k) == NonResize([] + k);
      assert NonResize(k) == (if IsKnownResizeCondition(last.conditionType) then [] else [last]) by {
        if k != [] {
          assert k[..|k| - 1] == [];
        }
      }
    }
  }

  lemma {:induction false} NonResizeAllResize(s: seq<Condition>)
    requires forall i | 0 <= i < |s| :: IsKnownResizeCondition(s[i].conditionType)
    ensures NonResize(s) == []
  {
    if s != [] {
      NonResizeAllResize(s[..|s| - 1]);
    }
  }

  /**
   * Every existing condition of another type survives, in its original
   * relative order, ahead of anything appended; when only resize types are
   * requested the non-resize part of the result is exactly the original one.
   */
  lemma MergeKeepsForeignConditions(olds: seq<Condition>, reqs: seq<Condition>, conds: seq<Condition>)
    requires MergedConditions(olds, reqs, conds)
    ensures exists tail :: NonResize(conds) == NonResize(olds) + tail
    ensures (forall i | 0 <= i < |reqs| :: IsKnownResizeCondition(reqs[i].conditionType)) ==>
              NonResize(conds) == NonResize(olds)
  {
    var m := RequestedByType(reqs);
    var tail := MergedSplit(olds, reqs, conds);
    RequestedKeysMatch(reqs);
    NonResizeAppend(Retained(olds, m), tail);
    NonResizeOfRetained(olds, m);
    assert NonResize(conds) == NonResize(olds) + NonResize(tail);
    if forall i | 0 <= i < |reqs| :: IsKnownResizeCondition(reqs[i].conditionType) {
      RequestedOfResizeTypes(reqs);
      AppendedAllResize(tail, m, m.Keys - ResizeTypesIn(olds));
    }
  }

  /** A merged list is the retained part followed by the appended part. */
  lemma MergedSplit(olds: seq<Condition>, reqs: seq<Condition>, conds: seq<Condition>) returns (tail: seq<Condition>)
    requires MergedConditions(olds, reqs, conds)
    ensures conds == Retained(olds, RequestedByType(reqs)) + tail
    ensures AppendedExactly(tail, RequestedByType(reqs), RequestedByType(reqs).Keys - ResizeTypesIn(olds))
  {
    var kept := Retained(olds, RequestedByType(reqs));
    tail := conds[|kept|..];
    assert conds == kept + tail;
  }

  /** Each requested condition is filed under its own type. */
  lemma RequestedKeysMatch(reqs: seq<Condition>)
    ensures forall t | t in RequestedByType(reqs) :: RequestedByType(reqs)[t].conditionType == t
  {
    RequestedByTypeSpec(reqs);
  }

  /** When only resize types are requested, every requested condition has a resize type. */
  lemma RequestedOfResizeTypes(reqs: seq<Condition>)
    requires forall i | 0 <= i < |reqs| :: IsKnownResizeCondition(reqs[i].conditionType)
    ensures forall t | t in RequestedByType(reqs) ::
              IsKnownResizeCondition(RequestedByType(reqs)[t].conditionType) && RequestedByType(reqs)[t].conditionType == t
  {
    RequestedByTypeSpec(reqs);
  }

  /** Requested conditions of resize types only leave a tail of resize types only. */
  lemma AppendedAllResize(tail: seq<Condition>, m: map<ConditionType, Condition>, types: set<ConditionType>)
    requires AppendedExactly(tail, m, types)
    requires forall t | t in m :: IsKnownResizeCondition(m[t].conditionType) && m[t].conditionType == t
    ensures NonResize(tail) == []
  {
    forall i | 0 <= i < |tail| ensures IsKnownResizeCondition(tail[i].conditionType) {
      assert tail[i].conditionType in m;
    }
    NonResizeAllResize(tail);
  }

  lemma {:induction false} RetainedResizeElements(olds: seq<Condition>, m: map<ConditionType, Condition>, c: Condition)
    requires forall t | t in m :: m[t].conditionType == t
    requires c in Retained(olds, m) && IsKnownResizeCondition(c.conditionType)
    ensures c.conditionType in m && c.status == m[c.conditionType].status
    ensures c == m[c.conditionType] || c in olds
  {
    if olds != [] {
      var init, last := olds[..|olds| - 1], olds[|olds| - 1];
      if c in Retained(init, m) {
        RetainedResizeElements(init, m, c);
        assert forall x | x in init :: x in olds;
      }
    }
  }

  lemma {:induction false} RetainedKeepsMatching(olds: seq<Condition>, m: map<ConditionType, Condition>, i: int)
    requires 0 <= i < |olds|
    requires IsKnownResizeCondition(olds[i].conditionType) && olds[i].conditionType in m
    ensures olds[i].status == m[olds[i].conditionType].status ==> olds[i] in Retained(olds, m)
    ensures olds[i].status != m[olds[i].conditionType].status ==> m[olds[i].conditionType] in Retained(olds, m)
  {
    var init := olds[..|olds| - 1];
    if i < |olds| - 1 {
      assert init[i] == olds[i];
      RetainedKeepsMatching(init, m, i);
    }
  }

  /**
   * A resize condition in the result carries the requested status and is
   * either the requested condition itself or an original one, kept as it was.
   * In particular a resize type that was not requested does not occur.
   */
  lemma MergeResizeFromRequest(olds: seq<Condition>, reqs: seq<Condition>, conds: seq<Condition>)
    requires MergedConditions(olds, reqs, conds)
    ensures forall c | c in conds && IsKnownResizeCondition(c.conditionType) ::
              c.conditionType in RequestedByType(reqs) && c.status == RequestedByType(reqs)[c.conditionType].status &&
              (c == RequestedByType(reqs)[c.conditionType] || c in olds)
  {
    RequestedByTypeSpec(reqs);
    var m := RequestedByType(reqs);
    var kept := Retained(olds, m);
    var tail := conds[|kept|..];
    assert conds == kept + tail;
    forall c | c in conds && IsKnownResizeCondition(c.conditionType)
      ensures c.conditionType in m && c.status == m[c.conditionType].status && (c == m[c.conditionType] || c in olds)
    {
      if c in kept {
        RetainedResizeElements(olds, m, c);
      } else {
        var i :| 0 <= i < |tail| && tail[i] == c;
      }
    }
  }

  /**
   * An existing resize condition whose type is requested is replaced only when
   * the requested status differs; otherwise the original stays, timestamp
   * included.
   */
  lemma MergeReplacesOnStatusChange(olds: seq<Condition>, reqs: seq<Condition>, conds: seq<Condition>, i: int)
    requires MergedConditions(olds, reqs, conds)
    requires 0 <= i < |olds| && IsKnownResizeCondition(olds[i].conditionType)
    requires olds[i].conditionType in RequestedByType(reqs)
    ensures olds[i].status == RequestedByType(reqs)[olds[i].conditionType].status ==> olds[i] in conds
    ensures olds[i].status != RequestedByType(reqs)[olds[i].conditionType].status ==>
              RequestedByType(reqs)[olds[i].conditionType] in conds
  {
    RequestedByTypeSpec(reqs);
    var m := RequestedByType(reqs);
    var kept := Retained(olds, m);
    assert conds == kept + conds[|kept|..];
    RetainedKeepsMatching(olds, m, i);
  }

  /** Every requested type is present in the result with the requested status. */
  lemma MergeCarriesEveryRequest(olds: seq<Condition>, reqs: seq<Condition>, conds: seq<Condition>)
    requires MergedConditions(olds, reqs, conds)
    ensures forall t | t in RequestedByType(reqs) ::
              exists c :: c in conds && c.conditionType == t && c.status == RequestedByType(reqs)[t].status
  {
    RequestedByTypeSpec(reqs);
    var m := RequestedByType(reqs);
    var kept := Retained(olds, m);
    var tail := conds[|kept|..];
    assert conds == kept + tail;
    forall t | t in m
      ensures exists c :: c in conds && c.conditionType == t && c.status == m[t].status
    {
      var c := CarriedCondition(olds, m, tail, t);
      assert c in kept + tail;
    }
  }

  /** The condition of a requested type that the merge leaves in the list. */
  lemma CarriedCondition(olds: seq<Condition>, m: map<ConditionType, Condition>, tail: seq<Condition>,
                         t: ConditionType)
    returns (c: Condition)
    requires forall u | u in m :: m[u].conditionType == u
    requires AppendedExactly(tail, m, m.Keys - ResizeTypesIn(olds))
    requires t in m
    ensures c in Retained(olds, m) + tail && c.conditionType == t && c.status == m[t].status
  {
    if t in ResizeTypesIn(olds) {
      var o :| o in olds && IsKnownResizeCondition(o.conditionType) && o.conditionType == t;
      var i :| 0 <= i < |olds| && olds[i] == o;
      RetainedKeepsMatching(olds, m, i);
      c := if o.status == m[t].status then o else m[t];
    } else {
      assert t in m.Keys - ResizeTypesIn(olds);
      var i :| 0 <= i < |tail| && tail[i].conditionType == t;
      c := tail[i];
    }
  }

  /** Each resize type occurs at most once. */
  predicate UniqueResizeTypes(s: seq<Condition>)
  {
    forall i, j | 0 <= i < j < |s| && IsKnownResizeCondition(s[i].conditionType) ::
      s[i].conditionType != s[j].conditionType
  }

  lemma {:induction false} RetainedUnique(olds: seq<Condition>, m: map<ConditionType, Condition>)
    requires forall t | t in m :: m[t].conditionType == t
    requires UniqueResizeTypes(olds)
    ensures UniqueResizeTypes(Retained(olds, m))
    ensures forall c | c in Retained(olds, m) && IsKnownResizeCondition(c.conditionType) ::
              c.conditionType in ResizeTypesIn(olds)
  {
    if olds != [] {
      var init, last := olds[..|olds| - 1], olds[|olds| - 1];
      assert UniqueResizeTypes(init) by {
        forall i, j | 0 <= i < j < |init| && IsKnownResizeCondition(init[i].conditionType)
          ensures init[i].conditionType != init[j].conditionType
        {
          assert olds[i] == init[i] && olds[j] == init[j];
        }
      }
      RetainedUnique(init, m);
      var r0, k := Retained(init, m), Keep(last, m);
      assert ResizeTypesIn(init) <= ResizeTypesIn(olds) by {
        forall c | c in init ensures c in olds { }
      }
      if IsKnownResizeCondition(last.conditionType) {
        forall c | c in init && IsKnownResizeCondition(c.conditionType)
          ensures c.conditionType != last.conditionType
        {
          var i :| 0 <= i < |init| && init[i] == c;
          assert olds[i] == c;
        }
        assert last.conditionType !in ResizeTypesIn(init);
        assert last in olds;
      }
      assert Retained(olds, m) == r0 + k;
    }
  }

  /** With at most one condition per resize type on the claim, the merge keeps it that way. */
  lemma MergeKeepsResizeTypesUnique(olds: seq<Condition>, reqs: seq<Condition>, conds: seq<Condition>)
    requires MergedConditions(olds, reqs, conds)
    requires UniqueResizeTypes(olds)
    ensures UniqueResizeTypes(conds)
  {
    RequestedByTypeSpec(reqs);
    var m := RequestedByType(reqs);
    var kept := Retained(olds, m);
    var tail := conds[|kept|..];
    RetainedUnique(olds, m);
    forall i, j | 0 <= i < j < |conds| && IsKnownResizeCondition(conds[i].conditionType)
      ensures conds[i].conditionType != conds[j].conditionType
    {
      if j < |kept| {
        assert conds[i] == kept[i] && conds[j] == kept[j];
      } else if i < |kept| {
        assert conds[i] in kept;
        assert conds[j] == tail[j - |kept|];
      } else {
        assert conds[i] == tail[i - |kept|] && conds[j] == tail[j - |kept|];
      }
    }
  }

  // ---------------------------------------------------------------------------
  // Claim objects built before a status patch

  /** `%q` of a name: claim and volume names need no escaping. */
  function Quote(s: string): string
  {
    "\"" + s + "\""
  }

  /** The outcome of patching the claim's status from `oldPVC` to `newPVC`. */
  function PatchPVCStatus(oldPVC: PersistentVolumeClaim, newPVC: PersistentVolumeClaim, patchFailure: Option<string>)
    : (r: Result<PersistentVolumeClaim, string>)
    ensures r.Success? <==> patchFailure.None?
    ensures r.Success? ==> r.value == newPVC
    ensures r.Failure? ==> r.error == "PatchPVCStatus.Failed to patch PVC " + Quote(oldPVC.name) + " with " + patchFailure.value
  {
    match patchFailure
    case None => Success(newPVC)
    case Some(cause) => Failure("PatchPVCStatus.Failed to patch PVC " + Quote(oldPVC.name) + " with " + cause)
  }

  /** True when a condition of type `t` with status True is present. */
  predicate HasTrueCondition(s: seq<Condition>, t: ConditionType)
  {
    exists c :: c in s && c.conditionType == t && c.status == ConditionTrue
  }

  /** The object sent to mark the provider-level resize as started. */
  method MarkResizeInProgress(pvc: PersistentVolumeClaim, now: Time, patchFailure: Option<string>)
    returns (newPVC: PersistentVolumeClaim, result: Result<PersistentVolumeClaim, string>)
    ensures newPVC == pvc.(status := pvc.status.(conditions := newPVC.status.conditions))
    ensures HasTrueCondition(newPVC.status.conditions, Resizing)
    ensures forall c | c in newPVC.status.conditions :: c.conditionType != FileSystemResizePending
    ensures NonResize(newPVC.status.conditions) == NonResize(pvc.status.conditions)
    ensures result == PatchPVCStatus(pvc, newPVC, patchFailure)
  {
    var progressCondition := Condition(Resizing, ConditionTrue, now, "");
    var conditions := [progressCondition];
    newPVC := pvc;
    newPVC := MergeResizeConditionOnPVC(newPVC, conditions);
    MarkedConditions(pvc.status.conditions, conditions, newPVC.status.conditions);
    result := PatchPVCStatus(pvc, newPVC, patchFailure);
  }

  /** The message written into the `FileSystemResizePending` condition. */
  const FSResizePendingMessage: string :=
    "Waiting for user to (re-)start a pod to finish file system resize of volume on node."

  /** The object sent to mark the node-local file system resize as pending. */
  method MarkForFSResize(pvc: PersistentVolumeClaim, now: Time, patchFailure: Option<string>)
    returns (newPVC: PersistentVolumeClaim, err: Option<string>)
    ensures newPVC == pvc.(status := pvc.status.(conditions := newPVC.status.conditions))
    ensures HasTrueCondition(newPVC.status.conditions, FileSystemResizePending)
    ensures forall c | c in newPVC.status.conditions :: c.conditionType != Resizing
    ensures NonResize(newPVC.status.conditions) == NonResize(pvc.status.conditions)
    ensures err.None? <==> patchFailure.None?
    ensures err.Some? ==> err.value == PatchPVCStatus(pvc, newPVC, patchFailure).error
  {
    var pvcCondition := Condition(FileSystemResizePending, ConditionTrue, now, FSResizePendingMessage);
    var conditions := [pvcCondition];
    newPVC := pvc;
    newPVC := MergeResizeConditionOnPVC(newPVC, conditions);
    MarkedConditions(pvc.status.conditions, conditions, newPVC.status.conditions);
    var result := PatchPVCStatus(pvc, newPVC, patchFailure);
    err := if result.Failure? then Some(result.error) else None;
  }

  /** Merging a single True condition of a resize type. */
  lemma MarkedConditions(olds: seq<Condition>, reqs: seq<Condition>, conds: seq<Condition>)
    requires |reqs| == 1 && IsKnownResizeCondition(reqs[0].conditionType) && reqs[0].status == ConditionTrue
    requires MergedConditions(olds, reqs, conds)
    ensures HasTrueCondition(conds, reqs[0].conditionType)
    ensures forall c | c in conds && IsKnownResizeCondition(c.conditionType) :: c.conditionType == reqs[0].conditionType
    ensures NonResize(conds) == NonResize(olds)
  {
    RequestedByTypeSpec(reqs);
    var m := RequestedByType(reqs);
    assert LastOfType(reqs, 0);
    assert m.Keys == {reqs[0].conditionType};
    MergeResizeFromRequest(olds, reqs, conds);
    MergeCarriesEveryRequest(olds, reqs, conds);
    MergeKeepsForeignConditions(olds, reqs, conds);
  }

  /** The object sent once the whole resize is finished: new capacity, no resize condition. */
  method MarkFSResizeFinished(pvc: PersistentVolumeClaim, newSize: Quantity, patchFailure: Option<string>)
    returns (newPVC: PersistentVolumeClaim, err: Option<string>)
    ensures newPVC.status.capacity == pvc.status.capacity[ResourceStorage := newSize]
    ensures newPVC.status.conditions == NonResize(pvc.status.conditions)
    ensures newPVC == pvc.(status := newPVC.status)
    ensures err.None? <==> patchFailure.None?
    ensures err.Some? ==> err.value == PatchPVCStatus(pvc, newPVC, patchFailure).error
  {
    newPVC := pvc;
    newPVC := newPVC.(status := newPVC.status.(capacity := newPVC.status.capacity[ResourceStorage := newSize]));
    var merged := MergeResizeConditionOnPVC(newPVC, []);
    FinishedConditions(newPVC.status.conditions, merged.status.conditions);
    newPVC := merged;
    var result := PatchPVCStatus(pvc, newPVC, patchFailure);
    err := if result.Failure? then Some(result.error) else None;
  }

  /** `MarkResizeFinished` is `MarkFSResizeFinished` under another name. */
  method MarkResizeFinished(pvc: PersistentVolumeClaim, newSize: Quantity, patchFailure: Option<string>)
    returns (newPVC: PersistentVolumeClaim, err: Option<string>)
    ensures newPVC.status.capacity == pvc.status.capacity[ResourceStorage := newSize]
    ensures Lookup(newPVC.status.capacity, ResourceStorage) == newSize
    ensures newPVC.status.conditions == NonResize(pvc.status.conditions)
    ensures forall c | c in newPVC.status.conditions :: !IsKnownResizeCondition(c.conditionType)
    ensures newPVC == pvc.(status := newPVC.status)
    ensures err.None? <==> patchFailure.None?
    ensures err.Some? ==> err.value == PatchPVCStatus(pvc, newPVC, patchFailure).error
  {
    newPVC, err := MarkFSResizeFinished(pvc, newSize, patchFailure);
    NonResizeHasNoResize(pvc.status.conditions);
  }

  lemma {:induction false} NonResizeHasNoResize(s: seq<Condition>)
    ensures forall c | c in NonResize(s) :: !IsKnownResizeCondition(c.conditionType)
  {
    if s != [] {
      NonResizeHasNoResize(s[..|s| - 1]);
    }
  }

  /** Merging nothing removes every resize condition and keeps the rest. */
  lemma FinishedConditions(olds: seq<Condition>, conds: seq<Condition>)
    requires MergedConditions(olds, [], conds)
    ensures conds == NonResize(olds)
  {
    var m := RequestedByType([]);
    assert m == map[];
    var kept := Retained(olds, m);
    var tail := conds[|kept|..];
    assert conds == kept + tail;
    FinishedRetained(olds);
  }

  lemma {:induction false} FinishedRetained(olds: seq<Condition>)
    ensures Retained(olds, map[]) == NonResize(olds)
  {
    if olds != [] {
      FinishedRetained(olds[..|olds| - 1]);
    }
  }

  /** The volume object sent after the provider-level resize: only its storage capacity changes. */
  method UpdatePVSize(pv: PersistentVolume, newSize: Quantity, patchFailure: Option<string>)
    returns (pvClone: PersistentVolume, err: Option<string>)
    ensures pvClone == pv.(capacity := pvClone.capacity)
    ensures Lookup(pvClone.capacity, ResourceStorage) == newSize
    ensures forall n | n != ResourceStorage :: (n in pvClone.capacity <==> n in pv.capacity) &&
                                                Lookup(pvClone.capacity, n) == Lookup(pv.capacity, n)
    ensures err.None? <==> patchFailure.None?
    ensures err.Some? ==> err.value == "Error Patching PV " + Quote(pv.name) + " with error : " + patchFailure.value
  {
    pvClone := pv;
    pvClone := pvClone.(capacity := pvClone.capacity[ResourceStorage := newSize]);
    err := match patchFailure
      case None => None
      case Some(cause) => Some("Error Patching PV " + Quote(pvClone.name) + " with error : " + cause);
  }
}
