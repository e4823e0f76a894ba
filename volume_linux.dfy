/**
 * Giving a mounted volume to a pod's fsGroup: every entry under the volume's
 * root is handed to the group and gets read/write (or read-only) group and
 * owner permissions, directories also setgid and execute. The file system is
 * a map from paths to entries; `Lstat` fails for a path that is not in it,
 * and chown/chmod fail for the paths the file system refuses.
 */
module VolumeLinux {
  import opened Wrappers
  import opened FileModes

  /** Path components below the file system's root; joining a name appends it. */
  type Path = seq<string>

  /**
   * One entry as `Lstat` sees it: its mode, owner and group, whether the
   * platform supplies a `Stat_t` for it, and the outcome of reading it as a
   * directory.
   */
  datatype Inode = Inode(mode: FileMode, uid: int, gid: int, hasStat: bool, listing: Result<seq<string>, string>)

  type Tree = map<Path, Inode>

  datatype FsError = LstatFailed(path: Path) | OpenFailed(path: Path) | ReadDirFailed(path: Path, cause: string)

  /** The paths on which chown or chmod fail; their failures are only logged. */
  datatype Refusals = Refusals(chown: set<Path>, chmod: set<Path>)

  datatype FSGroupChangePolicy = OnRootMismatch | Always

  // ---------------------------------------------------------------------------
  // The root check

  /**
   * Whether the root must be walked: it cannot be read, is not in the group,
   * is not a directory, or does not have exactly the expected permission
   * bits and setgid.
   */
  function RequiresPermissionChange(t: Tree, rootDir: Path, fsGroup: int, readonly: bool): (r: bool)
    ensures !r <==> && rootDir in t && t[rootDir].hasStat && t[rootDir].gid == fsGroup
                    && IsDir(t[rootDir].mode)
                    && Perm(t[rootDir].mode) == (if readonly then roMask else rwMask) + execMask
                    && HasSetgid(t[rootDir].mode)
  {
    if rootDir !in t then true
    else
      var fsInfo := t[rootDir];
      if !fsInfo.hasStat then true
      else if fsInfo.gid != fsGroup then true
      else
        var unixPerms := if readonly then roMask else rwMask;
        if !IsDir(fsInfo.mode) then true
        else
          var unixPerms := unixPerms + execMask;
          if unixPerms != Perm(fsInfo.mode) || !HasSetgid(fsInfo.mode) then true
          else false
  }

  /** The walk is skipped exactly with the gate on, the OnRootMismatch policy, and a root already as required. */
  function SkipPermissionChange(t: Tree, rootDir: Path, fsGroup: int, readonly: bool,
                                configurableFSGroupPermissions: bool, policy: Option<FSGroupChangePolicy>): (skip: bool)
    ensures skip <==> && configurableFSGroupPermissions
                      && policy == Some(OnRootMismatch)
                      && !RequiresPermissionChange(t, rootDir, fsGroup, readonly)
  {
    if !configurableFSGroupPermissions then false
    else if policy.None? || policy.value != OnRootMismatch then false
    else !RequiresPermissionChange(t, rootDir, fsGroup, readonly)
  }

  // ---------------------------------------------------------------------------
  // The walk, as functions of the tree

  /** The tree after `changeFilePermission` on an entry that exists. */
  function ChangedFile(t: Tree, refusals: Refusals, path: Path, fsGroup: int, readonly: bool): (r: Tree)
    requires path in t
    ensures r.Keys == t.Keys
  {
    var info := t[path];
    if IsSymlink(info.mode) || !info.hasStat then t
    else
      var gid := if path in refusals.chown then info.gid else fsGroup;
      var mode := if path in refusals.chmod then info.mode else NewMode(info.mode, readonly);
      t[path := info.(gid := gid, mode := mode)]
  }

  /** `readDirNames`: the names in a directory, or why they could not be read. */
  function ReadDirNames(t: Tree, path: Path): Result<seq<string>, FsError>
  {
    if path !in t then Failure(OpenFailed(path))
    else match t[path].listing
      case Failure(cause) => Failure(ReadDirFailed(path, cause))
      case Success(names) => Success(names)
  }

  /** The number of entries at least as deep as `p`; it drops from a directory to its children. */
  function Measure(keys: set<Path>, p: Path): nat
  {
    var deeper := set q | q in keys && |q| >= |p|;
    |deeper|
  }

  lemma MeasureDrops(keys: set<Path>, p: Path, child: Path)
    requires p in keys && |child| == |p| + 1
    ensures Measure(keys, child) < Measure(keys, p)
  {
    var deeper := set q | q in keys && |q| >= |child|;
    var atLeast := set q | q in keys && |q| >= |p|;
    assert deeper <= atLeast - {p};
    SubsetNoLarger(deeper, atLeast - {p});
  }

  lemma {:induction false} SubsetNoLarger<T>(a: set<T>, b: set<T>)
    requires a <= b
    ensures |a| <= |b|
    decreases |b|
  {
    if a != {} {
      var x :| x in a;
      SubsetNoLarger(a - {x}, b - {x});
    }
  }

  /**
   * `changeAllFilesPermissions`: change the entry, then, for a directory,
   * each child in listing order. A failing child ends the loop, yet no error
   * is reported for it: only a failed `Lstat` of `path` itself or a failed
   * read of its listing is.
   */
  function Walk(t: Tree, refusals: Refusals, path: Path, fsGroup: int, readonly: bool): (r: (Tree, Option<FsError>))
    ensures r.0.Keys == t.Keys
    decreases Measure(t.Keys, path), 1, 0
  {
    if path !in t then (t, Some(LstatFailed(path)))
    else
      var t1 := ChangedFile(t, refusals, path, fsGroup, readonly);
      if !IsDir(t[path].mode) then (t1, None)
      else match ReadDirNames(t1, path)
        case Failure(e) => (t1, Some(e))
        case Success(names) => (WalkChildren(t1, refusals, path, names, fsGroup, readonly).0, None)
  }

  /** The loop over a directory's children; the flag says whether a child failed and ended it. */
  function WalkChildren(t: Tree, refusals: Refusals, path: Path, names: seq<string>, fsGroup: int, readonly: bool)
    : (r: (Tree, bool))
    requires path in t
    ensures r.0.Keys == t.Keys
    decreases Measure(t.Keys, path), 0, |names|
  {
    if names == [] then (t, false)
    else
      MeasureDrops(t.Keys, path, path + [names[0]]);
      var (t1, err1) := Walk(t, refusals, path + [names[0]], fsGroup, readonly);
      if err1.Some? then (t1, true)
      else WalkChildren(t1, refusals, path, names[1..], fsGroup, readonly)
  }

  /**
   * `SetVolumeOwnership`: nothing without an fsGroup or when the check says
   * the root is already right; otherwise read the root, walk each child, and
   * change the root last, unless a child failed, which ends the whole step
   * with no error and the root unchanged.
   */
  function Ownership(t: Tree, refusals: Refusals, rootDir: Path, fsGroup: Option<int>, readonly: bool,
                     configurableFSGroupPermissions: bool, policy: Option<FSGroupChangePolicy>): (r: (Tree, Option<FsError>))
    ensures r.0.Keys == t.Keys
  {
    if fsGroup.None? then (t, None)
    else if SkipPermissionChange(t, rootDir, fsGroup.value, readonly, configurableFSGroupPermissions, policy) then (t, None)
    else match ReadDirNames(t, rootDir)
      case Failure(e) => (t, Some(e))
      case Success(names) =>
        var (t1, stopped) := WalkChildren(t, refusals, rootDir, names, fsGroup.value, readonly);
        if stopped then (t1, None)
        else (ChangedFile(t1, refusals, rootDir, fsGroup.value, readonly), None)
  }

  // ---------------------------------------------------------------------------
  // What the walk does to the tree

  /**
   * What the walk may do to one entry: hand it to the group and give it the
   * new mode, nothing else; symlinks and entries without a `Stat_t` are left
   * as they were.
   */
  predicate Grown(before: Inode, after: Inode, fsGroup: int, readonly: bool)
  {
    && after.uid == before.uid
    && after.hasStat == before.hasStat
    && after.listing == before.listing
    && (after.gid == before.gid || after.gid == fsGroup)
    && (after.mode == before.mode || after.mode == NewMode(before.mode, readonly))
    && (IsSymlink(before.mode) || !before.hasStat ==> after == before)
  }

  /** Every entry of `t` has grown into its counterpart in `t'`, and no path was added or lost. */
  predicate GrownTree(t: Tree, t': Tree, fsGroup: int, readonly: bool)
  {
    t'.Keys == t.Keys && forall q :: q in t ==> Grown(t[q], t'[q], fsGroup, readonly)
  }

  /** Only the entries at or below `path` differ (with `strict`, only those strictly below). */
  predicate ConfinedTo(t: Tree, t': Tree, path: Path, strict: bool)
  {
    forall q :: q in t && q in t' && (!(path <= q) || (strict && q == path)) ==> t'[q] == t[q]
  }

  lemma GrownTrans(a: Inode, b: Inode, c: Inode, fsGroup: int, readonly: bool)
    requires Grown(a, b, fsGroup, readonly) && Grown(b, c, fsGroup, readonly)
    ensures Grown(a, c, fsGroup, readonly)
  {
    NewModeIdempotent(a.mode, readonly);
  }

  lemma GrownTreeTrans(t1: Tree, t2: Tree, t3: Tree, fsGroup: int, readonly: bool)
    requires GrownTree(t1, t2, fsGroup, readonly) && GrownTree(t2, t3, fsGroup, readonly)
    ensures GrownTree(t1, t3, fsGroup, readonly)
  {
    forall q | q in t1
      ensures Grown(t1[q], t3[q], fsGroup, readonly)
    {
      GrownTrans(t1[q], t2[q], t3[q], fsGroup, readonly);
    }
  }

  /** `changeFilePermission` changes at most its own entry, and that one only as `Grown` allows. */
  lemma ChangedFileGrows(t: Tree, refusals: Refusals, path: Path, fsGroup: int, readonly: bool)
    requires path in t
    ensures GrownTree(t, ChangedFile(t, refusals, path, fsGroup, readonly), fsGroup, readonly)
    ensures forall q :: q in t && q != path ==> ChangedFile(t, refusals, path, fsGroup, readonly)[q] == t[q]
  {
  }

  /**
   * The walk from `path` hands `path` itself to the group and adds the mask
   * (when chown and chmod succeed on it), only grows entries, and only those
   * at or below `path`.
   */
  lemma {:induction false} WalkGrows(t: Tree, refusals: Refusals, path: Path, fsGroup: int, readonly: bool)
    ensures Changeable(t, refusals, path) ==>
              Walk(t, refusals, path, fsGroup, readonly).0[path] == Owned(t[path], fsGroup, readonly)
    ensures path in t && !IsDir(t[path].mode) ==>
              Walk(t, refusals, path, fsGroup, readonly) == (ChangedFile(t, refusals, path, fsGroup, readonly), None)
    ensures GrownTree(t, Walk(t, refusals, path, fsGroup, readonly).0, fsGroup, readonly)
    ensures ConfinedTo(t, Walk(t, refusals, path, fsGroup, readonly).0, path, false)
    decreases Measure(t.Keys, path), 1, 0
  {
    if path in t {
      var t1 := ChangedFile(t, refusals, path, fsGroup, readonly);
      ChangedFileGrows(t, refusals, path, fsGroup, readonly);
      if IsDir(t[path].mode) && ReadDirNames(t1, path).Success? {
        var names := ReadDirNames(t1, path).value;
        WalkChildrenGrows(t1, refusals, path, names, fsGroup, readonly);
        GrownTreeTrans(t, t1, WalkChildren(t1, refusals, path, names, fsGroup, readonly).0, fsGroup, readonly);
      }
    }
  }

  /** The loop over the children only grows entries, and only those strictly below `path`. */
  lemma {:induction false} WalkChildrenGrows(t: Tree, refusals: Refusals, path: Path, names: seq<string>,
                                             fsGroup: int, readonly: bool)
    requires path in t
    ensures GrownTree(t, WalkChildren(t, refusals, path, names, fsGroup, readonly).0, fsGroup, readonly)
    ensures ConfinedTo(t, WalkChildren(t, refusals, path, names, fsGroup, readonly).0, path, true)
    decreases Measure(t.Keys, path), 0, |names|
  {
    if names != [] {
      var child := path + [names[0]];
      MeasureDrops(t.Keys, path, child);
      WalkGrows(t, refusals, child, fsGroup, readonly);
      var t1 := Walk(t, refusals, child, fsGroup, readonly).0;
      assert ConfinedTo(t, t1, path, true) by {
        forall q | q in t && q in t1 && (!(path <= q) || q == path)
          ensures t1[q] == t[q]
        {
          ChildPrefix(path, names[0], q);
        }
      }
      if Walk(t, refusals, child, fsGroup, readonly).1.None? {
        WalkChildrenGrows(t1, refusals, path, names[1..], fsGroup, readonly);
        GrownTreeTrans(t, t1, WalkChildren(t1, refusals, path, names[1..], fsGroup, readonly).0, fsGroup, readonly);
      }
    }
  }

  lemma ChildPrefix(path: Path, name: string, q: Path)
    ensures path + [name] <= q ==> path <= q && q != path
  {
    if path + [name] <= q {
      assert q[..|path|] == (path + [name])[..|path|] == path;
    }
  }

  /**
   * The walk reports an error exactly when `Lstat` of `path` fails or `path`
   * is a directory whose listing cannot be read; what happens below `path`
   * is never reported.
   */
  lemma WalkError(t: Tree, refusals: Refusals, path: Path, fsGroup: int, readonly: bool)
    ensures var err := Walk(t, refusals, path, fsGroup, readonly).1;
            && (path !in t <==> err == Some(LstatFailed(path)))
            && (err.Some? <==> path !in t || (IsDir(t[path].mode) && t[path].listing.Failure?))
            && (path in t && err.Some? ==> err == Some(ReadDirFailed(path, t[path].listing.error)))
  {
    if path in t {
      var t1 := ChangedFile(t, refusals, path, fsGroup, readonly);
      ChangedFileGrows(t, refusals, path, fsGroup, readonly);
      assert t1[path].listing == t[path].listing;
    }
  }

  /**
   * `SetVolumeOwnership` as a whole: nothing without an fsGroup or when the
   * root check skips the walk; an error only when the root's listing cannot
   * be read; otherwise the entries under the root have grown and nothing
   * outside it has changed.
   */
  lemma OwnershipSpec(t: Tree, refusals: Refusals, rootDir: Path, fsGroup: Option<int>, readonly: bool,
                      configurableFSGroupPermissions: bool, policy: Option<FSGroupChangePolicy>)
    ensures fsGroup.None? ==> Ownership(t, refusals, rootDir, fsGroup, readonly, configurableFSGroupPermissions, policy) == (t, None)
    ensures fsGroup.Some? && SkipPermissionChange(t, rootDir, fsGroup.value, readonly, configurableFSGroupPermissions, policy) ==>
              Ownership(t, refusals, rootDir, fsGroup, readonly, configurableFSGroupPermissions, policy) == (t, None)
    ensures Ownership(t, refusals, rootDir, fsGroup, readonly, configurableFSGroupPermissions, policy).1.Some? <==>
              && fsGroup.Some?
              && !SkipPermissionChange(t, rootDir, fsGroup.value, readonly, configurableFSGroupPermissions, policy)
              && ReadDirNames(t, rootDir).Failure?
    ensures fsGroup.Some? ==>
              GrownTree(t, Ownership(t, refusals, rootDir, fsGroup, readonly, configurableFSGroupPermissions, policy).0,
                        fsGroup.value, readonly)
    ensures ConfinedTo(t, Ownership(t, refusals, rootDir, fsGroup, readonly, configurableFSGroupPermissions, policy).0,
                       rootDir, false)
  {
    if fsGroup.Some? && !SkipPermissionChange(t, rootDir, fsGroup.value, readonly, configurableFSGroupPermissions, policy)
       && ReadDirNames(t, rootDir).Success?
    {
      var names := ReadDirNames(t, rootDir).value;
      WalkChildrenGrows(t, refusals, rootDir, names, fsGroup.value, readonly);
      var (t1, stopped) := WalkChildren(t, refusals, rootDir, names, fsGroup.value, readonly);
      if !stopped {
        ChangedFileGrows(t1, refusals, rootDir, fsGroup.value, readonly);
        GrownTreeTrans(t, t1, ChangedFile(t1, refusals, rootDir, fsGroup.value, readonly), fsGroup.value, readonly);
      }
    }
  }

  /**
   * After a complete walk of a root directory that chown and chmod accept,
   * the root check passes exactly when the root had no permission bits
   * beyond the ones it asks for: a root with more is walked again on every
   * call, whatever the policy.
   */
  lemma OwnershipSettlesRoot(t: Tree, refusals: Refusals, rootDir: Path, fsGroup: int, readonly: bool,
                             configurableFSGroupPermissions: bool, policy: Option<FSGroupChangePolicy>)
    requires !SkipPermissionChange(t, rootDir, fsGroup, readonly, configurableFSGroupPermissions, policy)
    requires ReadDirNames(t, rootDir).Success?
    requires !WalkChildren(t, refusals, rootDir, ReadDirNames(t, rootDir).value, fsGroup, readonly).1
    requires IsDir(t[rootDir].mode) && !IsSymlink(t[rootDir].mode) && t[rootDir].hasStat
    requires rootDir !in refusals.chown && rootDir !in refusals.chmod
    ensures var t' := Ownership(t, refusals, rootDir, Some(fsGroup), readonly, configurableFSGroupPermissions, policy).0;
            !RequiresPermissionChange(t', rootDir, fsGroup, readonly) <==>
            Perm(t[rootDir].mode) <= (if readonly then roMask else rwMask) + execMask
  {
    var names := ReadDirNames(t, rootDir).value;
    WalkChildrenGrows(t, refusals, rootDir, names, fsGroup, readonly);
    var t1 := WalkChildren(t, refusals, rootDir, names, fsGroup, readonly).0;
    assert t1[rootDir] == t[rootDir];
    var mode := t[rootDir].mode;
    var wanted := (if readonly then roMask else rwMask) + execMask;
    NewModeAdds(mode, readonly);
    var t2 := ChangedFile(t1, refusals, rootDir, fsGroup, readonly);
    assert t2[rootDir] == t[rootDir].(gid := fsGroup, mode := NewMode(mode, readonly));
    assert Ownership(t, refusals, rootDir, Some(fsGroup), readonly, configurableFSGroupPermissions, policy).0 == t2;
    if Perm(mode) <= wanted {
      NewModeOfDirectory(mode, readonly);
    } else {
      assert Perm(mode) <= Perm(NewMode(mode, readonly));
    }
  }

  // ---------------------------------------------------------------------------
  // What the walk does to the entries it visits

  /** An entry as `changeFilePermission` leaves it when chown and chmod succeed: in the group, with the mask added. */
  function Owned(info: Inode, fsGroup: int, readonly: bool): Inode
  {
    info.(gid := fsGroup, mode := NewMode(info.mode, readonly))
  }

  /** An entry that `changeFilePermission` changes, and on which chown and chmod succeed. */
  predicate Changeable(t: Tree, refusals: Refusals, path: Path)
  {
    && path in t && !IsSymlink(t[path].mode) && t[path].hasStat
    && path !in refusals.chown && path !in refusals.chmod
  }

  /** An owned entry stays as it is under any later growth. */
  lemma OwnedStays(info: Inode, after: Inode, fsGroup: int, readonly: bool)
    requires Grown(Owned(info, fsGroup, readonly), after, fsGroup, readonly)
    ensures after == Owned(info, fsGroup, readonly)
  {
    NewModeIdempotent(info.mode, readonly);
  }

  /** Owning a grown entry gives what owning the original gives. */
  lemma OwnedOfGrown(before: Inode, after: Inode, fsGroup: int, readonly: bool)
    requires Grown(before, after, fsGroup, readonly)
    ensures Owned(after, fsGroup, readonly) == Owned(before, fsGroup, readonly)
  {
    NewModeIdempotent(before.mode, readonly);
  }

  lemma ChangeableOfGrown(t: Tree, t': Tree, refusals: Refusals, path: Path, fsGroup: int, readonly: bool)
    requires GrownTree(t, t', fsGroup, readonly) && Changeable(t, refusals, path)
    ensures Changeable(t', refusals, path)
  {
    NewModeAdds(t[path].mode, readonly);
  }

  /** A loop over the children that no child ends hands every listed child to the group. */
  lemma {:induction false} WalkChildrenOwns(t: Tree, refusals: Refusals, path: Path, names: seq<string>,
                                            fsGroup: int, readonly: bool)
    requires path in t
    requires !WalkChildren(t, refusals, path, names, fsGroup, readonly).1
    ensures forall k | 0 <= k < |names| && Changeable(t, refusals, path + [names[k]]) ::
              WalkChildren(t, refusals, path, names, fsGroup, readonly).0[path + [names[k]]] ==
              Owned(t[path + [names[k]]], fsGroup, readonly)
    decreases |names|
  {
    if names != [] {
      var child := path + [names[0]];
      var rest := names[1..];
      var t1 := Walk(t, refusals, child, fsGroup, readonly).0;
      var r := WalkChildren(t1, refusals, path, rest, fsGroup, readonly).0;
      assert r == WalkChildren(t, refusals, path, names, fsGroup, readonly).0;
      WalkGrows(t, refusals, child, fsGroup, readonly);
      WalkChildrenGrows(t1, refusals, path, rest, fsGroup, readonly);
      WalkChildrenOwns(t1, refusals, path, rest, fsGroup, readonly);
      forall k | 0 <= k < |names| && Changeable(t, refusals, path + [names[k]])
        ensures r[path + [names[k]]] == Owned(t[path + [names[k]]], fsGroup, readonly)
      {
        var c := path + [names[k]];
        if k == 0 {
          OwnedStays(t[c], r[c], fsGroup, readonly);
        } else {
          assert names[k] == rest[k - 1];
          ChangeableOfGrown(t, t1, refusals, c, fsGroup, readonly);
          OwnedOfGrown(t[c], t1[c], fsGroup, readonly);
        }
      }
    }
  }

  /**
   * `SetVolumeOwnership` with a walk that no child ends: the root and each of
   * its listed children are handed to the group with the mask added.
   */
  lemma OwnershipOwns(t: Tree, refusals: Refusals, rootDir: Path, fsGroup: int, readonly: bool,
                      configurableFSGroupPermissions: bool, policy: Option<FSGroupChangePolicy>)
    requires !SkipPermissionChange(t, rootDir, fsGroup, readonly, configurableFSGroupPermissions, policy)
    requires ReadDirNames(t, rootDir).Success?
    requires !WalkChildren(t, refusals, rootDir, ReadDirNames(t, rootDir).value, fsGroup, readonly).1
    ensures var t' := Ownership(t, refusals, rootDir, Some(fsGroup), readonly, configurableFSGroupPermissions, policy).0;
            Changeable(t, refusals, rootDir) ==> t'[rootDir] == Owned(t[rootDir], fsGroup, readonly)
    ensures var t' := Ownership(t, refusals, rootDir, Some(fsGroup), readonly, configurableFSGroupPermissions, policy).0;
            var names := ReadDirNames(t, rootDir).value;
            forall k | 0 <= k < |names| && Changeable(t, refusals, rootDir + [names[k]]) ::
              t'[rootDir + [names[k]]] == Owned(t[rootDir + [names[k]]], fsGroup, readonly)
  {
    var names := ReadDirNames(t, rootDir).value;
    WalkChildrenGrows(t, refusals, rootDir, names, fsGroup, readonly);
    WalkChildrenOwns(t, refusals, rootDir, names, fsGroup, readonly);
    var t1 := WalkChildren(t, refusals, rootDir, names, fsGroup, readonly).0;
    ChangedFileGrows(t1, refusals, rootDir, fsGroup, readonly);
    forall k | 0 <= k < |names|
      ensures rootDir + [names[k]] != rootDir
    {
      assert |rootDir + [names[k]]| == |rootDir| + 1;
    }
  }

  // ---------------------------------------------------------------------------
  // Where a failing child stops the walk

  /** Walking the children `a + b` walks `a`, then, unless a child of `a` stopped the loop, `b`. */
  lemma {:induction false} WalkChildrenAppend(t: Tree, refusals: Refusals, path: Path, a: seq<string>, b: seq<string>,
                                              fsGroup: int, readonly: bool)
    requires path in t
    ensures var (ta, stopped) := WalkChildren(t, refusals, path, a, fsGroup, readonly);
            WalkChildren(t, refusals, path, a + b, fsGroup, readonly) ==
            if stopped then (ta, true) else WalkChildren(ta, refusals, path, b, fsGroup, readonly)
    decreases |a|
  {
    if a == [] {
      assert a + b == b;
    } else {
      assert (a + b)[0] == a[0] && (a + b)[1..] == a[1..] + b;
      var t1 := Walk(t, refusals, path + [a[0]], fsGroup, readonly).0;
      WalkChildrenAppend(t1, refusals, path, a[1..], b, fsGroup, readonly);
    }
  }

  /**
   * When the children before `names[k]` all succeed and the walk of
   * `names[k]` fails, the loop ends there: the tree is the one that walk left
   * and no later child is visited.
   */
  lemma WalkChildrenStopsAt(t: Tree, refusals: Refusals, path: Path, names: seq<string>, k: int,
                            fsGroup: int, readonly: bool)
    requires path in t && 0 <= k < |names|
    requires !WalkChildren(t, refusals, path, names[..k], fsGroup, readonly).1
    requires Walk(WalkChildren(t, refusals, path, names[..k], fsGroup, readonly).0,
                  refusals, path + [names[k]], fsGroup, readonly).1.Some?
    ensures WalkChildren(t, refusals, path, names, fsGroup, readonly) ==
            (Walk(WalkChildren(t, refusals, path, names[..k], fsGroup, readonly).0,
                  refusals, path + [names[k]], fsGroup, readonly).0, true)
  {
    assert names == names[..k] + names[k..];
    WalkChildrenAppend(t, refusals, path, names[..k], names[k..], fsGroup, readonly);
    assert names[k..][0] == names[k];
  }

  /** A child that stops `SetVolumeOwnership`'s loop leaves the root unchanged, and no error is returned. */
  lemma OwnershipStopLeavesRoot(t: Tree, refusals: Refusals, rootDir: Path, fsGroup: int, readonly: bool,
                                configurableFSGroupPermissions: bool, policy: Option<FSGroupChangePolicy>)
    requires !SkipPermissionChange(t, rootDir, fsGroup, readonly, configurableFSGroupPermissions, policy)
    requires ReadDirNames(t, rootDir).Success?
    requires WalkChildren(t, refusals, rootDir, ReadDirNames(t, rootDir).value, fsGroup, readonly).1
    ensures Ownership(t, refusals, rootDir, Some(fsGroup), readonly, configurableFSGroupPermissions, policy).1.None?
    ensures Ownership(t, refusals, rootDir, Some(fsGroup), readonly, configurableFSGroupPermissions, policy).0[rootDir]
            == t[rootDir]
  {
    WalkChildrenGrows(t, refusals, rootDir, ReadDirNames(t, rootDir).value, fsGroup, readonly);
  }

  // ---------------------------------------------------------------------------
  // Ownership of the whole volume

  /**
   * `q` is reached from `path` through directory listings: each step below
   * `path` is a directory whose listing can be read and names the next
   * component.
   */
  ghost predicate Visited(t: Tree, path: Path, q: Path)
  {
    && path <= q
    && forall i | |path| <= i < |q| ::
         && q[..i] in t && IsDir(t[q[..i]].mode) && t[q[..i]].listing.Success?
         && q[i] in t[q[..i]].listing.value
  }

  /** Every entry reached from `path` exists, and each directory among them can be listed: nothing on the way fails. */
  ghost predicate Sound(t: Tree, path: Path)
  {
    forall q | Visited(t, path, q) :: q in t && (IsDir(t[q].mode) ==> t[q].listing.Success?)
  }

  /** Same paths, and every entry keeps its directory bit and its listing. */
  ghost predicate SameShape(t: Tree, t': Tree)
  {
    && t'.Keys == t.Keys
    && forall q | q in t :: IsDir(t'[q].mode) == IsDir(t[q].mode) && t'[q].listing == t[q].listing
  }

  lemma GrownSameShape(t: Tree, t': Tree, fsGroup: int, readonly: bool)
    requires GrownTree(t, t', fsGroup, readonly)
    ensures SameShape(t, t')
  {
    forall q | q in t
      ensures IsDir(t'[q].mode) == IsDir(t[q].mode)
    {
      NewModeAdds(t[q].mode, readonly);
    }
  }

  lemma VisitedSameShape(t: Tree, t': Tree, path: Path, q: Path)
    requires SameShape(t, t')
    ensures Visited(t', path, q) == Visited(t, path, q)
  {
  }

  lemma SoundSameShape(t: Tree, t': Tree, path: Path)
    requires SameShape(t, t') && Sound(t, path)
    ensures Sound(t', path)
  {
    forall q | Visited(t', path, q)
      ensures q in t' && (IsDir(t'[q].mode) ==> t'[q].listing.Success?)
    {
      VisitedSameShape(t, t', path, q);
    }
  }

  /** What is reached from a listed child is reached from its directory. */
  lemma VisitedChild(t: Tree, path: Path, name: string, q: Path)
    requires path in t && IsDir(t[path].mode) && t[path].listing.Success? && name in t[path].listing.value
    requires Visited(t, path + [name], q)
    ensures Visited(t, path, q)
  {
    ChildPrefix(path, name, q);
    forall i | |path| <= i < |q|
      ensures q[..i] in t && IsDir(t[q[..i]].mode) && t[q[..i]].listing.Success? && q[i] in t[q[..i]].listing.value
    {
      if i == |path| {
        assert q[..i] == path;
        assert q[i] == (path + [name])[i] == name;
      }
    }
  }

  /** Anything reached below `path` is reached through one of its listed children. */
  lemma VisitedSplit(t: Tree, path: Path, q: Path)
    requires Visited(t, path, q) && q != path
    ensures path in t && IsDir(t[path].mode) && t[path].listing.Success?
    ensures q[|path|] in t[path].listing.value
    ensures Visited(t, path + [q[|path|]], q)
  {
    assert q[..|path|] == path;
    assert q[..|path| + 1] == path + [q[|path|]];
  }

  /** Nothing but `path` itself is reached from an entry that is not a directory. */
  lemma VisitedLeaf(t: Tree, path: Path, q: Path)
    requires path in t
    ensures Visited(t, path, q) && !IsDir(t[path].mode) ==> q == path
  {
    if Visited(t, path, q) && q != path {
      VisitedSplit(t, path, q);
    }
  }

  lemma SoundChild(t: Tree, path: Path, name: string)
    requires Sound(t, path)
    requires path in t && IsDir(t[path].mode) && t[path].listing.Success? && name in t[path].listing.value
    ensures Sound(t, path + [name])
  {
    forall q | Visited(t, path + [name], q)
      ensures Visited(t, path, q)
    {
      VisitedChild(t, path, name, q);
    }
  }

  /**
   * When nothing below `path` fails, the walk reports no error and hands
   * every entry it reaches, at any depth, to the group with the mask added
   * (where chown and chmod succeed).
   */
  lemma {:induction false} WalkOwnsVisited(t: Tree, refusals: Refusals, path: Path, fsGroup: int, readonly: bool)
    requires Sound(t, path)
    ensures Walk(t, refusals, path, fsGroup, readonly).1.None?
    ensures forall q | Visited(t, path, q) && Changeable(t, refusals, q) ::
              Walk(t, refusals, path, fsGroup, readonly).0[q] == Owned(t[q], fsGroup, readonly)
    decreases Measure(t.Keys, path), 1
  {
    assert Visited(t, path, path);
    WalkGrows(t, refusals, path, fsGroup, readonly);
    var r := Walk(t, refusals, path, fsGroup, readonly).0;
    if !IsDir(t[path].mode) {
      forall q | Visited(t, path, q) && Changeable(t, refusals, q)
        ensures r[q] == Owned(t[q], fsGroup, readonly)
      {
        VisitedLeaf(t, path, q);
      }
    } else {
      var t1 := ChangedFile(t, refusals, path, fsGroup, readonly);
      ChangedFileGrows(t, refusals, path, fsGroup, readonly);
      GrownSameShape(t, t1, fsGroup, readonly);
      var names := t[path].listing.value;
      assert ReadDirNames(t1, path) == Success(names);
      forall k | 0 <= k < |names|
        ensures Sound(t1, path + [names[k]])
      {
        SoundChild(t, path, names[k]);
        SoundSameShape(t, t1, path + [names[k]]);
      }
      WalkChildrenOwnsVisited(t1, refusals, path, names, fsGroup, readonly);
      assert r == WalkChildren(t1, refusals, path, names, fsGroup, readonly).0;
      forall q | Visited(t, path, q) && Changeable(t, refusals, q)
        ensures r[q] == Owned(t[q], fsGroup, readonly)
      {
        if q != path {
          VisitedSplit(t, path, q);
          var k :| 0 <= k < |names| && names[k] == q[|path|];
          VisitedSameShape(t, t1, path + [names[k]], q);
          ChangeableOfGrown(t, t1, refusals, q, fsGroup, readonly);
          OwnedOfGrown(t[q], t1[q], fsGroup, readonly);
        }
      }
    }
  }

  /** The children loop, when nothing below any child fails: it runs to the end and owns all it reaches. */
  lemma {:induction false} WalkChildrenOwnsVisited(t: Tree, refusals: Refusals, path: Path, names: seq<string>,
                                                   fsGroup: int, readonly: bool)
    requires path in t
    requires forall k | 0 <= k < |names| :: Sound(t, path + [names[k]])
    ensures !WalkChildren(t, refusals, path, names, fsGroup, readonly).1
    ensures forall k, q | 0 <= k < |names| && Visited(t, path + [names[k]], q) && Changeable(t, refusals, q) ::
              WalkChildren(t, refusals, path, names, fsGroup, readonly).0[q] == Owned(t[q], fsGroup, readonly)
    decreases Measure(t.Keys, path), 0, |names|
  {
    if names != [] {
      var child := path + [names[0]];
      var rest := names[1..];
      MeasureDrops(t.Keys, path, child);
      WalkOwnsVisited(t, refusals, child, fsGroup, readonly);
      WalkGrows(t, refusals, child, fsGroup, readonly);
      var t1 := Walk(t, refusals, child, fsGroup, readonly).0;
      GrownSameShape(t, t1, fsGroup, readonly);
      forall k | 0 <= k < |rest|
        ensures Sound(t1, path + [rest[k]])
      {
        assert rest[k] == names[k + 1];
        SoundSameShape(t, t1, path + [rest[k]]);
      }
      WalkChildrenOwnsVisited(t1, refusals, path, rest, fsGroup, readonly);
      WalkChildrenGrows(t1, refusals, path, rest, fsGroup, readonly);
      var r := WalkChildren(t1, refusals, path, rest, fsGroup, readonly).0;
      assert r == WalkChildren(t, refusals, path, names, fsGroup, readonly).0;
      forall k, q | 0 <= k < |names| && Visited(t, path + [names[k]], q) && Changeable(t, refusals, q)
        ensures r[q] == Owned(t[q], fsGroup, readonly)
      {
        if k == 0 {
          OwnedStays(t[q], r[q], fsGroup, readonly);
        } else {
          assert names[k] == rest[k - 1];
          VisitedSameShape(t, t1, path + [names[k]], q);
          ChangeableOfGrown(t, t1, refusals, q, fsGroup, readonly);
          OwnedOfGrown(t[q], t1[q], fsGroup, readonly);
        }
      }
    }
  }

  /**
   * `SetVolumeOwnership` on a root directory below which nothing fails: no
   * error, and every entry of the volume reached through the listings, the
   * root included, is owned by the group with the mask added (where chown
   * and chmod succeed).
   */
  lemma OwnershipOwnsVolume(t: Tree, refusals: Refusals, rootDir: Path, fsGroup: int, readonly: bool,
                            configurableFSGroupPermissions: bool, policy: Option<FSGroupChangePolicy>)
    requires !SkipPermissionChange(t, rootDir, fsGroup, readonly, configurableFSGroupPermissions, policy)
    requires Sound(t, rootDir) && rootDir in t && IsDir(t[rootDir].mode)
    ensures Ownership(t, refusals, rootDir, Some(fsGroup), readonly, configurableFSGroupPermissions, policy).1.None?
    ensures forall q | Visited(t, rootDir, q) && Changeable(t, refusals, q) ::
              Ownership(t, refusals, rootDir, Some(fsGroup), readonly, configurableFSGroupPermissions, policy).0[q]
              == Owned(t[q], fsGroup, readonly)
  {
    assert Visited(t, rootDir, rootDir);
    var names := t[rootDir].listing.value;
    assert ReadDirNames(t, rootDir) == Success(names);
    forall k | 0 <= k < |names|
      ensures Sound(t, rootDir + [names[k]])
    {
      SoundChild(t, rootDir, names[k]);
    }
    WalkChildrenOwnsVisited(t, refusals, rootDir, names, fsGroup, readonly);
    WalkChildrenGrows(t, refusals, rootDir, names, fsGroup, readonly);
    var t1 := WalkChildren(t, refusals, rootDir, names, fsGroup, readonly).0;
    ChangedFileGrows(t1, refusals, rootDir, fsGroup, readonly);
    var r := Ownership(t, refusals, rootDir, Some(fsGroup), readonly, configurableFSGroupPermissions, policy).0;
    assert r == ChangedFile(t1, refusals, rootDir, fsGroup, readonly);
    forall q | Visited(t, rootDir, q) && Changeable(t, refusals, q)
      ensures r[q] == Owned(t[q], fsGroup, readonly)
    {
      if q != rootDir {
        VisitedSplit(t, rootDir, q);
        var k :| 0 <= k < |names| && names[k] == q[|rootDir|];
      }
    }
  }

  // ---------------------------------------------------------------------------
  // The walk over the file system object

  class FileSystem {
    var entries: Tree
    const refusals: Refusals

    constructor (entries: Tree, refusals: Refusals)
      ensures this.entries == entries && this.refusals == refusals
    {
      this.entries := entries;
      this.refusals := refusals;
    }

    /**
     * `changeFilePermission`: `Lstat` the entry; leave symlinks and entries
     * without a `Stat_t` alone; otherwise chown to the group (keeping the
     * owner) and chmod to the old mode plus the mask, a failure of either
     * being only logged. Returns what `Lstat` saw.
     */
    method ChangeFilePermission(filename: Path, fsGroup: int, readonly: bool)
      returns (info: Option<Inode>, err: Option<FsError>)
      modifies this
      ensures filename !in old(entries) ==>
                entries == old(entries) && info.None? && err == Some(LstatFailed(filename))
      ensures filename in old(entries) ==>
                && entries == ChangedFile(old(entries), refusals, filename, fsGroup, readonly)
                && info == Some(old(entries)[filename]) && err.None?
    {
      if filename !in entries {
        return None, Some(LstatFailed(filename));
      }
      var stat := entries[filename];
      info, err := Some(stat), None;
      if IsSymlink(stat.mode) {
        return;
      }
      if !stat.hasStat {
        return;
      }
      var gid := stat.gid;
      if filename !in refusals.chown {
        gid := fsGroup;
      }
      var mode := stat.mode;
      if filename !in refusals.chmod {
        mode := NewMode(stat.mode, readonly);
      }
      var changed := stat.(gid := gid, mode := mode);
      entries := entries[filename := changed];
    }

    /** `changeAllFilesPermissions`, proved to do what `Walk` describes. */
    method ChangeAllFilesPermissions(path: Path, fsGroup: int, readonly: bool) returns (err: Option<FsError>)
      modifies this
      ensures (entries, err) == Walk(old(entries), refusals, path, fsGroup, readonly)
      decreases Measure(entries.Keys, path), 1
    {
      var fsInfo;
      fsInfo, err := ChangeFilePermission(path, fsGroup, readonly);
      if err.Some? {
        return;
      }
      if !IsDir(fsInfo.value.mode) {
        return None;
      }
      var names := ReadDirNames(entries, path);
      if names.Failure? {
        return Some(names.error);
      }
      var stopped := ChangeChildren(path, names.value, fsGroup, readonly);
      return None;
    }

    /**
     * The loop over a directory's children: a child's failure ends it, and
     * the caller still reports no error.
     */
    method ChangeChildren(path: Path, names: seq<string>, fsGroup: int, readonly: bool) returns (stopped: bool)
      requires path in entries
      modifies this
      ensures (entries, stopped) == WalkChildren(old(entries), refusals, path, names, fsGroup, readonly)
      decreases Measure(entries.Keys, path), 0
    {
      ghost var t0 := entries;
      for i := 0 to |names|
        invariant entries.Keys == t0.Keys
        invariant WalkChildren(entries, refusals, path, names[i..], fsGroup, readonly) ==
                  WalkChildren(t0, refusals, path, names, fsGroup, readonly)
      {
        var filename := path + [names[i]];
        MeasureDrops(entries.Keys, path, filename);
        var err1 := ChangeAllFilesPermissions(filename, fsGroup, readonly);
        assert names[i..][0] == names[i] && names[i..][1..] == names[i + 1..];
        if err1.Some? {
          return true;
        }
      }
      return false;
    }

    /** `SetVolumeOwnership`, proved to do what `Ownership` describes. */
    method SetVolumeOwnership(rootDir: Path, fsGroup: Option<int>, readonly: bool,
                              configurableFSGroupPermissions: bool, policy: Option<FSGroupChangePolicy>)
      returns (err: Option<FsError>)
      modifies this
      ensures (entries, err) ==
              Ownership(old(entries), refusals, rootDir, fsGroup, readonly, configurableFSGroupPermissions, policy)
    {
      if fsGroup.None? {
        return None;
      }
      if SkipPermissionChange(entries, rootDir, fsGroup.value, readonly, configurableFSGroupPermissions, policy) {
        return None;
      }
      var names := ReadDirNames(entries, rootDir);
      if names.Failure? {
        return Some(names.error);
      }
      var stopped := ChangeChildren(rootDir, names.value, fsGroup.value, readonly);
      if stopped {
        return None;
      }
      var _, err' := ChangeFilePermission(rootDir, fsGroup.value, readonly);
      return err';
    }
  }
}
