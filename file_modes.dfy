/**
 * Go's `os.FileMode` and the mask `changeFilePermission` adds to it. A mode
 * is a 32-bit word; it is represented here by the set of the positions of
 * its one bits, so that `|` is union, `&` is intersection and `x & y != 0`
 * says the two words share a bit.
 */
module FileModes {
  type Bit = i: int | 0 <= i < 32

  type FileMode = set<Bit>

  const ModeDir: FileMode := {31}       // 1 << 31
  const ModeSymlink: FileMode := {27}   // 1 << 27
  const ModeSetgid: FileMode := {22}    // 1 << 22
  const ModePerm: FileMode := {8, 7, 6, 5, 4, 3, 2, 1, 0}  // 0777

  const rwMask: FileMode := {8, 7, 5, 4}  // 0660
  const roMask: FileMode := {8, 5}        // 0440
  const execMask: FileMode := {6, 3}      // 0110

  predicate IsDir(mode: FileMode) { mode * ModeDir != {} }
  predicate IsSymlink(mode: FileMode) { mode * ModeSymlink != {} }
  predicate HasSetgid(mode: FileMode) { mode * ModeSetgid != {} }

  function Perm(mode: FileMode): FileMode { mode * ModePerm }

  /** The bits `changeFilePermission` adds: rw (or ro) for owner and group, and setgid and exec on directories. */
  function Mask(isDir: bool, readonly: bool): FileMode
  {
    var mask := if readonly then roMask else rwMask;
    if isDir then mask + ModeSetgid + execMask else mask
  }

  /** The mode `changeFilePermission` asks chmod for: the old mode with the mask added. */
  function NewMode(mode: FileMode, readonly: bool): FileMode
  {
    mode + Mask(IsDir(mode), readonly)
  }

  /** The mask is all permission bits and setgid: never a type bit. */
  lemma MaskBits(isDir: bool, readonly: bool)
    ensures Mask(isDir, readonly) <= ModePerm + ModeSetgid
    ensures !IsDir(Mask(isDir, readonly)) && !IsSymlink(Mask(isDir, readonly))
    ensures HasSetgid(Mask(isDir, readonly)) <==> isDir
  {
    assert 22 !in ModePerm;
  }

  /**
   * Bits are only ever added, the mask is set, and the file type stays what
   * it was.
   */
  lemma NewModeAdds(mode: FileMode, readonly: bool)
    ensures mode <= NewMode(mode, readonly)
    ensures Mask(IsDir(mode), readonly) <= NewMode(mode, readonly)
    ensures NewMode(mode, readonly) - mode <= ModePerm + ModeSetgid
    ensures IsDir(NewMode(mode, readonly)) == IsDir(mode)
    ensures IsSymlink(NewMode(mode, readonly)) == IsSymlink(mode)
  {
    MaskBits(IsDir(mode), readonly);
    var n := NewMode(mode, readonly);
    assert n * ModeDir == mode * ModeDir;
    assert n * ModeSymlink == mode * ModeSymlink;
  }

  /** Asking twice asks for nothing more. */
  lemma NewModeIdempotent(mode: FileMode, readonly: bool)
    ensures NewMode(NewMode(mode, readonly), readonly) == NewMode(mode, readonly)
  {
    NewModeAdds(mode, readonly);
  }

  /**
   * A directory whose permission bits are within what the mask asks for
   * ends up with exactly the bits the root check wants, and setgid.
   */
  lemma NewModeOfDirectory(mode: FileMode, readonly: bool)
    requires IsDir(mode)
    requires Perm(mode) <= (if readonly then roMask else rwMask) + execMask
    ensures Perm(NewMode(mode, readonly)) == (if readonly then roMask else rwMask) + execMask
    ensures HasSetgid(NewMode(mode, readonly))
  {
    var base := if readonly then roMask else rwMask;
    var n := NewMode(mode, readonly);
    assert n == mode + base + ModeSetgid + execMask;
    assert 22 !in ModePerm;
    assert base <= ModePerm && execMask <= ModePerm;
    assert Perm(n) == Perm(mode) + base + execMask;
    assert 22 in n;
  }
}
