/**
 * The data of a `RootHandler` (src/safe-vfs/root.js) and its pure helpers.
 * A handler binds one mount path to one container reference; the handler
 * mounted at '/' owns no SAFE container and performs the automounts.
 */
module RootHandler {
  import opened Wrappers
  import opened Paths

  /** The namespace under which web sites are automounted by their SAFE URI. */
  const WEB_MOUNTS_NAME: string := "_webMounts"

  /** `containerRef`: a default container name (`safePath`) or a SAFE URI (`safeUri`). */
  datatype ContainerRef = ContainerRef(safePath: Option<string>, safeUri: Option<string>)

  datatype Handler = Handler(ref: ContainerRef, mountPath: string, lazyInitialise: bool)

  /** The handler for '/', which performs the automounts. */
  predicate IsRoot(h: Handler) {
    h.mountPath == "/"
  }

  /**
   * Whether `initContainer` yields a container for `h`.  '/' and
   * '/_webMounts' get a `RootContainer`, which always succeeds; every other
   * mount asks SafenetworkJs, whose answer is the oracle `available`.
   */
  predicate ContainerInitialises(h: Handler, available: ContainerRef -> bool) {
    h.mountPath == "/" || h.mountPath == "/" + WEB_MOUNTS_NAME || available(h.ref)
  }

  /**
   * `pruneMountPath`: the path inside the container, i.e. `itemPath` with the
   * mount path stripped when it is a string prefix, then at most one leading
   * separator stripped.
   */
  function PruneMountPath(mountPath: string, itemPath: string): (cp: string)
    ensures var rest := if mountPath <= itemPath then itemPath[|mountPath|..] else itemPath;
      cp == rest || "/" + cp == rest
    ensures cp == "" <==> (itemPath == mountPath || itemPath == mountPath + "/" ||
      (!(mountPath <= itemPath) && (itemPath == "" || itemPath == "/")))
  {
    var containerPath := if mountPath <= itemPath then itemPath[|mountPath|..] else itemPath;
    assert mountPath <= itemPath ==> itemPath == mountPath + containerPath;
    if |containerPath| > 0 && containerPath[0] == '/' then containerPath[1..] else containerPath
  }

  /** Pruning a mount path from a path inside it leaves the relative path. */
  lemma PruneMountPathInside(mountPath: string, rest: string)
    requires rest == "" || rest[0] != '/'
    ensures PruneMountPath(mountPath, mountPath) == ""
    ensures PruneMountPath(mountPath, mountPath + "/" + rest) == rest
  {
    assert (mountPath + "/" + rest)[|mountPath|..] == "/" + rest;
  }

  // The POSIX access modes in the low two bits of the open flags.
  const O_RDONLY: bv32 := 0
  const O_WRONLY: bv32 := 1
  const O_RDWR: bv32 := 2

  /**
   * `fuseToNfsFlags`: the access mode `flags & 3` mapped onto the NFS file
   * modes, whose values SafenetworkJs supplies as `read` and `append`.
   */
  function FuseToNfsFlags(flags: bv32, read: bv32, append: bv32): (mode: bv32)
    ensures flags & 3 == O_RDONLY ==> mode == read
    ensures flags & 3 == O_WRONLY ==> mode == append
    ensures flags & 3 == O_RDWR || flags & 3 == 3 ==> mode == append | read
  {
    var access := flags & 3;
    if access == 0 then read
    else if access == 1 then append
    else append | read
  }

  /**
   * Only the access mode matters, every result uses no bits other than the
   * two NFS modes, and the mapping is lossy: read-write and the unused
   * value 3 collapse onto the same mode.
   */
  lemma FuseToNfsFlagsAccessModeOnly(f: bv32, g: bv32, read: bv32, append: bv32)
    ensures f & 3 == g & 3 ==> FuseToNfsFlags(f, read, append) == FuseToNfsFlags(g, read, append)
    ensures FuseToNfsFlags(f, read, append) & !(read | append) == 0
    ensures FuseToNfsFlags(O_RDWR, read, append) == FuseToNfsFlags(3, read, append)
  {
  }
}
