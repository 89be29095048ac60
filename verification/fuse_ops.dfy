/**
 * The FUSE operation adapters (src/fuse-operations): each consults the
 * virtual-directory overlay first and otherwise forwards to the handler
 * found for the path, translating the outcome into a single `reply`.
 */
module FuseOps {
  import opened Wrappers
  import opened Paths
  import opened RootHandler
  import opened SafeVfs
  import opened VfsCache
  import opened Automount
  import opened Resolve

  /** The call an operation makes to FUSE's `reply`, if any. */
  datatype Reply = NoReply | Reply(code: int, payload: Payload)

  /**
   * How the forwarded part of an operation settles: a synchronous throw
   * while the call is being made (caught, EREMOTEIO), a rejection of the
   * promise chain (re-thrown by `.catch`, so FUSE is never answered), or a
   * value.
   */
  datatype Remote<T> = ResolveThrew | Rejected | Returned(value: T)

  datatype OpStep = OpStep(overlay: Overlay, reply: Reply)

  /**
   * The forwarded call through the awaited `getHandler`: the handler's
   * operation `op` runs on the handler found; a lookup without a handler,
   * or any throw inside the chain, rejects.
   */
  function Dispatch<T>(lookup: Lookup, op: Handler -> Remote<T>): (r: Remote<T>)
    ensures !r.ResolveThrew?
    ensures r.Returned? <==> lookup.Found? && op(lookup.handler).Returned?
    ensures r.Returned? ==> r == op(lookup.handler)
  {
    match lookup
    case Found(h) => (match op(h) case ResolveThrew => Rejected case other => other)
    case _ => Rejected
  }

  /**
   * The forwarded call through `getHandler` as written: off an exact key
   * it throws synchronously before any handler operation starts.
   */
  function DispatchAsWritten<T>(pm: PathMap, itemPath: string, defaults: seq<string>, available: ContainerRef -> bool,
                                op: Handler -> Remote<T>): (r: Remote<T>)
    ensures var p := if itemPath == "" then "/" else itemPath;
      && (r.ResolveThrew? <==> PathMapGet(pm, p).None?)
      && (PathMapGet(pm, p).Some? ==> r == Dispatch(GetHandler(pm, itemPath, defaults, available).lookup, op))
  {
    var p := if itemPath == "" then "/" else itemPath;
    if PathMapGet(pm, p).None? then ResolveThrew
    else
      AsWrittenAgreesOnKeys(pm, p, defaults, available);
      Dispatch(LookupAsWritten(pm, p, defaults, available), op)
  }

  /**
   * `mkdir`: always answered from the overlay.  The mode is ignored, and
   * making an existing directory again succeeds.
   */
  function Mkdir(ov: Overlay, itemPath: string, mode: int): (s: OpStep)
    ensures s.reply == Reply(if itemPath == "" then EEXIST else 0, NoPayload)
    ensures itemPath == "" ==> s.overlay == ov
    ensures itemPath != "" ==> s.overlay == ov[itemPath := true]
  {
    var step := MkdirVirtual(ov, itemPath);
    OpStep(step.overlay, Reply(step.result.returnCode, NoPayload))
  }

  /**
   * `rmdir`: `rmdirVirtual` is called without `pathExists`, so the
   * directory must have no entry under it in the overlay.
   */
  function Rmdir(ov: Overlay, itemPath: string, remoteExists: string -> bool): (s: OpStep)
    ensures s.reply.Reply? && s.reply.payload == NoPayload
    ensures s.reply.code == 0 <==> !HasEntryUnder(ov, itemPath) && Live(ov, itemPath)
    ensures s.reply.code == 0 ==> itemPath !in s.overlay && forall k :: k in ov && k != itemPath ==> k in s.overlay
    ensures s.reply.code != 0 ==> s.overlay == ov && s.reply.code in {ENOTEMPTY, ENOENT}
  {
    var step := RmdirVirtual(ov, itemPath, false, remoteExists);
    OpStep(step.overlay, Reply(step.result.returnCode, NoPayload))
  }

  /**
   * `readdir` with the corrected merge: a live virtual directory lists
   * exactly the children the overlay's keys imply; otherwise the handler's
   * listing is extended with them.  A listing of `undefined` makes the
   * merge throw inside the chain whenever some key has the path as a
   * prefix.
   */
  function Readdir(ov: Overlay, keys: seq<string>, itemPath: string, remote: Remote<Option<seq<string>>>): (r: Reply)
    requires Enumerates(keys, ov)
    ensures Live(ov, itemPath) ==>
      && r.Reply? && r.code == 0 && r.payload.Listing?
      && (forall i, j :: 0 <= i < j < |r.payload.names| ==> r.payload.names[i] != r.payload.names[j])
      && (forall n :: n in r.payload.names <==> exists k :: k in ov && ChildName(itemPath, k) == Some(n))
    ensures !Live(ov, itemPath) ==> match remote
      case ResolveThrew => r == Reply(EREMOTEIO, NoPayload)
      case Rejected => r == NoReply
      case Returned(None) => r == (if HasEntryUnder(ov, itemPath) then NoReply else Reply(0, NoPayload))
      case Returned(Some(listing)) =>
        && r.Reply? && r.code == 0 && r.payload.Listing? && listing <= r.payload.names
        && (forall k :: k in ov && ChildName(itemPath, k).Some? ==> ChildName(itemPath, k).value in r.payload.names)
        && (forall i :: |listing| <= i < |r.payload.names| ==>
              exists k :: k in ov && ChildName(itemPath, k) == Some(r.payload.names[i]))
  {
    match ReaddirVirtual(ov, itemPath)
    case Some(fr) =>
      var names := MergeVirtualDirs(itemPath, keys, []);
      Reply(fr.returnCode, Listing(names))
    case None =>
      match remote
      case ResolveThrew => Reply(EREMOTEIO, NoPayload)
      case Rejected => NoReply
      case Returned(None) => if HasEntryUnder(ov, itemPath) then NoReply else Reply(0, NoPayload)
      case Returned(Some(listing)) => Reply(0, Listing(MergeVirtualDirs(itemPath, keys, listing)))
  }

  /**
   * `readdir` as written, with the written merge: a live virtual directory
   * lists exactly what the written merge takes from the overlay's keys,
   * `undefined` included; otherwise the handler's listing is extended with
   * those entries.
   */
  function ReaddirAsWritten(ov: Overlay, keys: seq<string>, itemPath: string, remote: Remote<Option<seq<string>>>): (r: Reply)
    requires Enumerates(keys, ov)
    ensures Live(ov, itemPath) ==>
      && r.Reply? && r.code == 0 && r.payload.Entries?
      && (forall i, j :: 0 <= i < j < |r.payload.entries| ==> r.payload.entries[i] != r.payload.entries[j])
      && (forall e :: e in r.payload.entries <==> GivenByTable(ov, itemPath, e))
    ensures !Live(ov, itemPath) ==> match remote
      case ResolveThrew => r == Reply(EREMOTEIO, NoPayload)
      case Rejected => r == NoReply
      case Returned(None) => r == (if HasEntryUnder(ov, itemPath) then NoReply else Reply(0, NoPayload))
      case Returned(Some(listing)) =>
        && r.Reply? && r.code == 0 && r.payload.Entries? && Defined(listing) <= r.payload.entries
        && (forall k :: k in ov && itemPath <= k && k != itemPath ==> Field(k[|itemPath|..], '/', 1) in r.payload.entries)
        && (forall i :: |listing| <= i < |r.payload.entries| ==> GivenByTable(ov, itemPath, r.payload.entries[i]))
  {
    match ReaddirVirtual(ov, itemPath)
    case Some(fr) =>
      MergeAsWrittenFromEmpty(ov, keys, itemPath);
      Reply(fr.returnCode, Entries(MergeVirtualDirsAsWritten(itemPath, keys, [])))
    case None =>
      match remote
      case ResolveThrew => Reply(EREMOTEIO, NoPayload)
      case Rejected => NoReply
      case Returned(None) => if HasEntryUnder(ov, itemPath) then NoReply else Reply(0, NoPayload)
      case Returned(Some(listing)) =>
        var given := Defined(listing);
        MergeAsWrittenOverTable(ov, keys, itemPath, given);
        assert |given| == |listing|;
        var r := Reply(0, Entries(MergeVirtualDirsAsWritten(itemPath, keys, given)));
        assert r.payload.entries == MergeVirtualDirsAsWritten(itemPath, keys, given);
        r
  }

  /** `getattr`: a virtual directory, or else the cached remote result passed through. */
  function Getattr(ov: Overlay, itemPath: string, remote: Remote<FuseResult>): (r: Reply)
    ensures (exists k :: k in ov && (k == itemPath || itemPath + "/" <= k)) ==>
      r == Reply(0, StatRecord(Stat(DIRECTORY_MODE, 1, 0)))
    ensures !(exists k :: k in ov && (k == itemPath || itemPath + "/" <= k)) ==> match remote
      case ResolveThrew => r == Reply(EREMOTEIO, NoPayload)
      case Rejected => r == NoReply
      case Returned(fr) => r == Reply(fr.returnCode, fr.returnObject)
  {
    match GetattrVirtual(ov, itemPath)
    case Some(fr) => Reply(fr.returnCode, fr.returnObject)
    case None =>
      match remote
      case ResolveThrew => Reply(EREMOTEIO, NoPayload)
      case Rejected => NoReply
      case Returned(fr) => Reply(fr.returnCode, fr.returnObject)
  }

  /** The `status` of a container rename: `null` on success, an error, or absent. */
  datatype RenameStatus = StatusNull | StatusError | StatusMissing

  datatype RenameOutcome = RenameOutcome(status: RenameStatus, wasLastItem: bool)

  /** The overlay after a file left `itemPath`: its parent made virtual if that emptied it. */
  function KeepParent(ov: Overlay, itemPath: string, wasLastItem: bool): (r: Overlay)
    ensures wasLastItem && Parent(itemPath) != "" ==> Live(r, Parent(itemPath))
    ensures forall k :: k != Parent(itemPath) ==> (k in r <==> k in ov)
    ensures forall k :: k in ov && k != Parent(itemPath) ==> r[k] == ov[k]
    ensures !wasLastItem || Parent(itemPath) == "" ==> r == ov
  {
    if wasLastItem && Parent(itemPath) != "" then MkdirVirtual(ov, Parent(itemPath)).overlay else ov
  }

  /**
   * `rename`: a live virtual directory is renamed in the overlay;
   * otherwise the container renames, and on success the old parent is kept
   * as a virtual directory if it emptied and the virtual ancestors of the
   * new path are cleared.  A missing status, or a missing result, throws
   * inside the chain.
   */
  function Rename(ov: Overlay, itemPath: string, newPath: string, remote: Remote<Option<RenameOutcome>>): (s: OpStep)
    ensures Live(ov, itemPath) ==> s.reply == Reply(0, NoPayload) && Some(Step(s.overlay, FuseResult(0, NoPayload))) == RenameVirtual(ov, itemPath, newPath)
    ensures !Live(ov, itemPath) ==> match remote
      case ResolveThrew => s == OpStep(ov, Reply(EREMOTEIO, NoPayload))
      case Rejected => s == OpStep(ov, NoReply)
      case Returned(None) => s == OpStep(ov, NoReply)
      case Returned(Some(o)) =>
        match o.status
        case StatusNull =>
          s == OpStep(CloseVirtual(KeepParent(ov, itemPath, o.wasLastItem), newPath).overlay, Reply(0, NoPayload))
        case StatusError => s == OpStep(ov, Reply(EREMOTEIO, NoPayload))
        case StatusMissing => s == OpStep(ov, NoReply)
  {
    match RenameVirtual(ov, itemPath, newPath)
    case Some(step) => OpStep(step.overlay, Reply(step.result.returnCode, step.result.returnObject))
    case None =>
      match remote
      case ResolveThrew => OpStep(ov, Reply(EREMOTEIO, NoPayload))
      case Rejected => OpStep(ov, NoReply)
      case Returned(None) => OpStep(ov, NoReply)
      case Returned(Some(o)) =>
        match o.status
        case StatusNull => OpStep(CloseVirtual(KeepParent(ov, itemPath, o.wasLastItem), newPath).overlay, Reply(0, NoPayload))
        case StatusError => OpStep(ov, Reply(EREMOTEIO, NoPayload))
        case StatusMissing => OpStep(ov, NoReply)
  }

  /**
   * `unlink` as written: `.unlink` is read off what `getHandler` hands
   * back.  A synchronous throw is caught; a promise has no `unlink`, so
   * calling `undefined` throws a TypeError, which is caught too.
   */
  function UnlinkAsWritten(pm: PathMap, ov: Overlay, itemPath: string, defaults: seq<string>,
                           available: ContainerRef -> bool, remote: Remote<bool>): (s: OpStep)
    ensures s == OpStep(ov, Reply(EREMOTEIO, NoPayload))
  {
    match GetHandlerAsWritten(pm, itemPath, defaults, available)
    case None => OpStep(ov, Reply(EREMOTEIO, NoPayload))
    case Some(v) => if HasMethod(v, "unlink") then Unlink(ov, itemPath, remote) else OpStep(ov, Reply(EREMOTEIO, NoPayload))
  }

  /**
   * `unlink` with the handler awaited: the container deletes the file and
   * reports whether it was the last item of its directory, in which case
   * the parent is kept as a virtual directory.  A failed delete settles to
   * `undefined`, whose `.wasLastItem` read rejects the chain.
   */
  function Unlink(ov: Overlay, itemPath: string, remote: Remote<bool>): (s: OpStep)
    ensures remote.ResolveThrew? ==> s == OpStep(ov, Reply(EREMOTEIO, NoPayload))
    ensures remote.Rejected? ==> s == OpStep(ov, NoReply)
    ensures remote.Returned? ==> s == OpStep(KeepParent(ov, itemPath, remote.value), Reply(0, NoPayload))
  {
    match remote
    case ResolveThrew => OpStep(ov, Reply(EREMOTEIO, NoPayload))
    case Rejected => OpStep(ov, NoReply)
    case Returned(wasLastItem) => OpStep(KeepParent(ov, itemPath, wasLastItem), Reply(0, NoPayload))
  }

  /**
   * The written `unlink` never succeeds: on every path, whatever the
   * container would do, it replies EREMOTEIO and deletes nothing, where
   * the awaited version answers differently for every delete that
   * completes or rejects.
   */
  lemma UnlinkAsWrittenNeverSucceeds(pm: PathMap, ov: Overlay, itemPath: string, defaults: seq<string>,
                                     available: ContainerRef -> bool, remote: Remote<bool>)
    ensures UnlinkAsWritten(pm, ov, itemPath, defaults, available, remote).reply == Reply(EREMOTEIO, NoPayload)
    ensures !remote.ResolveThrew? ==> UnlinkAsWritten(pm, ov, itemPath, defaults, available, remote) != Unlink(ov, itemPath, remote)
  {
  }

  /**
   * Through the written `getHandler`, an operation on a path that is not
   * itself a mount key and is not virtual replies EREMOTEIO: `readdir`
   * of '/_public/docs' fails even though '/_public' is mounted, whichever
   * merge follows.
   */
  lemma ReaddirOffKeyAsWritten(pm: PathMap, ov: Overlay, keys: seq<string>, itemPath: string, defaults: seq<string>,
                               available: ContainerRef -> bool, op: Handler -> Remote<Option<seq<string>>>)
    requires Enumerates(keys, ov) && itemPath != "" && PathMapGet(pm, itemPath).None? && !Live(ov, itemPath)
    ensures ReaddirAsWritten(ov, keys, itemPath, DispatchAsWritten(pm, itemPath, defaults, available, op)) == Reply(EREMOTEIO, NoPayload)
    ensures Readdir(ov, keys, itemPath, DispatchAsWritten(pm, itemPath, defaults, available, op)) == Reply(EREMOTEIO, NoPayload)
  {
  }

  /**
   * `release`: once the container closes the file (`null`), the virtual
   * ancestors of the path are cleared; any other result is thrown inside
   * the chain.
   */
  function Release(ov: Overlay, itemPath: string, remote: Remote<bool>): (s: OpStep)
    ensures remote == Returned(true) ==> s == OpStep(CloseVirtual(ov, itemPath).overlay, Reply(0, NoPayload))
    ensures remote.ResolveThrew? ==> s == OpStep(ov, Reply(EREMOTEIO, NoPayload))
    ensures remote.Rejected? || remote == Returned(false) ==> s == OpStep(ov, NoReply)
  {
    match remote
    case ResolveThrew => OpStep(ov, Reply(EREMOTEIO, NoPayload))
    case Rejected => OpStep(ov, NoReply)
    case Returned(closed) =>
      if closed then OpStep(CloseVirtual(ov, itemPath).overlay, Reply(0, NoPayload)) else OpStep(ov, NoReply)
  }
}
