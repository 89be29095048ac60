# SAFE Drive virtual filesystem core, modelled in Dafny

SAFE Drive mounts the SAFE Network as a FUSE filesystem. Its core is `SafeVfs`, in `src/safe-vfs`. The core keeps three things:

- **The path map.** Normalised mount paths are mapped to `RootHandler`s. Each handler binds one mount path to one container reference.
- **Automounts.** The handler mounted at '/' performs them: default containers such as `_public`, and web sites under `/_webMounts/<host>`.
- **The virtual-directory overlay of `VfsCaching`.** This is an in-memory table of directories the remote containers cannot hold, because SAFE has no empty directories.

The FUSE adapters in `src/fuse-operations` each consult the overlay first. Otherwise they forward to the handler that `getHandler` finds for the path, and answer FUSE through a `reply` callback.

The model is written as pure functions over immutable values:

- **`Paths`** gives plain definitions of the JavaScript and Node helpers the core leans on: `split`, posix `dirname`, `parentPathNoDot` and `normalize`.
- **`VfsCache`** is the overlay.
  - It is a `map<string, bool>`. `false` is a key whose value was set to `undefined`.
  - Readers that iterate the keys with `for ... in` still see such keys. Readers that test the value do not.
- **`RootHandler`** holds the handler data and its pure helpers.
- **`SafeVfs`** is the path map and `mountContainer`.
- **`Automount`** is `getHandlerFor` and `getContainer`.
- **`RootContainer`** is the listing and attributes of the root container.
- **`Resolve`** is `getHandler`.
- **`FuseOps`** holds the adapters.
- **`Scenarios`** proves what a sequence of operations leaves visible to the next one.

Iteration order of a JavaScript `Map` or object is an input: a key sequence `keys` that enumerates the table (`VfsCache.Enumerates`).

Everything SafenetworkJs or FUSE decides is a parameter:

- `available` says which containers `getSafeContainer` can create.
- `defaults` is `defaultContainerNames`.
- `remoteExists` is the answer of the remote `getattr` probe.
- A `Remote<T>` value is how a forwarded handler call settles. It can be:
  - a synchronous throw, which is caught and answered with EREMOTEIO;
  - a rejection of the promise chain, which the adapters re-throw from `.catch`, so FUSE gets no reply;
  - a value.

Three defects are recorded under "## Findings": the child-name computation of `mergeVirtualDirs`, the un-awaited parent handler in `getHandler`, and the `.unlink` read in unlink.js. For each, the code as written is modelled alongside a corrected version:

- `VfsCache.MergeVirtualDirsAsWritten` and `FuseOps.ReaddirAsWritten` sit next to `VfsCache.MergeVirtualDirs` and `FuseOps.Readdir`.
- `Resolve.LookupAsWritten` and `Resolve.GetHandlerAsWritten` sit next to `Resolve.Lookup` and `Resolve.GetHandler`.
- `FuseOps.UnlinkAsWritten` sits next to `FuseOps.Unlink`.

The adapters `FuseOps.Readdir`, `FuseOps.Unlink`, `FuseOps.Dispatch` and the `Scenarios` are stated over the corrected versions. Where a scenario's conclusion also holds as written, the same lemma states it for the written version too.

In these places the code behaves differently from what POSIX or FUSE expect of a filesystem, or from its own checks. The model follows the code:

- Making a directory that already exists succeeds (`Scenarios.MkdirTwiceSucceeds`). POSIX `mkdir` on an existing directory fails with EEXIST. The code's comment at src/safe-vfs/vfs-cache.js:96 assumes FUSE never asks.
- Renaming a virtual directory leaves the old name visible (`Scenarios.VirtualRenameLeavesOldName`), where POSIX `rename` removes it. The old key is set to `undefined` rather than deleted, and `getattrVirtual` and `mergeVirtualDirs` iterate the keys.
- An adapter whose promise chain rejects never replies (`FuseOps.Reply.NoReply`). FUSE expects every request to be answered once.
- `mountContainer` checks for an existing mount under the chosen path before adding the leading '/' (`SafeVfs.MountOverwritesPrefixedEntry`). So a safePath of `_public` replaces an existing '/_public' mount. The check at src/safe-vfs/index.js:448-450 is meant to refuse a second mount.
- Some code is dead and is not modelled:
  - the `reply(Fuse.EREMOTEIO)` after a result in mkdir.js:13 and rmdir.js:13;
  - the default-container branch at src/safe-vfs/root.js:198, whose test `!x === -1` is never true;
  - the trailing-separator test of `mkdirVirtual` at src/safe-vfs/vfs-cache.js:99, which compares `substr(length)` (always '') with '/'.

## Model

| member | source | states |
|---|---|---|
| VfsCache.NewFuseResult | src/safe-vfs/vfs-cache.js:369-375 | an omitted return code becomes ENOENT; the object is kept as given |
| VfsCache.MakeGetattrResult | src/safe-vfs/vfs-cache.js:322-362 | code 0 exactly for a defined result of one of the eight accepted entry types, with mode 33188 for a file and 16877 otherwise, nlink 1 and the result's size; every other input, including an undefined result, gives the ENOENT default |
| VfsCache.MkdirVirtual | src/safe-vfs/vfs-cache.js:97-109 | the empty path answers EEXIST and changes nothing; any other path answers 0 and becomes a live virtual directory; no other key is added, removed or changed |
| VfsCache.RecreateParentsMarksWalk | src/safe-vfs/vfs-cache.js:136-147 | the parent re-creation walk adds or revives, as live directories, exactly the ancestors it visits: each one above ''/'/' while the remote probe reports it absent; every other key keeps its value |
| VfsCache.RmdirVirtual | src/safe-vfs/vfs-cache.js:118-163 | without pathExists, any other key with the path as a string prefix (tombstones included) gives ENOTEMPTY with nothing changed; a live directory is removed and answers 0, and without pathExists its absent ancestors are re-created; a path that is not live answers ENOENT or ENOTEMPTY as the remote probe says, with the table unchanged |
| VfsCache.CloseFrom | src/safe-vfs/vfs-cache.js:176-180 | the walk from a path deletes exactly the live, non-terminal paths on its parent chain and changes no value |
| VfsCache.CloseVirtual | src/safe-vfs/vfs-cache.js:174-184 | answers 0; removes exactly the live strict ancestors of the path above ''/'/', walking past ancestors that are not virtual; leaves tombstones and every other value alone |
| VfsCache.ReaddirVirtual | src/safe-vfs/vfs-cache.js:186-192 | handled exactly when the path is a live virtual directory, with code 0 and an empty listing |
| VfsCache.ReaddirVirtualFollowsOverlay | src/safe-vfs/vfs-cache.js:186-192 | a directory made virtual answers readdir with an empty listing; once removed, or renamed away, it no longer answers, and its new name does; a parent cleared by opening a file below it no longer answers |
| VfsCache.ChildName | src/safe-vfs/vfs-cache.js:197-199 | the child name a key implies for a directory (the name the corrected merge adds) is non-empty, has no separator, and the key is that child or lies under it |
| VfsCache.MergeVirtualDirs | src/safe-vfs/vfs-cache.js:195-204 | keeps the given names as a prefix and appends each child name some key implies, once each and none already given; every implied child name is in the result |
| VfsCache.MergeVirtualDirsAsWritten | src/safe-vfs/vfs-cache.js:195-204 | the merge as written keeps the given entries as a prefix; every appended entry is the `split('/')[1]` of some key that has the directory as a raw string prefix (so it may be `undefined`), is not already given, and is appended once; every such key's entry is in the result |
| VfsCache.MergeAsWrittenOverTable | src/safe-vfs/vfs-cache.js:195-204 | over the overlay's own key order, every entry the written merge adds comes from some overlay key with the directory as a raw prefix, and every such key's entry is listed |
| VfsCache.MergeAsWrittenFromEmpty | src/safe-vfs/vfs-cache.js:195-204 | merging into an empty listing, as the virtual-directory branch does, lists distinct entries, and lists an entry exactly when some overlay key gives it |
| VfsCache.MergeAsWrittenSiblingChild | src/safe-vfs/vfs-cache.js:197-200 | under '/a', the key '/ab/c' of a sibling directory makes the written merge list 'c'; the intended merge lists nothing |
| VfsCache.MergeAsWrittenSiblingKey | src/safe-vfs/vfs-cache.js:197-200 | under '/a', the sibling key '/ab' makes the written merge append `undefined`; the intended merge appends nothing |
| VfsCache.MergeAsWrittenAtRoot | src/safe-vfs/vfs-cache.js:197-200 | at '/', the key '/x/y' makes the written merge list the grandchild 'y'; the intended merge lists the child 'x' |
| VfsCache.GetattrVirtual | src/safe-vfs/vfs-cache.js:208-236 | handled exactly when some key, tombstones included, equals the path or starts with the path plus '/'; the answer is then a directory stat record with code 0 |
| VfsCache.RenameVirtual | src/safe-vfs/vfs-cache.js:239-247 | handled exactly when the old path is live; the new path becomes live and the old key stays as a tombstone; no other key changes |
| VfsCache.LiveRunFrame | src/safe-vfs/vfs-cache.js:265-270 | the run of live ancestors that the open walk visits depends only on paths no longer than where it starts |
| VfsCache.OpenFromTombstonesLiveRun | src/safe-vfs/vfs-cache.js:266-270 | the walk sets to `undefined` exactly the leading run of live paths up the parent chain and keeps every other value |
| VfsCache.OpenVirtual | src/safe-vfs/vfs-cache.js:265-273 | keeps the key set; only turns live entries into tombstones, and only ancestors of the opened path; the immediate parent, when live, stops being live |
| RootHandler.PruneMountPath | src/safe-vfs/root.js:251-256 | the result is the path with the mount path removed when it is a string prefix, minus at most one leading separator; it is empty exactly for the mount path itself, the mount path plus '/', or ''/'/' outside the mount |
| RootHandler.PruneMountPathInside | src/safe-vfs/root.js:251-256 | pruning the mount path from itself gives '', and from a path inside it gives the relative path |
| RootHandler.FuseToNfsFlags | src/safe-vfs/root.js:274-281 | access mode 0 maps to read, 1 to append, and 2 or 3 to append or read |
| RootHandler.FuseToNfsFlagsAccessModeOnly | src/safe-vfs/root.js:274-281 | only the low two bits of the flags matter; no result has bits other than the two NFS modes; read-write and 3 give the same mode |
| SafeVfs.PathMapSet | src/safe-vfs/index.js:308-310 | the handler is stored under the normalised path; every other entry is kept |
| SafeVfs.PathMapGet | src/safe-vfs/index.js:312-314 | found exactly when the normalised path is a key, and then it is that key's handler |
| SafeVfs.PathMapDelete | src/safe-vfs/index.js:316-318 | exactly the normalised path's entry is removed |
| SafeVfs.SameNormalFormSameEntry | src/safe-vfs/index.js:308-318 | two spellings with one normal form address the same entry for get, set and delete |
| SafeVfs.GetNormalizedPath | src/safe-vfs/index.js:312-314 | looking up the normal form of a path is looking up the path |
| SafeVfs.WellFormedKeysAbsolute | src/safe-vfs/index.js:459-462 | every key of a well-formed path map is an absolute path |
| SafeVfs.Hostpart | src/safe-vfs/index.js:488 | the host taken from a URI contains no separator |
| SafeVfs.MountPathFromHost | src/safe-vfs/index.js:489-497 | the mount path of a host lies under '/_webMounts/'; a host without a dot mounts at '/_webMounts/' plus the host |
| SafeVfs.MakeMountPathFromUri | src/safe-vfs/index.js:485-498 | every URI mounts under '/_webMounts/' |
| SafeVfs.MountPathOfFields | src/safe-vfs/index.js:489-497 | a dotted host whose first two fields are 'service' and 'public' mounts at '/_webMounts/service.public' |
| SafeVfs.MountPathKeepsTwoSegments | src/safe-vfs/index.js:489-497 | 'service.public' mounts at '/_webMounts/service.public', and further dot-segments of the host are dropped |
| SafeVfs.ScanMounted | src/safe-vfs/index.js:320-329 | the `forEach` scan is set exactly when some key in the iteration order starts with the path |
| SafeVfs.ScanMountedIsPartOfMountedPath | src/safe-vfs/index.js:320-329 | in any iteration order of the path map, the scan answers whether some mount key starts with the path |
| SafeVfs.ChosenMountPath | src/safe-vfs/index.js:437-444 | the mount path is a truthy mountPath, else a truthy safePath, else the path made from a truthy safeUri, else mountPath as given |
| SafeVfs.Absolute | src/safe-vfs/index.js:459-462 | a leading separator is added exactly when it is missing |
| SafeVfs.MountContainer | src/safe-vfs/index.js:435-479 | a handler is returned exactly when a mount path was chosen, no entry exists under that path as given, and the mount is lazy or its container initialises; it then carries the container reference, the absolute path and the lazy flag, and is stored under that path; every failure leaves the map unchanged |
| SafeVfs.SetKeepsWellFormed | src/safe-vfs/index.js:469-470 | storing a handler under its own absolute mount path keeps the path map well formed |
| SafeVfs.DeleteKeepsWellFormed | src/safe-vfs/index.js:316-318 | removing any entry but the root keeps the path map well formed |
| SafeVfs.MountContainerPreservesWellFormed | src/safe-vfs/index.js:459-474 | a mount keeps the path map well formed: root present, keys the normal forms of absolute mount paths |
| SafeVfs.MountOverwritesPrefixedEntry | src/safe-vfs/index.js:448-470 | with '/name' mounted, a lazy mount with safePath 'name' passes the presence check and replaces that entry |
| SafeVfs.InitialisePathMap | src/safe-vfs/index.js:384-387 | the new map holds only '/', bound to a non-lazy root handler for safePath '/', and is well formed |
| SafeVfs.UnmountPath | src/safe-vfs/index.js:481-483 | exactly the normalised path's entry is removed; removing any entry but the root keeps the map well formed |
| SafeVfs.UnmountFuse | src/safe-vfs/index.js:362-377 | the map is emptied when FUSE reports the unmount, and kept when the unmount fails |
| Automount.FirstSegmentPrefix | src/safe-vfs/root.js:180-183 | an absolute path starts with '/' plus its first segment, so the held-container check passes for it |
| Automount.GetContainer | src/safe-vfs/root.js:178-214 | a held container is returned when the path starts with its first segment; a lazy handler other than '/' answers whether its container initialises; otherwise the path's entry is purged and nothing is returned; a success never changes the map |
| Automount.WebMountUri | src/safe-vfs/root.js:142-145 | the URI for a web-mount host starts with 'safe://' and is 'safe://' plus the host when the host has no dot |
| Automount.WebMountUriKeepsTwoSegments | src/safe-vfs/root.js:142-145 | a host 'prefix.remainder' becomes 'safe://prefix.remainder', and further dot-segments are dropped |
| Automount.DefaultName | src/safe-vfs/root.js:101-104 | a top-level path names a default container exactly when its first segment exists and is one of the default names, and the name is that segment |
| Automount.FallbackUri | src/safe-vfs/root.js:108 | the fallback URI for a default container starts with 'safe://' |
| Automount.GetHandlerFor | src/safe-vfs/root.js:90-160 | a handler answers for its own path, and a non-root handler always for itself; for a top-level path other than '/', the root answers itself unless the first segment is a default name; for a default name it mounts that container at '/' plus the name, and failing that mounts the fallback 'safe://' URI, and failing both answers itself; each mount is stored in the map; the root answers itself for a prefix of a mount; `undefined` only outside '/_webMounts'; for a deeper path the root answers itself when the path is a prefix of a mount key; otherwise, outside '/_webMounts' it answers `undefined` with the map unchanged, a '/_webMounts' path without a host throws a TypeError, and with a host it builds a non-lazy handler for `WebMountUri(host)` at the path, which is stored and returned when its container initialises, and otherwise the path is purged and the lookup throws |
| Automount.WebMountPathNotRoot | src/safe-vfs/root.js:141 | a path under '/_webMounts' never normalises to the root key |
| Automount.WebMountPreservesWellFormed | src/safe-vfs/root.js:141-153 | the web-mount branch, whether it succeeds or purges, keeps the path map well formed |
| Automount.GetHandlerForPreservesWellFormed | src/safe-vfs/root.js:90-160 | every lookup, with its automounts and purges, keeps the path map well formed |
| RootContainer.PickFrom | src/safe-vfs/root.js:451-462 | what one key contributes to a listing; at the root no key is skipped, and a name never contains a separator |
| RootContainer.ListFrom | src/safe-vfs/root.js:444-472 | the listing so far is a prefix of the result; each added name is non-empty, not already listed, and added once |
| RootContainer.ListFromSound | src/safe-vfs/root.js:451-462 | every name the walk adds was picked from some key |
| RootContainer.ListFromComplete | src/safe-vfs/root.js:451-462 | when no key fails, every non-empty name a key picks is listed |
| RootContainer.ListFolder | src/safe-vfs/root.js:444-472 | the listing holds distinct non-empty names without separators, each taken from some mount key |
| RootContainer.ListRootNamesTopLevelMounts | src/safe-vfs/root.js:449-455 | the root of a well-formed path map lists each top-level mount name exactly once, and nothing else |
| RootContainer.FirstSegmentField | src/safe-vfs/root.js:452 | an absolute mount key always has a first segment, so the root listing never fails |
| RootContainer.ItemAttributesResultsRef | src/safe-vfs/root.js:492-519 | a default-container directory exactly for '', every prefix of a mount key (after adding '/') and every path starting with '_webMounts'; `notFound` otherwise |
| RootContainer.RootContainerGetattr | src/safe-vfs/root.js:492-519 | through the getattr translation the root container reports a directory exactly where it knows one, and ENOENT elsewhere |
| Resolve.Lookup | src/safe-vfs/index.js:397-409 | with the parent's handler awaited, a path mounted with a handler other than '/' resolves to that handler, with the map unchanged |
| Resolve.GetHandler | src/safe-vfs/index.js:396 | the empty path resolves as '/' |
| Resolve.LookupBelowRoot | src/safe-vfs/index.js:397-409 | for a path whose nearest mounted ancestor is '/', its top-level ancestor resolves to whatever the root's `getHandlerFor` answers for it, automounts included; when that top-level path names no default container, and the parent is below the top level, part of no mount and outside '/_webMounts', the path throws "getHandler() failed" with the map unchanged |
| Resolve.RootIsNearestAbsolute | src/safe-vfs/index.js:397-398 | a path whose `dirname` chain reaches the root mount without meeting another mount is absolute |
| Resolve.UnmountedBelowRoot | src/safe-vfs/index.js:397-409 | below a top-level path naming no default container, and outside '/_webMounts', every path resolves with the map unchanged to the root handler, to no handler, or to "getHandler() failed"; the top-level path resolves to the root, and a deeper path that is part of no mount never does |
| Resolve.RootAnswersTop | src/safe-vfs/root.js:98-114 | the root answers itself for a top-level path that names no default container, mounting nothing |
| Resolve.QuietStep | src/safe-vfs/index.js:397-409 | one `dirname` step below the top level, outside '/_webMounts': when the parent resolves to the root, to no handler or to "getHandler() failed" with the map unchanged, so does the path, and a path that is part of no mount does not get the root |
| Resolve.RootAnswersBelowTop | src/safe-vfs/root.js:116-154 | below the top level and outside '/_webMounts', the root answers itself or `undefined` and mounts nothing, and answers `undefined` whenever the path is part of no mount |
| Resolve.NoOverflowBelowRoot | src/safe-vfs/index.js:397-398 | with the root mounted, resolving an absolute path never recurses without end |
| Resolve.LookupPreservesWellFormed | src/safe-vfs/index.js:394-410 | the intended resolution keeps the path map well formed through every automount and purge |
| Resolve.CoveredResolvesToMount | src/safe-vfs/index.js:397-409 | a path whose nearest mounted ancestor is a handler other than '/' resolves to that handler and leaves the map as it was |
| Resolve.LookupAsWritten | src/safe-vfs/index.js:397-409 | as written, a handler is found only for a path that is itself a key |
| Resolve.AsWrittenThrowsOffKey | src/safe-vfs/index.js:397-409 | as written, resolving any path that is not itself a key throws |
| Resolve.AsWrittenAgreesOnKeys | src/safe-vfs/index.js:397-409 | on exact keys the written and the intended resolutions agree |
| Resolve.GetHandlerAsWritten | src/safe-vfs/index.js:394-410 | as written, `getHandler` throws synchronously exactly when the path (with '' read as '/') is not a key, and otherwise hands back a promise, settling to the intended resolution, rather than a handler |
| Resolve.AsWrittenCounterexample | src/safe-vfs/index.js:397-409 | with '/_public' mounted lazily, the written resolution of '/_public/docs' throws a TypeError, and the intended one finds the '/_public' handler |
| FuseOps.Dispatch | src/fuse-operations/readdir.js:17-23 | through the awaited lookup, an operation settles to the handler's value exactly when a handler was found and its operation returned; otherwise the chain rejects; no synchronous throw escapes |
| FuseOps.DispatchAsWritten | src/fuse-operations/readdir.js:17-24 | through the written lookup, the call throws synchronously exactly when the path is not a key, and agrees with the awaited lookup on keys |
| FuseOps.Mkdir | src/fuse-operations/mkdir.js:6-19 | replies EEXIST for the empty path and 0 otherwise, whatever the mode; any other path becomes live |
| FuseOps.Rmdir | src/fuse-operations/rmdir.js:6-20 | always replies, with 0 exactly when the path is live and no other key lies under it; on 0 the path is gone and every other key stays; otherwise ENOTEMPTY or ENOENT with nothing changed |
| FuseOps.Readdir | src/fuse-operations/readdir.js:6-29 | with the corrected merge: a live directory lists exactly, and once each, the child names the overlay implies; otherwise a synchronous throw gives EREMOTEIO, a rejection no reply, an undefined listing no reply when a key lies under the path (and an empty reply otherwise), and a listing is kept and extended with exactly the implied children |
| FuseOps.Getattr | src/fuse-operations/getattr.js:16-30 | a path some key equals or lies under replies a directory stat; otherwise the remote result is passed through, with EREMOTEIO on a synchronous throw and no reply on a rejection |
| FuseOps.KeepParent | src/fuse-operations/rename.js:21-24 | when the moved file was the last item, a non-empty parent becomes live; nothing else changes |
| FuseOps.Rename | src/fuse-operations/rename.js:6-39 | a live virtual directory is renamed in the overlay; otherwise a null status replies 0, keeps an emptied parent and clears the new path's virtual ancestors; an error status replies EREMOTEIO; a missing status or result never replies |
| FuseOps.Unlink | src/fuse-operations/unlink.js:9-17 | with the handler awaited, a completed delete replies 0 and keeps an emptied parent as a virtual directory; a synchronous throw replies EREMOTEIO; a rejection never replies |
| FuseOps.UnlinkAsWritten | src/fuse-operations/unlink.js:6-23 | reading `.unlink` off what the written `getHandler` hands back, a synchronous throw or a promise, always ends in EREMOTEIO with the overlay untouched |
| FuseOps.UnlinkAsWrittenNeverSucceeds | src/fuse-operations/unlink.js:9 | as written, every unlink replies EREMOTEIO with the overlay untouched, and so differs from the awaited unlink whenever the call does not throw |
| FuseOps.ReaddirAsWritten | src/fuse-operations/readdir.js:6-29 | with the written merge: a live directory lists distinct entries, exactly those some overlay key gives; otherwise a synchronous throw gives EREMOTEIO, a rejection no reply, an undefined listing no reply when a key lies under the path (and an empty reply otherwise), and a listing is kept as a prefix and extended with entries overlay keys give, including every one they give |
| FuseOps.ReaddirOffKeyAsWritten | src/fuse-operations/readdir.js:17-28 | through the written lookup, the written readdir (and the corrected one) of a path that is neither a key nor virtual replies EREMOTEIO |
| FuseOps.Release | src/fuse-operations/release.js:6-26 | a closed file replies 0 and clears its virtual ancestors; a synchronous throw replies EREMOTEIO; any other result never replies |
| Scenarios.UnlinkLastItemKeepsParent | src/fuse-operations/unlink.js:11-16 | after the last file of a directory is deleted, the directory still reports as a directory and lists as empty; with no key under it the written readdir lists it as empty too |
| Scenarios.ReleasePromotesVirtualParent | src/fuse-operations/release.js:12-17 | closing a file in a virtual directory takes the directory out of the overlay, so getattr reports what the container says |
| Scenarios.VirtualRenameLeavesOldName | src/safe-vfs/vfs-cache.js:239-247 | after a virtual rename both the old and the new name report as directories and are listed by the corrected readdir, and by the written one when the parent does not end in '/' |
| Scenarios.MkdirTwiceSucceeds | src/fuse-operations/mkdir.js:9-12 | making an existing directory again replies 0 and changes nothing |
| Scenarios.MkdirListedInParent | src/fuse-operations/readdir.js:9-22 | a directory made under a directory is listed by readdir of that directory, whether it is virtual or listed by its container; the written readdir lists it too when the parent does not end in '/' |
| Scenarios.MkdirRmdirRoundTrip | src/safe-vfs/vfs-cache.js:97-147 | rmdir undoes mkdir of an empty directory whose parent exists, leaving the overlay as before less any earlier entry for the path |
| Scenarios.UnimpliedNameUnlisted | src/fuse-operations/readdir.js:9-22 | a name no key implies, and the container does not list, is not listed |
| Scenarios.MkdirRmdirUnlisted | src/fuse-operations/readdir.js:9-22 | a directory made under a directory is listed, and once removed again it is not |
| Scenarios.RawEntryOfChild | src/safe-vfs/vfs-cache.js:197-199 | under a directory not ending in '/', the key of a child gives that child's name to the written merge |
| Scenarios.RawEntryListed | src/fuse-operations/readdir.js:9-22 | the written readdir of a live directory, or of one whose container lists it, lists every entry an overlay key gives |
| Scenarios.UnlistedEntryAsWritten | src/fuse-operations/readdir.js:9-22 | a name no overlay key gives, and the container does not list, is not listed by the written readdir |
| Scenarios.MkdirRmdirUnlistedAsWritten | src/fuse-operations/readdir.js:9-22 | under a directory not ending in '/', the written readdir lists a directory made there, and once it is removed again no longer does, when no other key gives its name |
| Scenarios.MkdirUnderSlashListsUndefined | src/fuse-operations/readdir.js:9-22 | under a directory ending in '/', such as the root, a directory made there makes the written readdir list `undefined`, where the corrected one lists its name |
| Scenarios.SiblingKeyListedAsUndefined | src/fuse-operations/readdir.js:9-22 | the key of a sibling that extends the directory's name makes the written readdir list `undefined`, though it implies no child |
| Scenarios.SiblingChildListedAsWritten | src/fuse-operations/readdir.js:9-22 | a child of such a sibling makes the written readdir list the child's name, though it implies no child of the directory |

## Left out

- The FUSE mount itself is not modelled: `mountFuse`, `Fuse.mount`, `mkdirp` of the mount point, and the command line in bin.js. They are I/O.
- SafenetworkJs is not part of this model. Its containers, `getSafeContainer`, `defaultContainerNames` and `parentPathNoDot` appear only as parameters or stand-ins:
  - `available`, `defaults`, the remote `Remote<T>` outcomes and the `remoteExists` probe are parameters;
  - `parentPathNoDot` is taken to be posix `dirname` with '.' written as '' (`Paths.Parent`).
- The container operations of `RootHandler` and `RootContainer` other than `listFolder` and `itemAttributesResultsRef` are not modelled, because they delegate to SafenetworkJs containers. That covers readdir, getattr, fgetattr, open, close, create, read, write, truncate, ftruncate, unlink, rename and statfs, and the 'not implemented' stubs. The thin FUSE adapters for them are left out too: open, create, read, write, truncate, ftruncate, fgetattr, statfs, utimens and mknod.
- `VfsCaching.getattr` and its results cache (`_cacheResultForPath`) are not modelled. They are a cache in front of the container. The adapters see only their outcome, as a parameter.
- `initContainer` is modelled only as whether it yields a container (`RootHandler.ContainerInitialises`). The handler state it sets is not modelled: the stored container, and a mount path derived from a URI when none was given.
- Timestamps, uid/gid, version and the other stat fields are left out. They come from the clock and the process. Only mode, nlink and size are modelled.
- The order in which concurrent promise chains interleave is left out. Each operation is modelled as settling in one step. Under the written `getHandler`, the map changes made by a parent lookup whose promise is dropped are left out too.
- Debug logging is left out.
- Paths.Normalize: `path.normalize` is modelled only as collapsing separator runs and mapping '' to '.'; a trailing separator is kept, as Node keeps it. It does not resolve '.' and '..' segments. FUSE hands the core paths without those.
- SafeVfs.Hostpart: SafenetworkJs `hostpart` is not part of this model. It is modelled as the text after an optional 'safe://' up to the first '/', and the contract states only that the host has no separator.
- FuseOps.Unlink: a container delete that fails and resolves to `undefined` is represented by the `Rejected` outcome. The `.wasLastItem` read then throws inside the chain.
- FuseOps.Readdir: uses the corrected merge. What the written merge lists is stated by FuseOps.ReaddirAsWritten.
- Resolve.GetHandler: resolves with the parent's handler awaited. The written behaviour is stated by Resolve.GetHandlerAsWritten, which throws off the keys.
- Scenarios.UnlinkLastItemKeepsParent: the empty listing holds for the written readdir only when no key lies under the directory.
- Scenarios.VirtualRenameLeavesOldName: the written readdir is shown to list both names only under a directory not ending in '/'. Under '/' it lists other entries; see Scenarios.MkdirUnderSlashListsUndefined.
- Scenarios.MkdirListedInParent: the written readdir is shown to list the new name only under a directory not ending in '/'. Under '/' it lists `undefined` instead; see Scenarios.MkdirUnderSlashListsUndefined.
- Scenarios.UnimpliedNameUnlisted: holds for the corrected merge only. Under the written one, a sibling key can list an unimplied name; see Scenarios.SiblingChildListedAsWritten. Its written counterpart is Scenarios.UnlistedEntryAsWritten.
- Scenarios.MkdirRmdirUnlisted: holds for the corrected merge. Its written counterpart is Scenarios.MkdirRmdirUnlistedAsWritten, for a directory not ending in '/'.
- Resolve.LookupAsWritten: models only what the written `getHandler` settles to: the promise of an exact key's answer, or a synchronous throw. The dropped inner promises are not modelled.

## Findings

| source | as written | input that shows it | evidently intended | confidence | as-written member | corrected member |
|---|---|---|---|---|---|---|
| src/safe-vfs/vfs-cache.js:197-200 | every key with the directory as a raw string prefix contributes `entry.substring(itemPath.length).split('/')[1]` | under '/a' the key '/ab' adds `undefined` to the listing; at '/' the key '/x/y' adds 'y' instead of 'x' | each key under `itemPath + '/'` contributes the name of the child it lies under, once | not executed | VfsCache.MergeAsWrittenSiblingKey, FuseOps.ReaddirAsWritten, Scenarios.SiblingChildListedAsWritten | VfsCache.MergeVirtualDirs, FuseOps.Readdir |
| src/safe-vfs/index.js:397-409 | the recursive `getHandler(dirname)` returns the un-awaited promise of `getHandlerFor`, and `.getHandlerFor` is then read off that promise | with '/' and a lazy '/_public' mounted, `getHandler('/_public/docs')` throws a TypeError | the parent's handler is awaited and asked for the path, so the path resolves to the '/_public' handler | not executed | Resolve.AsWrittenCounterexample | Resolve.CoveredResolvesToMount |
| src/fuse-operations/unlink.js:9 | `.unlink` is read off the value of `getHandler`, which is a promise or throws | unlinking any file replies EREMOTEIO and deletes nothing | await the handler, delete, keep an emptied parent as a virtual directory, and reply 0 | not executed | FuseOps.UnlinkAsWritten, FuseOps.UnlinkAsWrittenNeverSucceeds | FuseOps.Unlink |
