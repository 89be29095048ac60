/**
 * The `SafeVfs` path map (src/safe-vfs/index.js): mount paths, normalised,
 * mapped to the handlers that serve them, and `mountContainer`, which
 * derives a mount path from a container reference and registers a handler.
 */
module SafeVfs {
  import opened Wrappers
  import opened Paths
  import opened RootHandler

  type PathMap = map<string, Handler>

  /** `pathMapSet`: the handler stored under the normalised mount path. */
  function PathMapSet(pm: PathMap, mountPath: string, h: Handler): (r: PathMap)
    ensures r.Keys == pm.Keys + {Normalize(mountPath)}
    ensures r[Normalize(mountPath)] == h
    ensures forall k :: k in pm && k != Normalize(mountPath) ==> r[k] == pm[k]
  {
    pm[Normalize(mountPath) := h]
  }

  /** `pathMapGet`: the handler under the normalised mount path, if any. */
  function PathMapGet(pm: PathMap, mountPath: string): (r: Option<Handler>)
    ensures r.Some? <==> Normalize(mountPath) in pm
    ensures r.Some? ==> r.value == pm[Normalize(mountPath)]
  {
    var k := Normalize(mountPath);
    if k in pm then Some(pm[k]) else None
  }

  /** `pathMapDelete`: the entry under the normalised mount path removed. */
  function PathMapDelete(pm: PathMap, mountPath: string): (r: PathMap)
    ensures r.Keys == pm.Keys - {Normalize(mountPath)}
    ensures forall k :: k in r ==> r[k] == pm[k]
  {
    pm - {Normalize(mountPath)}
  }

  /**
   * Two spellings of a path that normalise alike address one entry: a set
   * under one is read back under the other, and a delete under one removes
   * it for both.
   */
  lemma SameNormalFormSameEntry(pm: PathMap, a: string, b: string, h: Handler)
    requires Normalize(a) == Normalize(b)
    ensures PathMapGet(pm, a) == PathMapGet(pm, b)
    ensures PathMapGet(PathMapSet(pm, a, h), b) == Some(h)
    ensures PathMapGet(PathMapDelete(pm, a), b) == None
  {
  }

  /** Looking up an already normalised path is looking up the path itself. */
  lemma GetNormalizedPath(pm: PathMap, p: string)
    ensures PathMapGet(pm, Normalize(p)) == PathMapGet(pm, p)
  {
    NormalizeIdempotent(p);
  }

  /** `isPartOfMountedPath`: some mount key starts with `p`. */
  predicate IsPartOfMountedPath(pm: PathMap, p: string) {
    exists k :: k in pm && p <= k
  }

  /**
   * The `forEach` scan of `isPartOfMountedPath` over the mount keys in
   * iteration order: the flag is set by any key that starts with `p`.
   */
  function ScanMounted(keys: seq<string>, p: string): (b: bool)
    ensures b <==> exists i :: 0 <= i < |keys| && p <= keys[i]
    decreases |keys|
  {
    if |keys| == 0 then false
    else
      var rest := ScanMounted(keys[1..], p);
      assert forall i :: 0 < i < |keys| ==> keys[i] == keys[1..][i - 1];
      if p <= keys[0] then true else rest
  }

  /** Whatever the iteration order, the scan answers whether the path is part of a mount. */
  lemma ScanMountedIsPartOfMountedPath(pm: PathMap, keys: seq<string>, p: string)
    requires forall k :: k in keys <==> k in pm
    ensures ScanMounted(keys, p) <==> IsPartOfMountedPath(pm, p)
  {
    if IsPartOfMountedPath(pm, p) {
      var k :| k in pm && p <= k;
      var i :| 0 <= i < |keys| && keys[i] == k;
    }
    if ScanMounted(keys, p) {
      var i :| 0 <= i < |keys| && p <= keys[i];
      assert keys[i] in keys;
    }
  }

  /**
   * The path map as every operation leaves it: the root handler is
   * present, every key is the normal form of its handler's mount path, and
   * every mount path is absolute.
   */
  predicate WellFormed(pm: PathMap) {
    && "/" in pm
    && forall k :: k in pm ==> k == Normalize(pm[k].mountPath) && pm[k].mountPath != "" && pm[k].mountPath[0] == '/'
  }

  /** A key of a well-formed map is absolute. */
  lemma WellFormedKeysAbsolute(pm: PathMap, k: string)
    requires WellFormed(pm) && k in pm
    ensures k != "" && k[0] == '/'
  {
  }

  /** The arguments of `mountContainer`; `None` stands for an absent field. */
  datatype MountParams = MountParams(safePath: Option<string>, safeUri: Option<string>,
                                     mountPath: Option<string>, lazyInitialise: bool)

  /** JavaScript truthiness of an optional string: present and non-empty. */
  predicate Truthy(s: Option<string>) {
    s.Some? && s.value != ""
  }

  /**
   * SafenetworkJs `hostpart`, reduced to what a mount path needs: the text
   * after an optional `safe://` up to the first separator.
   */
  function Hostpart(uri: string): (host: string)
    ensures '/' !in host
  {
    var rest := if "safe://" <= uri then uri[7..] else uri;
    Split(rest, '/')[0]
  }

  /** The `_webMounts` path for a host: '[service.]public' from its first two dot-segments. */
  function MountPathFromHost(host: string): (mp: string)
    ensures "/" + WEB_MOUNTS_NAME + "/" <= mp
    ensures '.' !in host ==> mp == "/" + WEB_MOUNTS_NAME + "/" + host
  {
    if '.' !in host then "/_webMounts/" + host
    else
      var fs := Split(host, '.');
      var serviceName := fs[0];
      var publicName := fs[1];
      "/_webMounts/" + (if serviceName != "" then serviceName + "." else "") + publicName
  }

  /** `_makeMountPathFromUri`. */
  function MakeMountPathFromUri(uri: string): (mp: string)
    ensures "/" + WEB_MOUNTS_NAME + "/" <= mp
  {
    MountPathFromHost(Hostpart(uri))
  }

  /**
   * A host 'service.public' mounts at '/_webMounts/service.public', and any
   * further dot-segments of the host are dropped.
   */
  lemma MountPathKeepsTwoSegments(service: string, public: string, more: string)
    requires service != "" && '.' !in service && '.' !in public
    ensures MountPathFromHost(service + "." + public) == "/_webMounts/" + service + "." + public
    ensures MountPathFromHost(service + "." + public + "." + more) == "/_webMounts/" + service + "." + public
  {
    var host := service + "." + public;
    assert host == service + ['.'] + public;
    assert host[|service|] == '.';
    SplitAfterHead(service, '.', public);
    MountPathOfFields(host, service, public);
    var long := service + "." + public + "." + more;
    assert long == service + ['.'] + public + ['.'] + more;
    assert long[|service|] == '.';
    SplitTwoHeads(service, public, '.', more);
    MountPathOfFields(long, service, public);
  }

  /** A host whose first two dot-fields are `service` and `public` mounts at '/_webMounts/service.public'. */
  lemma MountPathOfFields(host: string, service: string, public: string)
    requires '.' in host && service != ""
    requires |Split(host, '.')| >= 2 && Split(host, '.')[0] == service && Split(host, '.')[1] == public
    ensures MountPathFromHost(host) == "/_webMounts/" + service + "." + public
  {
    assert MountPathFromHost(host) == "/_webMounts/" + (service + ".") + public;
  }

  /**
   * The mount path `mountContainer` settles on: `mountPath` when truthy,
   * else `safePath` when truthy, else the path derived from a truthy
   * `safeUri`; otherwise `mountPath` as given, possibly absent.
   */
  function ChosenMountPath(params: MountParams): (mp: Option<string>)
    ensures Truthy(params.mountPath) ==> mp == params.mountPath
    ensures !Truthy(params.mountPath) && Truthy(params.safePath) ==> mp == params.safePath
    ensures !Truthy(params.mountPath) && !Truthy(params.safePath) && Truthy(params.safeUri) ==>
      mp == Some(MakeMountPathFromUri(params.safeUri.value))
    ensures mp.None? ==> params.mountPath.None?
  {
    if Truthy(params.mountPath) then params.mountPath
    else if Truthy(params.safePath) then params.safePath
    else if Truthy(params.safeUri) then Some(MakeMountPathFromUri(params.safeUri.value))
    else params.mountPath
  }

  /** The mount path with a leading separator added when it lacks one. */
  function Absolute(mp: string): (full: string)
    ensures full != "" && full[0] == '/'
    ensures mp != "" && mp[0] == '/' ==> full == mp
    ensures !(mp != "" && mp[0] == '/') ==> full == "/" + mp
  {
    if mp != "" && mp[0] == '/' then mp else "/" + mp
  }

  datatype MountResult = MountResult(pathMap: PathMap, handler: Option<Handler>)

  /**
   * `mountContainer`.  An absent mount path makes `path.normalize` throw, so
   * nothing is mounted.  The presence check looks the chosen path up as it
   * is, before the leading separator is added; the handler is registered
   * under the absolute path when it is lazy or its container initialises.
   * Every failure resolves to `undefined` with the map unchanged.
   */
  function MountContainer(pm: PathMap, params: MountParams, available: ContainerRef -> bool): (r: MountResult)
    ensures r.handler.None? ==> r.pathMap == pm
    ensures r.handler.Some? <==>
      && ChosenMountPath(params).Some?
      && PathMapGet(pm, ChosenMountPath(params).value).None?
      && (params.lazyInitialise ||
          ContainerInitialises(Handler(ContainerRef(params.safePath, params.safeUri),
                                       Absolute(ChosenMountPath(params).value), false), available))
    ensures r.handler.Some? ==>
      && r.handler.value == Handler(ContainerRef(params.safePath, params.safeUri),
                                    Absolute(ChosenMountPath(params).value), params.lazyInitialise)
      && r.pathMap == PathMapSet(pm, r.handler.value.mountPath, r.handler.value)
  {
    var mp := ChosenMountPath(params);
    if mp.None? then MountResult(pm, None)
    else if PathMapGet(pm, mp.value).Some? then MountResult(pm, None)
    else
      var h := Handler(ContainerRef(params.safePath, params.safeUri), Absolute(mp.value), params.lazyInitialise);
      if params.lazyInitialise || ContainerInitialises(h, available) then
        MountResult(PathMapSet(pm, h.mountPath, h), Some(h))
      else MountResult(pm, None)
  }

  /** Storing a handler under its own absolute mount path keeps the path map well formed. */
  lemma SetKeepsWellFormed(pm: PathMap, h: Handler)
    requires WellFormed(pm) && h.mountPath != "" && h.mountPath[0] == '/'
    ensures WellFormed(PathMapSet(pm, h.mountPath, h))
  {
  }

  /** Removing any entry but the root keeps the path map well formed. */
  lemma DeleteKeepsWellFormed(pm: PathMap, mountPath: string)
    requires WellFormed(pm) && Normalize(mountPath) != "/"
    ensures WellFormed(PathMapDelete(pm, mountPath))
  {
  }

  /** Mounting keeps the path map well formed. */
  lemma MountContainerPreservesWellFormed(pm: PathMap, params: MountParams, available: ContainerRef -> bool)
    requires WellFormed(pm)
    ensures WellFormed(MountContainer(pm, params, available).pathMap)
  {
    var r := MountContainer(pm, params, available);
    if r.handler.Some? {
      SetKeepsWellFormed(pm, r.handler.value);
    }
  }

  /**
   * The presence check tests the path before the leading separator is
   * added: with '/_public' already mounted, a mount with safePath
   * '_public' looks up '_public', finds nothing, and overwrites the entry.
   */
  lemma MountOverwritesPrefixedEntry(pm: PathMap, name: string, available: ContainerRef -> bool)
    requires WellFormed(pm) && name != "" && '/' !in name && "/" + name in pm
    ensures var r := MountContainer(pm, MountParams(Some(name), None, None, true), available);
      && r.handler.Some?
      && r.pathMap.Keys == pm.Keys
      && r.pathMap["/" + name] == Handler(ContainerRef(Some(name), None), "/" + name, true)
  {
    var params := MountParams(Some(name), None, None, true);
    NameNormalForms(name);
    assert name !in pm by {
      if name in pm {
        WellFormedKeysAbsolute(pm, name);
      }
    }
    assert PathMapGet(pm, name).None?;
    var h := Handler(ContainerRef(Some(name), None), "/" + name, true);
    assert ChosenMountPath(params) == Some(name);
    assert Absolute(name) == "/" + name;
    var r := MountContainer(pm, params, available);
    assert r.handler == Some(h);
    assert r.pathMap == PathMapSet(pm, "/" + name, h);
    assert r.pathMap.Keys == pm.Keys + {"/" + name};
  }

  /** A separator-free name, and the name after one separator, are their own normal forms. */
  lemma NameNormalForms(name: string)
    requires name != "" && '/' !in name
    ensures Normalize(name) == name
    ensures Normalize("/" + name) == "/" + name
  {
    assert NoDoubleSlash(name);
    assert NoDoubleSlash("/" + name) by {
      forall i | 0 <= i < |"/" + name| - 1
        ensures !(("/" + name)[i] == '/' && ("/" + name)[i + 1] == '/')
      {
        assert ("/" + name)[i + 1] == name[i];
      }
    }
  }

  /** `initialisePathMap`: a fresh map holding only the root handler. */
  function InitialisePathMap(available: ContainerRef -> bool): (pm: PathMap)
    ensures pm.Keys == {"/"}
    ensures pm["/"] == Handler(ContainerRef(Some("/"), None), "/", false)
    ensures WellFormed(pm)
  {
    MountContainer(map[], MountParams(Some("/"), None, None, false), available).pathMap
  }

  /** `unmountPath`: the entry for the path removed. */
  function UnmountPath(pm: PathMap, mountPath: string): (r: PathMap)
    ensures r.Keys == pm.Keys - {Normalize(mountPath)}
    ensures forall k :: k in r ==> r[k] == pm[k]
    ensures WellFormed(pm) && Normalize(mountPath) != "/" ==> WellFormed(r)
  {
    PathMapDelete(pm, mountPath)
  }

  /** `unmountFuse`: the map is emptied once FUSE reports the unmount, and kept otherwise. */
  function UnmountFuse(pm: PathMap, unmounted: bool): (r: PathMap)
    ensures unmounted ==> r == map[]
    ensures !unmounted ==> r == pm
  {
    if unmounted then map[] else pm
  }
}
