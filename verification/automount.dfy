/**
 * How a `RootHandler` (src/safe-vfs/root.js) answers `getHandlerFor` and
 * `getContainer`: the handler for '/' automounts default containers and
 * `_webMounts` sites, every other handler answers for itself.
 */
module Automount {
  import opened Wrappers
  import opened Paths
  import opened RootHandler
  import opened SafeVfs

  /** Why a lookup threw. */
  datatype Fault =
    | TypeError        // a property read on `undefined`
    | AutomountFailed  // a `_webMounts` container could not be created
    | StackOverflow    // `getHandler` recursing on a `dirname` fixpoint
    | NoHandler        // `getHandler` found no handler

  /** What an asynchronous lookup settles to: a handler, `undefined`, or a rejection. */
  datatype Lookup = Found(handler: Handler) | NoneFound | Threw(fault: Fault)

  datatype Resolution = Resolution(pathMap: PathMap, lookup: Lookup)

  datatype ContainerResult = ContainerResult(pathMap: PathMap, obtained: bool)

  /** The first field after the leading separator of an absolute path is its first segment. */
  lemma FirstSegmentPrefix(p: string)
    ensures p != "" && p[0] == '/' ==> Field(p, '/', 1).Some? && "/" + Field(p, '/', 1).value <= p
  {
    if p != "" && p[0] == '/' {
      assert Split(p, '/') == [""] + Split(p[1..], '/');
      FirstFieldPrefix(p[1..], '/');
      assert p == "/" + p[1..];
    }
  }

  /**
   * `getContainer`.  `held` says whether the handler already holds a
   * container.  A held container is returned when `itemPath` starts with
   * its first segment; a lazy handler other than '/' initialises one now;
   * otherwise the entry for `itemPath` is purged and nothing is returned.
   * The default-container branch before the purge tests `!x === -1`,
   * which is never true, so it is not modelled.
   */
  function GetContainer(pm: PathMap, h: Handler, itemPath: string, held: bool, available: ContainerRef -> bool): (r: ContainerResult)
    ensures r.obtained ==> r.pathMap == pm
    ensures held ==> r.pathMap == pm
    ensures held && itemPath != "" && itemPath[0] == '/' ==> r.obtained
    ensures !held && h.lazyInitialise && !IsRoot(h) ==> r == ContainerResult(pm, ContainerInitialises(h, available))
    ensures !held && !(h.lazyInitialise && !IsRoot(h)) ==> r == ContainerResult(PathMapDelete(pm, itemPath), false)
  {
    // `'/' + undefined` is the string '/undefined'
    var defaultContainerName := "/" + Field(itemPath, '/', 1).GetOr("undefined");
    if held then
      FirstSegmentPrefix(itemPath);
      ContainerResult(pm, defaultContainerName <= itemPath)
    else if h.lazyInitialise && !IsRoot(h) then ContainerResult(pm, ContainerInitialises(h, available))
    else ContainerResult(PathMapDelete(pm, itemPath), false)
  }

  /** The SAFE URI for a `_webMounts` host: the first dot-segment, and the second when non-empty. */
  function WebMountUri(host: string): (uri: string)
    ensures "safe://" <= uri
    ensures '.' !in host ==> uri == "safe://" + host
  {
    var fs := Split(host, '.');
    "safe://" + (if |fs| >= 2 && fs[1] != "" then fs[0] + "." + fs[1] else fs[0])
  }

  /** Dot-segments of a `_webMounts` host past the second do not reach the URI. */
  lemma WebMountUriKeepsTwoSegments(prefix: string, remainder: string, more: string)
    requires '.' !in prefix && '.' !in remainder && remainder != ""
    ensures WebMountUri(prefix + "." + remainder) == "safe://" + prefix + "." + remainder
    ensures WebMountUri(prefix + "." + remainder + "." + more) == "safe://" + prefix + "." + remainder
  {
    var host := prefix + "." + remainder;
    assert host == prefix + ['.'] + remainder;
    SplitAfterHead(prefix, '.', remainder);
    assert Split(host, '.') == [prefix, remainder];
    assert WebMountUri(host) == "safe://" + (prefix + "." + remainder);
    var long := prefix + "." + remainder + "." + more;
    assert long == prefix + ['.'] + remainder + ['.'] + more;
    SplitTwoHeads(prefix, remainder, '.', more);
    var fs := Split(long, '.');
    assert |fs| >= 2 && fs[0] == prefix && fs[1] == remainder;
    assert WebMountUri(long) == "safe://" + (prefix + "." + remainder);
  }

  /** The default container the first segment of `itemPath` names, if it names one. */
  function DefaultName(itemPath: string, defaults: seq<string>): (n: Option<string>)
    ensures n.Some? <==> Field(itemPath, '/', 1).Some? && Field(itemPath, '/', 1).value in defaults
    ensures n.Some? ==> n == Field(itemPath, '/', 1)
  {
    var itemRoot := Field(itemPath, '/', 1);
    if itemRoot.Some? && itemRoot.value in defaults then itemRoot else None
  }

  /** The SAFE URI the default-container automount falls back to: `'safe://' + itemPath.substring(11)`. */
  function FallbackUri(itemPath: string): (uri: string)
    ensures "safe://" <= uri
  {
    "safe://" + SubstringFrom(itemPath, |WEB_MOUNTS_NAME| + 1)
  }

  /**
   * `getHandlerFor` of handler `h`.  `defaults` is SafenetworkJs's list of
   * default container names and `available` decides which containers it
   * can create.
   */
  function GetHandlerFor(pm: PathMap, h: Handler, itemPath: string, defaults: seq<string>,
                         available: ContainerRef -> bool): (r: Resolution)
    ensures h.mountPath == itemPath || !IsRoot(h) ==> r == Resolution(pm, Found(h))
    ensures IsRoot(h) && Dirname(itemPath) == "/" ==> r.lookup.Found?
    ensures IsRoot(h) && itemPath != "/" && Dirname(itemPath) == "/" && DefaultName(itemPath, defaults).None? ==>
      r == Resolution(pm, Found(h))
    ensures IsRoot(h) && itemPath != "/" && Dirname(itemPath) == "/" && DefaultName(itemPath, defaults).Some? ==>
      var name := DefaultName(itemPath, defaults).value;
      var first := MountContainer(pm, MountParams(Some(name), None, None, false), available);
      var second := MountContainer(pm, MountParams(None, Some(FallbackUri(itemPath)), None, false), available);
      && (first.handler.Some? ==>
            && r == Resolution(first.pathMap, Found(first.handler.value))
            && r.lookup.handler.mountPath == Absolute(name) && r.lookup.handler.ref.safePath == Some(name)
            && r.pathMap == PathMapSet(pm, Absolute(name), r.lookup.handler))
      && (first.handler.None? ==> r == Resolution(second.pathMap, Found(second.handler.GetOr(h))))
      && (first.handler.None? && second.handler.Some? ==>
            r.lookup.handler.ref.safeUri == Some(FallbackUri(itemPath)) && r.pathMap == PathMapSet(pm, r.lookup.handler.mountPath, r.lookup.handler))
      && (first.handler.None? && second.handler.None? ==> r == Resolution(pm, Found(h)))
    ensures IsRoot(h) && Dirname(itemPath) != "/" && IsPartOfMountedPath(pm, itemPath) ==> r == Resolution(pm, Found(h))
    ensures IsRoot(h) && h.mountPath != itemPath && Dirname(itemPath) != "/" && !IsPartOfMountedPath(pm, itemPath) ==>
      && (!("/" + WEB_MOUNTS_NAME <= itemPath) ==> r == Resolution(pm, NoneFound))
      && ("/" + WEB_MOUNTS_NAME <= itemPath && Field(itemPath, '/', 2).None? ==> r == Resolution(pm, Threw(TypeError)))
      && ("/" + WEB_MOUNTS_NAME <= itemPath && Field(itemPath, '/', 2).Some? ==>
            var nh := Handler(ContainerRef(None, Some(WebMountUri(Field(itemPath, '/', 2).value))), itemPath, false);
            r == if ContainerInitialises(nh, available) then Resolution(PathMapSet(pm, itemPath, nh), Found(nh))
                 else Resolution(PathMapDelete(pm, itemPath), Threw(AutomountFailed)))
    ensures r.lookup.NoneFound? ==> r.pathMap == pm && !("/" + WEB_MOUNTS_NAME <= itemPath)
    ensures r.lookup.Threw? ==> r.lookup.fault == TypeError || r.lookup.fault == AutomountFailed
    ensures r.lookup == Threw(AutomountFailed) ==> r.pathMap == PathMapDelete(pm, itemPath)
    ensures r.lookup == Threw(TypeError) ==> r.pathMap == pm
    ensures IsRoot(h) && h.mountPath != itemPath && Dirname(itemPath) != "/" && r.lookup.Found? && r.lookup.handler != h ==>
      && r.lookup.handler.mountPath == itemPath && !r.lookup.handler.lazyInitialise
      && r.lookup.handler.ref.safeUri.Some? && "safe://" <= r.lookup.handler.ref.safeUri.value
      && r.pathMap == PathMapSet(pm, itemPath, r.lookup.handler)
  {
    if h.mountPath == itemPath then Resolution(pm, Found(h))
    else if IsRoot(h) && Dirname(itemPath) == "/" then
      var itemRoot := DefaultName(itemPath, defaults);
      if itemRoot.Some? then
        var first := MountContainer(pm, MountParams(Some(itemRoot.value), None, None, false), available);
        if first.handler.Some? then Resolution(first.pathMap, Found(first.handler.value))
        else
          var uri := FallbackUri(itemPath);
          var second := MountContainer(first.pathMap, MountParams(None, Some(uri), None, false), available);
          Resolution(second.pathMap, Found(second.handler.GetOr(h)))
      else Resolution(pm, Found(h))
    else if !IsRoot(h) || IsPartOfMountedPath(pm, itemPath) then Resolution(pm, Found(h))
    else if "/" + WEB_MOUNTS_NAME <= itemPath then
      match Field(itemPath, '/', 2)
      case None => Resolution(pm, Threw(TypeError))
      case Some(host) =>
        var handler := Handler(ContainerRef(None, Some(WebMountUri(host))), itemPath, false);
        // the constructor of a non-lazy handler starts `initContainer`
        var c := GetContainer(pm, handler, itemPath, ContainerInitialises(handler, available), available);
        assert c.obtained == ContainerInitialises(handler, available);
        if c.obtained then Resolution(PathMapSet(c.pathMap, itemPath, handler), Found(handler))
        else Resolution(c.pathMap, Threw(AutomountFailed))
    else Resolution(pm, NoneFound)
  }

  /** A path under '/_webMounts' never normalises to the root key. */
  lemma WebMountPathNotRoot(p: string)
    requires "/" + WEB_MOUNTS_NAME <= p
    ensures Normalize(p) != "/"
  {
    assert p[0] == '/' && p[1] == '_';
    assert Collapse(p) == [p[0]] + Collapse(p[1..]);
  }

  /** The `_webMounts` automount, successful or purged, keeps the path map well formed. */
  lemma WebMountPreservesWellFormed(pm: PathMap, itemPath: string, handler: Handler, available: ContainerRef -> bool)
    requires WellFormed(pm) && "/" + WEB_MOUNTS_NAME <= itemPath
    requires handler.mountPath == itemPath && !handler.lazyInitialise
    ensures var c := GetContainer(pm, handler, itemPath, ContainerInitialises(handler, available), available);
      WellFormed(c.pathMap) && (c.obtained ==> WellFormed(PathMapSet(c.pathMap, itemPath, handler)))
  {
    var held := ContainerInitialises(handler, available);
    var c := GetContainer(pm, handler, itemPath, held, available);
    if !held {
      WebMountPathNotRoot(itemPath);
      DeleteKeepsWellFormed(pm, itemPath);
    }
    if c.obtained {
      SetKeepsWellFormed(c.pathMap, handler);
    }
  }

  /** Every lookup, including its automounts and purges, keeps the path map well formed. */
  lemma GetHandlerForPreservesWellFormed(pm: PathMap, h: Handler, itemPath: string, defaults: seq<string>,
                                         available: ContainerRef -> bool)
    requires WellFormed(pm)
    ensures WellFormed(GetHandlerFor(pm, h, itemPath, defaults, available).pathMap)
  {
    var r := GetHandlerFor(pm, h, itemPath, defaults, available);
    if h.mountPath == itemPath || !IsRoot(h) {
    } else if Dirname(itemPath) == "/" {
      var itemRoot := DefaultName(itemPath, defaults);
      if itemRoot.Some? {
        var first := MountContainer(pm, MountParams(Some(itemRoot.value), None, None, false), available);
        MountContainerPreservesWellFormed(pm, MountParams(Some(itemRoot.value), None, None, false), available);
        var uri := FallbackUri(itemPath);
        MountContainerPreservesWellFormed(first.pathMap, MountParams(None, Some(uri), None, false), available);
      }
    } else if IsPartOfMountedPath(pm, itemPath) {
    } else if "/" + WEB_MOUNTS_NAME <= itemPath {
      match Field(itemPath, '/', 2)
      case None =>
      case Some(host) =>
        var handler := Handler(ContainerRef(None, Some(WebMountUri(host))), itemPath, false);
        WebMountPreservesWellFormed(pm, itemPath, handler, available);
    }
  }
}
