/**
 * `SafeVfs.getHandler` (src/safe-vfs/index.js): the handler for a path is
 * the one registered for it, or else the one found for its `dirname`,
 * which is then asked for the path itself through `getHandlerFor`.
 */
module Resolve {
  import opened Wrappers
  import opened Paths
  import opened RootHandler
  import opened SafeVfs
  import opened Automount

  /** Decreases along every `dirname` step that changes the path. */
  function Measure(p: string): nat {
    2 * |p| + (if p == "." then 0 else 1)
  }

  /**
   * The lookup as its design intends, with the parent's handler awaited.
   * A path missing from the map defers to its `dirname`; a `dirname`
   * fixpoint (only '.' and '/') recurses forever, which is a stack
   * overflow; a parent resolving to no handler throws.
   */
  function Lookup(pm: PathMap, p: string, defaults: seq<string>, available: ContainerRef -> bool): (r: Resolution)
    requires p != ""
    ensures PathMapGet(pm, p).Some? && !IsRoot(PathMapGet(pm, p).value) ==>
      r == Resolution(pm, Found(PathMapGet(pm, p).value))
    decreases Measure(p)
  {
    match PathMapGet(pm, p)
    case Some(h) => GetHandlerFor(pm, h, p, defaults, available)
    case None =>
      var parent := Dirname(p);
      if parent == p then Resolution(pm, Threw(StackOverflow))
      else
        var up := Lookup(pm, parent, defaults, available);
        match up.lookup
        case Found(h) => GetHandlerFor(up.pathMap, h, p, defaults, available)
        case NoneFound => Resolution(up.pathMap, Threw(NoHandler))
        case Threw(_) => up
  }

  /** `getHandler`: the empty path stands for the root. */
  function GetHandler(pm: PathMap, itemPath: string, defaults: seq<string>, available: ContainerRef -> bool): (r: Resolution)
    ensures itemPath == "" ==> r == Lookup(pm, "/", defaults, available)
  {
    Lookup(pm, if itemPath == "" then "/" else itemPath, defaults, available)
  }

  /** `h` is the handler registered at the nearest ancestor of `p` (or `p` itself) present in the map. */
  predicate Covered(pm: PathMap, p: string, h: Handler)
    requires p != ""
    decreases Measure(p)
  {
    match PathMapGet(pm, p)
    case Some(g) => g == h
    case None => Dirname(p) != p && Covered(pm, Dirname(p), h)
  }

  /** With the root mounted, resolving an absolute path never recurses without end. */
  lemma {:induction false} NoOverflowBelowRoot(pm: PathMap, p: string, defaults: seq<string>, available: ContainerRef -> bool)
    requires "/" in pm && p != "" && p[0] == '/'
    ensures Lookup(pm, p, defaults, available).lookup != Threw(StackOverflow)
    decreases Measure(p)
  {
    match PathMapGet(pm, p)
    case Some(h) =>
      var r := GetHandlerFor(pm, h, p, defaults, available);
      assert r.lookup.Threw? ==> r.lookup.fault == TypeError || r.lookup.fault == AutomountFailed;
    case None =>
      assert p != "/" by {
        assert Normalize("/") == "/";
      }
      var parent := Dirname(p);
      assert parent != p && parent != "" && parent[0] == '/';
      NoOverflowBelowRoot(pm, parent, defaults, available);
      var up := Lookup(pm, parent, defaults, available);
      assert up.lookup.Found? ==> GetHandlerFor(up.pathMap, up.lookup.handler, p, defaults, available).lookup != Threw(StackOverflow);
  }

  /** Resolution, with every automount and purge along the way, keeps the path map well formed. */
  lemma {:induction false} LookupPreservesWellFormed(pm: PathMap, p: string, defaults: seq<string>, available: ContainerRef -> bool)
    requires WellFormed(pm) && p != ""
    ensures WellFormed(Lookup(pm, p, defaults, available).pathMap)
    decreases Measure(p)
  {
    match PathMapGet(pm, p)
    case Some(h) =>
      GetHandlerForPreservesWellFormed(pm, h, p, defaults, available);
    case None =>
      var parent := Dirname(p);
      if parent != p {
        LookupPreservesWellFormed(pm, parent, defaults, available);
        var up := Lookup(pm, parent, defaults, available);
        if up.lookup.Found? {
          GetHandlerForPreservesWellFormed(up.pathMap, up.lookup.handler, p, defaults, available);
        }
      }
  }

  /**
   * A path below a mount other than '/' resolves to that mount's handler,
   * leaving the path map as it was.
   */
  lemma {:induction false} CoveredResolvesToMount(pm: PathMap, p: string, h: Handler, defaults: seq<string>,
                                                  available: ContainerRef -> bool)
    requires p != "" && Covered(pm, p, h) && !IsRoot(h)
    ensures Lookup(pm, p, defaults, available) == Resolution(pm, Found(h))
    decreases Measure(p)
  {
    if PathMapGet(pm, p).None? {
      CoveredResolvesToMount(pm, Dirname(p), h, defaults, available);
    }
  }

  /** '/' is the nearest mounted ancestor of `p`: no ancestor strictly between is a key. */
  predicate RootIsNearest(pm: PathMap, p: string)
    requires p != ""
    decreases Measure(p)
  {
    PathMapGet(pm, p).None? && Dirname(p) != p &&
    (Dirname(p) == "/" || RootIsNearest(pm, Dirname(p)))
  }

  /** The top-level ancestor of `p` (or `p` itself) on its `dirname` chain down to '/'. */
  function TopAncestor(pm: PathMap, p: string): (t: string)
    requires p != "" && RootIsNearest(pm, p)
    ensures t != "" && Dirname(t) == "/" && RootIsNearest(pm, t)
    decreases Measure(p)
  {
    if Dirname(p) == "/" then p else TopAncestor(pm, Dirname(p))
  }

  /** A path whose nearest mounted ancestor is '/' is absolute. */
  lemma {:induction false} RootIsNearestAbsolute(pm: PathMap, p: string)
    requires p != "" && RootIsNearest(pm, p)
    ensures p[0] == '/'
    decreases Measure(p)
  {
    if Dirname(p) != "/" {
      RootIsNearestAbsolute(pm, Dirname(p));
    }
  }

  /**
   * Below a top-level path that names no default container, and outside
   * '/_webMounts', the root handler mounts nothing: each path on the way
   * resolves, with the map unchanged, to the root handler, to no handler,
   * or to the "getHandler() failed" throw; the top-level path resolves to
   * the root, and a deeper path that is part of no mount never does.
   */
  lemma {:induction false} UnmountedBelowRoot(pm: PathMap, p: string, defaults: seq<string>, available: ContainerRef -> bool)
    requires WellFormed(pm) && p != "" && RootIsNearest(pm, p) && IsRoot(pm["/"])
    requires DefaultName(TopAncestor(pm, p), defaults).None? && !("/" + WEB_MOUNTS_NAME <= p)
    ensures QuietAnswer(pm, Lookup(pm, p, defaults, available), pm["/"])
    ensures p == TopAncestor(pm, p) ==> Lookup(pm, p, defaults, available).lookup == Found(pm["/"])
    ensures p != TopAncestor(pm, p) && !IsPartOfMountedPath(pm, p) ==>
      Lookup(pm, p, defaults, available).lookup != Found(pm["/"])
    decreases Measure(p)
  {
    var root := pm["/"];
    var parent := Dirname(p);
    assert Normalize("/") == "/";
    assert PathMapGet(pm, "/") == Some(root);
    assert p != "/";
    if parent == "/" {
      assert Lookup(pm, "/", defaults, available) == Resolution(pm, Found(root));
      assert Lookup(pm, p, defaults, available) == GetHandlerFor(pm, root, p, defaults, available);
      RootAnswersTop(pm, root, p, defaults, available);
    } else {
      RootIsNearestAbsolute(pm, p);
      ParentOutsideWebMounts(p);
      assert TopAncestor(pm, p) == TopAncestor(pm, parent);
      UnmountedBelowRoot(pm, parent, defaults, available);
      QuietStep(pm, p, defaults, available);
    }
  }

  /** The parent of an absolute path outside '/_webMounts' is outside it too. */
  lemma ParentOutsideWebMounts(p: string)
    requires p != "" && p[0] == '/' && !("/" + WEB_MOUNTS_NAME <= p)
    ensures !("/" + WEB_MOUNTS_NAME <= Dirname(p))
  {
  }

  /** One `dirname` step below the top level keeps a quiet answer quiet. */
  lemma QuietStep(pm: PathMap, p: string, defaults: seq<string>, available: ContainerRef -> bool)
    requires p != "" && p != "/" && PathMapGet(pm, p).None? && Dirname(p) != p && Dirname(p) != "/"
    requires "/" in pm && IsRoot(pm["/"]) && !("/" + WEB_MOUNTS_NAME <= p)
    requires QuietAnswer(pm, Lookup(pm, Dirname(p), defaults, available), pm["/"])
    ensures QuietAnswer(pm, Lookup(pm, p, defaults, available), pm["/"])
    ensures !IsPartOfMountedPath(pm, p) ==> Lookup(pm, p, defaults, available).lookup != Found(pm["/"])
  {
    var up := Lookup(pm, Dirname(p), defaults, available);
    if up.lookup.Found? {
      RootAnswersBelowTop(pm, pm["/"], p, defaults, available);
    }
  }

  /** The map is unchanged and the answer is the root handler, no handler, or "getHandler() failed". */
  predicate QuietAnswer(pm: PathMap, r: Resolution, root: Handler) {
    r.pathMap == pm && (r.lookup == Found(root) || r.lookup == NoneFound || r.lookup == Threw(NoHandler))
  }

  /** A top-level path that names no default container is the root's own. */
  lemma RootAnswersTop(pm: PathMap, h: Handler, p: string, defaults: seq<string>, available: ContainerRef -> bool)
    requires IsRoot(h) && p != "/" && Dirname(p) == "/" && DefaultName(p, defaults).None?
    ensures GetHandlerFor(pm, h, p, defaults, available) == Resolution(pm, Found(h))
  {
  }

  /** Below the top level and outside '/_webMounts', the root answers itself or no handler, mounting nothing. */
  lemma RootAnswersBelowTop(pm: PathMap, h: Handler, p: string, defaults: seq<string>, available: ContainerRef -> bool)
    requires IsRoot(h) && p != "/" && Dirname(p) != "/" && !("/" + WEB_MOUNTS_NAME <= p)
    ensures var r := GetHandlerFor(pm, h, p, defaults, available);
      r.pathMap == pm && (r.lookup == Found(h) || r.lookup == NoneFound)
      && (!IsPartOfMountedPath(pm, p) ==> r.lookup == NoneFound)
  {
  }

  /**
   * A path whose nearest mounted ancestor is '/' resolves through the root
   * handler: its top-level ancestor is whatever the root's `getHandlerFor`
   * answers for it.  When the root mounts nothing on the way and the
   * parent is part of no mount, the path throws "getHandler() failed".
   */
  lemma {:induction false} LookupBelowRoot(pm: PathMap, p: string, defaults: seq<string>, available: ContainerRef -> bool)
    requires WellFormed(pm) && p != "" && RootIsNearest(pm, p)
    ensures var t := TopAncestor(pm, p);
      Lookup(pm, t, defaults, available) == GetHandlerFor(pm, pm["/"], t, defaults, available)
    ensures var t := TopAncestor(pm, p);
      && p != t && Dirname(p) != t && IsRoot(pm["/"]) && DefaultName(t, defaults).None?
      && !IsPartOfMountedPath(pm, Dirname(p)) && !("/" + WEB_MOUNTS_NAME <= Dirname(p)) ==>
      Lookup(pm, p, defaults, available) == Resolution(pm, Threw(NoHandler))
    decreases Measure(p)
  {
    var parent := Dirname(p);
    if parent == "/" {
      assert Normalize("/") == "/";
      assert PathMapGet(pm, "/") == Some(pm["/"]);
      assert Lookup(pm, "/", defaults, available) == Resolution(pm, Found(pm["/"]));
    } else {
      LookupBelowRoot(pm, parent, defaults, available);
      var t := TopAncestor(pm, p);
      if parent != t && IsRoot(pm["/"]) && DefaultName(t, defaults).None?
         && !IsPartOfMountedPath(pm, parent) && !("/" + WEB_MOUNTS_NAME <= parent) {
        UnmountedBelowRoot(pm, parent, defaults, available);
      }
    }
  }

  /**
   * `getHandler` as written: the recursive call returns the un-awaited
   * promise of `getHandlerFor` (or throws), and `.getHandlerFor` is then
   * read off that promise, which throws a TypeError.  Only what the call
   * settles to is modelled: an exact key yields the promise of its
   * handler's answer, every other path throws synchronously.
   */
  function LookupAsWritten(pm: PathMap, p: string, defaults: seq<string>, available: ContainerRef -> bool): (l: Lookup)
    requires p != ""
    ensures l.Found? ==> PathMapGet(pm, p).Some?
    decreases Measure(p)
  {
    match PathMapGet(pm, p)
    case Some(h) => GetHandlerFor(pm, h, p, defaults, available).lookup
    case None =>
      var parent := Dirname(p);
      if parent == p then Threw(StackOverflow)
      else if PathMapGet(pm, parent).Some? then Threw(TypeError)
      else LookupAsWritten(pm, parent, defaults, available)
  }

  /** As written, every path that is not itself a key throws. */
  lemma {:induction false} AsWrittenThrowsOffKey(pm: PathMap, p: string, defaults: seq<string>, available: ContainerRef -> bool)
    requires p != "" && PathMapGet(pm, p).None?
    ensures LookupAsWritten(pm, p, defaults, available).Threw?
    decreases Measure(p)
  {
    var parent := Dirname(p);
    if parent != p && PathMapGet(pm, parent).None? {
      AsWrittenThrowsOffKey(pm, parent, defaults, available);
    }
  }

  /** A value `getHandler` can hand its caller: a handler itself, or a promise settling to a lookup. */
  datatype Value = HandlerValue(handler: Handler) | PromiseValue(settles: Lookup)

  /** The methods of a `RootHandler` (src/safe-vfs/root.js). */
  const HandlerMethods: set<string> := {
    "mountSafeContainer", "getHandlerFor", "getContainer", "initContainer", "pruneMountPath", "fuseToNfsFlags",
    "readdir", "mkdir", "statfs", "getattr", "fgetattr", "open", "close", "ftruncate", "truncate", "read",
    "create", "write", "unlink", "rename", "rmdir", "mknod", "utimens"}

  /** Whether `name` is a method of `v`: a promise has only `then`, `catch` and `finally`. */
  predicate HasMethod(v: Value, name: string) {
    match v
    case HandlerValue(_) => name in HandlerMethods
    case PromiseValue(_) => name in {"then", "catch", "finally"}
  }

  /**
   * What the written `getHandler` hands back: `None` for a synchronous
   * throw, otherwise the promise that `getHandlerFor`, being `async`,
   * returns.  It never hands back a handler itself.
   */
  function GetHandlerAsWritten(pm: PathMap, itemPath: string, defaults: seq<string>, available: ContainerRef -> bool): (v: Option<Value>)
    ensures var p := if itemPath == "" then "/" else itemPath;
      && (v.None? <==> PathMapGet(pm, p).None?)
      && (v.Some? ==> v.value == PromiseValue(GetHandler(pm, itemPath, defaults, available).lookup))
  {
    var p := if itemPath == "" then "/" else itemPath;
    if PathMapGet(pm, p).None? then
      AsWrittenThrowsOffKey(pm, p, defaults, available);
      None
    else
      AsWrittenAgreesOnKeys(pm, p, defaults, available);
      Some(PromiseValue(LookupAsWritten(pm, p, defaults, available)))
  }

  /** On exact keys the written and the intended lookups agree. */
  lemma AsWrittenAgreesOnKeys(pm: PathMap, p: string, defaults: seq<string>, available: ContainerRef -> bool)
    requires p != "" && PathMapGet(pm, p).Some?
    ensures LookupAsWritten(pm, p, defaults, available) == Lookup(pm, p, defaults, available).lookup
  {
  }

  lemma SampleDirname()
    ensures Dirname("/_public/docs") == "/_public"
  {
    var p := "/_public/docs";
    assert DirnameEnd(p, 8, false) == 8;
    assert DirnameEnd(p, 10, false) == 8;
    assert DirnameEnd(p, 12, true) == 8;
  }

  lemma SampleNormalForms()
    ensures Normalize("/_public/docs") == "/_public/docs"
    ensures Normalize("/_public") == "/_public"
  {
    var p := "/_public/docs";
    forall i | 0 <= i < |p| - 1
      ensures !(p[i] == '/' && p[i + 1] == '/')
    {
    }
    assert NoDoubleSlash("/_public") by {
      assert "/_public" == p[..8];
    }
  }

  /**
   * The discrepancy on one input: with '/_public' mounted lazily, the
   * file '/_public/docs' belongs to the '/_public' handler, yet the
   * written lookup throws.
   */
  lemma AsWrittenCounterexample(defaults: seq<string>, available: ContainerRef -> bool)
    ensures var root := Handler(ContainerRef(Some("/"), None), "/", false);
      var public := Handler(ContainerRef(Some("_public"), None), "/_public", true);
      var pm := map["/" := root, "/_public" := public];
      && LookupAsWritten(pm, "/_public/docs", defaults, available) == Threw(TypeError)
      && Lookup(pm, "/_public/docs", defaults, available) == Resolution(pm, Found(public))
  {
    var root := Handler(ContainerRef(Some("/"), None), "/", false);
    var public := Handler(ContainerRef(Some("_public"), None), "/_public", true);
    var pm := map["/" := root, "/_public" := public];
    var p := "/_public/docs";
    SampleDirname();
    SampleNormalForms();
    assert p !in pm;
    assert Covered(pm, p, public);
    CoveredResolvesToMount(pm, p, public, defaults, available);
  }
}
