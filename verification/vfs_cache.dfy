/**
 * The virtual-directory overlay of `VfsCaching`: a string-keyed table of
 * directories that exist only in memory, laid over remote containers that
 * cannot hold an empty directory.
 *
 * The table is `map<string, bool>`.  `true` is a live virtual directory;
 * `false` is a key whose value was set to `undefined` (by `renameVirtual` or
 * `openVirtual`) rather than deleted.  Readers that test the value see only
 * live entries; readers that iterate the keys (`for ... in`) also see these
 * tombstones.
 */
module VfsCache {
  import opened Wrappers
  import opened Paths

  // The negated Linux errno values fuse-bindings exports.
  const ENOENT: int := -2
  const EEXIST: int := -17
  const ENOTEMPTY: int := -39
  const EREMOTEIO: int := -121

  // The stat modes reported: a regular file (0100644) and a directory (040755).
  const FILE_MODE: int := 33188
  const DIRECTORY_MODE: int := 16877

  type Overlay = map<string, bool>

  /** `_directoryMap[p]` is truthy. */
  predicate Live(ov: Overlay, p: string) {
    p in ov && ov[p]
  }

  /** The entry types SafenetworkJs containers report, plus the overlay's own. */
  datatype EntryType =
    | File | NewFile | FakeContainer | NfsContainer | ServicesContainer
    | Service | DefaultContainer | VirtualDirectory
    | NotFound | DeletedEntry
    | Unrecognised(name: string)

  /** The part of an attributes result that reaches the FUSE reply (times and ids are left out). */
  datatype Attributes = Attributes(entryType: EntryType, isFile: bool, size: int)

  /** The part of a FUSE stat record that the model keeps. */
  datatype Stat = Stat(mode: int, nlink: int, size: int)

  /**
   * A `returnObject`: absent, a directory listing, a listing whose entries
   * may be `undefined` (`None`), as the written merge leaves it, or a stat
   * record.
   */
  datatype Payload = NoPayload | Listing(names: seq<string>) | Entries(entries: seq<Option<string>>) | StatRecord(stat: Stat)

  datatype FuseResult = FuseResult(returnCode: int, returnObject: Payload)

  /** An overlay operation's new table and its result. */
  datatype Step = Step(overlay: Overlay, result: FuseResult)

  /** `new FuseResult(code, object)`: an omitted code means ENOENT. */
  function NewFuseResult(code: Option<int>, obj: Payload): (r: FuseResult)
    ensures r.returnObject == obj
    ensures r.returnCode == code.GetOr(ENOENT)
  {
    FuseResult(code.GetOr(ENOENT), obj)
  }

  /** The eight entry types `_makeGetattrResult` turns into a stat record. */
  predicate Accepted(t: EntryType) {
    || t == File || t == NewFile || t == FakeContainer || t == NfsContainer
    || t == ServicesContainer || t == Service || t == DefaultContainer
    || t == VirtualDirectory
  }

  /**
   * `_makeGetattrResult`: a stat record for the accepted types, the default
   * ENOENT result for everything else (including an undefined result, whose
   * property access throws and is caught).
   */
  function MakeGetattrResult(result: Option<Attributes>): (r: FuseResult)
    ensures r.returnCode == 0 <==> result.Some? && Accepted(result.value.entryType)
    ensures r.returnCode == 0 ==>
      r.returnObject == StatRecord(Stat(if result.value.isFile then FILE_MODE else DIRECTORY_MODE, 1, result.value.size))
    ensures r.returnCode != 0 ==> r == NewFuseResult(None, NoPayload)
  {
    match result
    case Some(a) =>
      if Accepted(a.entryType) then
        FuseResult(0, StatRecord(Stat(if a.isFile then FILE_MODE else DIRECTORY_MODE, 1, a.size)))
      else
        NewFuseResult(None, NoPayload)
    case None => NewFuseResult(None, NoPayload)
  }

  /** The attributes `getattrVirtual` synthesises for a virtual directory. */
  const VirtualDirectoryAttributes: Attributes := Attributes(VirtualDirectory, false, 0)

  /**
   * `mkdirVirtual`.  The trailing-separator test compares
   * `itemPath.substr(itemPath.length)`, which is always '', with '/', so it
   * never fires and the path is stored verbatim.
   */
  function MkdirVirtual(ov: Overlay, p: string): (s: Step)
    ensures p == "" ==> s.overlay == ov && s.result.returnCode == EEXIST
    ensures p != "" ==> s.result.returnCode == 0 && Live(s.overlay, p)
    ensures forall k :: k != p ==> (k in s.overlay <==> k in ov)
    ensures forall k :: k != p && k in ov ==> s.overlay[k] == ov[k]
  {
    if p == "" then Step(ov, NewFuseResult(Some(EEXIST), NoPayload))
    else Step(ov[p := true], NewFuseResult(Some(0), NoPayload))
  }

  /** Some other key, live or tombstone, has `p` as a string prefix. */
  predicate HasEntryUnder(ov: Overlay, p: string) {
    exists k :: k in ov && p <= k && k != p
  }

  /**
   * The paths the re-creation walk of `rmdirVirtual` visits from `q`: each
   * successive ancestor while it is not ''/'/' and the remote probe reports
   * it absent.
   */
  function Walked(q: string, remoteExists: string -> bool): (w: set<string>)
    ensures forall k :: k in w ==> |k| <= |q| && !Terminal(k) && !remoteExists(k)
    ensures !Terminal(q) && !remoteExists(q) ==> q in w
    decreases |q|
  {
    if Terminal(q) || remoteExists(q) then {} else {q} + Walked(Parent(q), remoteExists)
  }

  /** The re-creation walk itself: mark each visited path as a live virtual directory. */
  function RecreateParents(ov: Overlay, q: string, remoteExists: string -> bool): (r: Overlay)
    ensures forall k :: k in ov ==> k in r
    decreases |q|
  {
    if Terminal(q) || remoteExists(q) then ov
    else RecreateParents(MkdirVirtual(ov, q).overlay, Parent(q), remoteExists)
  }

  /**
   * The walk adds or revives exactly the paths it visits, as live
   * directories, and leaves every other key as it was.
   */
  lemma {:induction false} RecreateParentsMarksWalk(ov: Overlay, q: string, remoteExists: string -> bool)
    ensures RecreateParents(ov, q, remoteExists).Keys == ov.Keys + Walked(q, remoteExists)
    ensures forall k :: k in Walked(q, remoteExists) ==> Live(RecreateParents(ov, q, remoteExists), k)
    ensures forall k :: k in ov && k !in Walked(q, remoteExists) ==> RecreateParents(ov, q, remoteExists)[k] == ov[k]
    decreases |q|
  {
    if !(Terminal(q) || remoteExists(q)) {
      var ov1 := MkdirVirtual(ov, q).overlay;
      RecreateParentsMarksWalk(ov1, Parent(q), remoteExists);
      assert q !in Walked(Parent(q), remoteExists);
    }
  }

  /**
   * `rmdirVirtual(itemPath, pathExists)`; `remoteExists` is the answer of the
   * remote `getattr` probe (false means it replied ENOENT).
   */
  function RmdirVirtual(ov: Overlay, p: string, pathExists: bool, remoteExists: string -> bool): (s: Step)
    ensures !pathExists && HasEntryUnder(ov, p) ==> s == Step(ov, FuseResult(ENOTEMPTY, NoPayload))
    ensures (pathExists || !HasEntryUnder(ov, p)) && Live(ov, p) ==>
      && s.result.returnCode == 0
      && p !in s.overlay
      && (forall k :: k in ov && k != p ==> k in s.overlay)
      && (pathExists ==> s.overlay == ov - {p})
      && (!pathExists ==> s.overlay == RecreateParents(ov - {p}, Parent(p), remoteExists))
    ensures (pathExists || !HasEntryUnder(ov, p)) && !Live(ov, p) ==>
      s.overlay == ov && s.result.returnCode == (if remoteExists(p) then ENOTEMPTY else ENOENT)
  {
    if !pathExists && HasEntryUnder(ov, p) then Step(ov, NewFuseResult(Some(ENOTEMPTY), NoPayload))
    else if Live(ov, p) then
      var removed := ov - {p};
      if pathExists then Step(removed, NewFuseResult(Some(0), NoPayload))
      else
        var r := RecreateParents(removed, Parent(p), remoteExists);
        assert p !in r by {
          RecreateParentsMarksWalk(removed, Parent(p), remoteExists);
          if !Terminal(p) {
            assert forall i :: 0 <= i < |Chain(Parent(p))| ==> |Chain(Parent(p))[i]| < |p|;
          }
        }
        Step(r, NewFuseResult(Some(0), NoPayload))
    else if !remoteExists(p) then Step(ov, NewFuseResult(None, NoPayload))
    else Step(ov, NewFuseResult(Some(ENOTEMPTY), NoPayload))
  }

  /** The walk of `closeVirtual` from `q`: delete each live non-terminal path on the chain. */
  function CloseFrom(ov: Overlay, q: string): (r: Overlay)
    ensures forall k :: k in r ==> k in ov && r[k] == ov[k]
    ensures forall k :: k in ov ==> (k !in r <==> Live(ov, k) && !Terminal(k) && k in Chain(q))
    decreases |q|
  {
    if Terminal(q) then ov
    else
      var next := if Live(ov, q) then ov - {q} else ov;
      assert Chain(q) == [q] + Chain(Parent(q));
      assert q !in Chain(Parent(q)) by {
        assert forall i :: 0 <= i < |Chain(Parent(q))| ==> |Chain(Parent(q))[i]| < |q|;
      }
      CloseFrom(next, Parent(q))
  }

  /**
   * `closeVirtual`: a real item now exists at `p`, so every live strict
   * ancestor of `p` above ''/'/' stops being virtual.  The walk goes past
   * ancestors that are not virtual and leaves tombstones alone.
   */
  function CloseVirtual(ov: Overlay, p: string): (s: Step)
    ensures s.result.returnCode == 0
    ensures forall k :: k in s.overlay ==> k in ov && s.overlay[k] == ov[k]
    ensures forall k :: k in ov ==> (k !in s.overlay <==> Live(ov, k) && !Terminal(k) && k in Chain(Parent(p)))
  {
    Step(CloseFrom(ov, Parent(p)), NewFuseResult(Some(0), NoPayload))
  }

  /** `readdirVirtual`: an empty listing for a live virtual directory, otherwise not handled. */
  function ReaddirVirtual(ov: Overlay, p: string): (r: Option<FuseResult>)
    ensures r.Some? <==> Live(ov, p)
    ensures r.Some? ==> r.value == FuseResult(0, Listing([]))
  {
    if Live(ov, p) then Some(NewFuseResult(Some(0), Listing([]))) else None
  }

  /**
   * `readdirVirtual` follows a directory through the overlay operations:
   * it answers after `mkdirVirtual`, stops answering once `rmdirVirtual`
   * removes the directory or `renameVirtual` moves it away (answering for
   * the new name instead), and stops answering for the parent `openVirtual`
   * clears.
   */
  lemma ReaddirVirtualFollowsOverlay(ov: Overlay, p: string, np: string, remoteExists: string -> bool)
    ensures p != "" ==> ReaddirVirtual(MkdirVirtual(ov, p).overlay, p) == Some(FuseResult(0, Listing([])))
    ensures Live(ov, p) ==> ReaddirVirtual(RmdirVirtual(ov, p, true, remoteExists).overlay, p).None?
    ensures Live(ov, p) && np != p ==>
      && ReaddirVirtual(RenameVirtual(ov, p, np).value.overlay, p).None?
      && ReaddirVirtual(RenameVirtual(ov, p, np).value.overlay, np) == Some(FuseResult(0, Listing([])))
    ensures Live(ov, Parent(p)) ==> ReaddirVirtual(OpenVirtual(ov, p), Parent(p)).None?
  {
  }

  /** Every key enumerates the table: `keys` lists each key of `m` once, in iteration order. */
  predicate Enumerates<V>(keys: seq<string>, m: map<string, V>) {
    && (forall i, j :: 0 <= i < j < |keys| ==> keys[i] != keys[j])
    && (forall k :: k in keys ==> k in m)
    && (forall k :: k in m ==> k in keys)
  }

  /** `p` followed by exactly one separator. */
  function DirPrefix(p: string): (b: string)
    ensures p <= b && |b| > 0 && b[|b| - 1] == '/'
  {
    if |p| > 0 && p[|p| - 1] == '/' then p else p + "/"
  }

  /** The name of the child of directory `p` on whose path the key `k` lies, if any. */
  function ChildName(p: string, k: string): (n: Option<string>)
    ensures n.Some? ==> n.value != "" && '/' !in n.value
    ensures n.Some? ==> k == DirPrefix(p) + n.value || DirPrefix(p) + n.value + "/" <= k
  {
    var base := DirPrefix(p);
    if base <= k then
      var seg := Split(k[|base|..], '/')[0];
      FirstSegmentShape(base, k);
      if seg != "" then Some(seg) else None
    else None
  }

  /** The first segment of `k` below `base` is either all of the rest or followed by a separator. */
  lemma FirstSegmentShape(base: string, k: string)
    requires base <= k
    ensures var seg := Split(k[|base|..], '/')[0];
      '/' !in seg && (k == base + seg || base + seg + "/" <= k)
  {
    var rest := k[|base|..];
    var seg := Split(rest, '/')[0];
    FirstFieldPrefix(rest, '/');
    assert k == base + rest;
    if seg != rest {
      PrefixUnderBase(base, seg + "/", rest);
    }
  }

  /** A prefix of `rest` stays a prefix once both follow `base`. */
  lemma PrefixUnderBase(base: string, a: string, rest: string)
    requires a <= rest
    ensures base + a <= base + rest
  {
    assert (base + rest)[..|base + a|] == base + a;
  }

  /** `folders` with the name `n` appended unless it is absent or already listed. */
  function AddName(folders: seq<string>, n: Option<string>): (r: seq<string>)
    ensures folders <= r && |r| <= |folders| + 1
    ensures |r| == |folders| + 1 ==> n.Some? && r[|folders|] == n.value && n.value !in folders
    ensures n.Some? ==> n.value in r
  {
    if n.Some? && n.value !in folders then folders + [n.value] else folders
  }

  /** Some key, in iteration order, lies under the child `n` of directory `p`. */
  predicate Implied(p: string, keys: seq<string>, n: string) {
    exists k :: k in keys && ChildName(p, k) == Some(n)
  }

  /**
   * `mergeVirtualDirs` as it evidently should behave: append to `folders` the
   * name of each child of `p` that the table's keys (in iteration order)
   * lie under, once each, leaving the given names in place.
   */
  function MergeVirtualDirs(p: string, keys: seq<string>, folders: seq<string>): (r: seq<string>)
    ensures folders <= r
    ensures forall i :: |folders| <= i < |r| ==>
      r[i] !in folders && Implied(p, keys, r[i])
    ensures forall i, j :: |folders| <= i < j < |r| ==> r[i] != r[j]
    ensures forall k :: k in keys && ChildName(p, k).Some? ==> ChildName(p, k).value in r
    decreases |keys|
  {
    if |keys| == 0 then folders
    else
      var next := AddName(folders, ChildName(p, keys[0]));
      var r := MergeVirtualDirs(p, keys[1..], next);
      forall n | Implied(p, keys[1..], n)
        ensures Implied(p, keys, n)
      {
        var k :| k in keys[1..] && ChildName(p, k) == Some(n);
        assert k in keys;
      }
      assert ChildName(p, keys[0]).Some? ==> Implied(p, keys, ChildName(p, keys[0]).value) by {
        assert keys[0] in keys;
      }
      forall i | |folders| <= i < |r|
        ensures r[i] !in folders && Implied(p, keys, r[i])
      {
        if i >= |next| {
          assert r[i] !in next && Implied(p, keys[1..], r[i]);
        } else {
          assert r[i] == next[i];
        }
      }
      forall i, j | |folders| <= i < j < |r|
        ensures r[i] != r[j]
      {
        if i < |next| {
          assert r[i] == next[i] && r[i] in next && r[j] !in next;
        }
      }
      forall k | k in keys && ChildName(p, k).Some?
        ensures ChildName(p, k).value in r
      {
        if k != keys[0] {
          assert k in keys[1..];
        }
      }
      r
  }

  /**
   * What the written merge takes from the key `k` for directory `p`: `k` is
   * another key with `p` as a raw string prefix, and `e` is
   * `k.substring(p.length).split('/')[1]`, `None` standing for `undefined`.
   */
  predicate RawEntry(p: string, k: string, e: Option<string>) {
    p <= k && k != p && Field(k[|p|..], '/', 1) == e
  }

  /** Some key, in iteration order, makes the written merge take `e` for `p`. */
  predicate ImpliedAsWritten(p: string, keys: seq<string>, e: Option<string>) {
    exists k :: k in keys && RawEntry(p, k, e)
  }

  /** The names of a container listing, each a defined entry. */
  function Defined(names: seq<string>): (r: seq<Option<string>>)
    ensures |r| == |names| && forall i :: 0 <= i < |r| ==> r[i] == Some(names[i])
  {
    seq(|names|, i requires 0 <= i < |names| => Some(names[i]))
  }

  /** `folders` with the entry the written merge takes from `k` appended, unless there is none or it is already listed. */
  function AddRawEntry(p: string, k: string, folders: seq<Option<string>>): (r: seq<Option<string>>)
    ensures folders <= r && |r| <= |folders| + 1
    ensures |r| == |folders| + 1 ==> RawEntry(p, k, r[|folders|]) && r[|folders|] !in folders
    ensures p <= k && k != p ==> Field(k[|p|..], '/', 1) in r
  {
    if p <= k && k != p then
      var sub := Field(k[|p|..], '/', 1);
      if sub in folders then folders else folders + [sub]
    else folders
  }

  /**
   * `mergeVirtualDirs` as written: for every key with `p` as a raw string
   * prefix it appends `entry.substring(p.length).split('/')[1]`, which is
   * `undefined` (`None`) when the remainder does not start with '/'.
   */
  function MergeVirtualDirsAsWritten(p: string, keys: seq<string>, folders: seq<Option<string>>): (r: seq<Option<string>>)
    ensures folders <= r
    ensures forall i :: |folders| <= i < |r| ==> r[i] !in folders && ImpliedAsWritten(p, keys, r[i])
    ensures forall i, j :: |folders| <= i < j < |r| ==> r[i] != r[j]
    ensures forall k :: k in keys && p <= k && k != p ==> Field(k[|p|..], '/', 1) in r
    decreases |keys|
  {
    if |keys| == 0 then folders
    else
      var next := AddRawEntry(p, keys[0], folders);
      var r := MergeVirtualDirsAsWritten(p, keys[1..], next);
      forall e | ImpliedAsWritten(p, keys[1..], e)
        ensures ImpliedAsWritten(p, keys, e)
      {
        var k :| k in keys[1..] && RawEntry(p, k, e);
        assert k in keys;
      }
      assert |next| == |folders| + 1 ==> ImpliedAsWritten(p, keys, next[|folders|]) by {
        if |next| == |folders| + 1 {
          assert keys[0] in keys;
        }
      }
      forall k | k in keys && p <= k && k != p
        ensures Field(k[|p|..], '/', 1) in r
      {
        if k != keys[0] {
          assert k in keys[1..];
        }
      }
      r
  }

  /** Some key of the table makes the written merge take `e` for `p`. */
  predicate GivenByTable(ov: Overlay, p: string, e: Option<string>) {
    exists k :: k in ov && RawEntry(p, k, e)
  }

  /** The written merge over the keys of a table, stated in terms of the table. */
  lemma MergeAsWrittenOverTable(ov: Overlay, keys: seq<string>, p: string, given: seq<Option<string>>)
    requires Enumerates(keys, ov)
    ensures var r := MergeVirtualDirsAsWritten(p, keys, given);
      forall i :: |given| <= i < |r| ==> GivenByTable(ov, p, r[i])
    ensures forall k :: k in ov && p <= k && k != p ==> Field(k[|p|..], '/', 1) in MergeVirtualDirsAsWritten(p, keys, given)
  {
    var r := MergeVirtualDirsAsWritten(p, keys, given);
    forall i | |given| <= i < |r|
      ensures GivenByTable(ov, p, r[i])
    {
      assert ImpliedAsWritten(p, keys, r[i]);
      var k :| k in keys && RawEntry(p, k, r[i]);
      assert k in ov;
    }
    forall k | k in ov && p <= k && k != p
      ensures Field(k[|p|..], '/', 1) in r
    {
      assert k in keys;
    }
  }

  /** The written merge from an empty listing: exactly the entries the table's keys give, once each. */
  lemma MergeAsWrittenFromEmpty(ov: Overlay, keys: seq<string>, p: string)
    requires Enumerates(keys, ov)
    ensures var r := MergeVirtualDirsAsWritten(p, keys, []);
      && (forall i, j :: 0 <= i < j < |r| ==> r[i] != r[j])
      && (forall e :: e in r <==> GivenByTable(ov, p, e))
  {
    var r := MergeVirtualDirsAsWritten(p, keys, []);
    MergeAsWrittenOverTable(ov, keys, p, []);
    forall e | e in r
      ensures GivenByTable(ov, p, e)
    {
      var i :| 0 <= i < |r| && r[i] == e;
    }
    forall e | GivenByTable(ov, p, e)
      ensures e in r
    {
      var k :| k in ov && RawEntry(p, k, e);
    }
  }

  /**
   * An input on which the written merge goes wrong: under '/a' the
   * sibling key '/ab' contributes `undefined`, where the intended merge
   * contributes nothing.
   */
  lemma MergeAsWrittenSiblingKey()
    ensures MergeVirtualDirsAsWritten("/a", ["/ab"], []) == [None]
    ensures MergeVirtualDirs("/a", ["/ab"], []) == []
  {
    var k := "/ab";
    assert k[|"/a"|..] == "b";
    assert Split("b", '/') == ["b"];
    assert Field(k[|"/a"|..], '/', 1) == None;
    assert ["/ab"][1..] == [];
    assert !("/a/" <= k);
  }

  /**
   * Another: under '/a' the key '/ab/c', below a sibling, contributes 'c',
   * where the intended merge contributes nothing.
   */
  lemma MergeAsWrittenSiblingChild()
    ensures MergeVirtualDirsAsWritten("/a", ["/ab/c"], []) == [Some("c")]
    ensures MergeVirtualDirs("/a", ["/ab/c"], []) == []
  {
    var k := "/ab/c";
    assert k[|"/a"|..] == "b" + ['/'] + "c";
    SplitAfterHead("b", '/', "c");
    assert Split("c", '/') == ["c"];
    assert Field(k[|"/a"|..], '/', 1) == Some("c");
    assert [k][1..] == [];
    assert !("/a/" <= k);
  }

  /**
   * Another: at the root the key '/x/y' contributes 'y', the name of a
   * grandchild, where the intended merge contributes the child 'x'.
   */
  lemma MergeAsWrittenAtRoot()
    ensures MergeVirtualDirsAsWritten("/", ["/x/y"], []) == [Some("y")]
    ensures MergeVirtualDirs("/", ["/x/y"], []) == ["x"]
  {
    var k := "/x/y";
    assert k[1..] == "x" + ['/'] + "y";
    SplitAfterHead("x", '/', "y");
    assert Split("y", '/') == ["y"];
    assert Field(k[1..], '/', 1) == Some("y");
    assert ChildName("/", k) == Some("x");
    assert ["/x/y"][1..] == [];
  }

  /**
   * `getattrVirtual`: a directory record when some key (tombstones included)
   * is `d` or lies under `d + '/'`, otherwise not handled.
   */
  function GetattrVirtual(ov: Overlay, d: string): (r: Option<FuseResult>)
    ensures r.Some? <==> exists k :: k in ov && (k == d || d + "/" <= k)
    ensures r.Some? ==> r.value == FuseResult(0, StatRecord(Stat(DIRECTORY_MODE, 1, 0)))
  {
    if exists k :: k in ov && (k == d || d + "/" <= k) then
      Some(MakeGetattrResult(Some(VirtualDirectoryAttributes)))
    else None
  }

  /**
   * `renameVirtual`: a live virtual directory is renamed by making `np` live
   * and setting the old key to `undefined`, which leaves a tombstone.
   */
  function RenameVirtual(ov: Overlay, p: string, np: string): (r: Option<Step>)
    ensures r.None? <==> !Live(ov, p)
    ensures r.Some? ==>
      && r.value.result.returnCode == 0
      && p in r.value.overlay && !Live(r.value.overlay, p)
      && (np != p ==> Live(r.value.overlay, np))
      && (forall k :: k != p && k != np ==> (k in r.value.overlay <==> k in ov))
      && (forall k :: k != p && k != np && k in ov ==> r.value.overlay[k] == ov[k])
  {
    if Live(ov, p) then Some(Step(ov[np := true][p := false], NewFuseResult(Some(0), NoPayload)))
    else None
  }

  /** The leading run of live paths from `q` upward: the paths `openVirtual`'s walk visits. */
  function LiveRun(q: string, ov: Overlay): (w: set<string>)
    ensures forall k :: k in w ==> |k| <= |q| && Live(ov, k) && k in Chain(q)
    ensures Live(ov, q) ==> q in w
    decreases |q|
  {
    if !Live(ov, q) then {}
    else if Terminal(q) then {q}
    else
      assert Chain(q) == [q] + Chain(Parent(q));
      {q} + LiveRun(Parent(q), ov)
  }

  /** The live run from `q` depends only on paths no longer than `q`. */
  lemma {:induction false} LiveRunFrame(q: string, ov: Overlay, ov': Overlay)
    requires forall k :: |k| <= |q| ==> (Live(ov, k) <==> Live(ov', k))
    ensures LiveRun(q, ov) == LiveRun(q, ov')
    decreases |q|
  {
    if Live(ov, q) && !Terminal(q) {
      LiveRunFrame(Parent(q), ov, ov');
    }
  }

  /** The walk of `openVirtual` from `q`: tombstone each live path until one is not live. */
  function OpenFrom(ov: Overlay, q: string): (r: Overlay)
    ensures r.Keys == ov.Keys
    decreases |q| + (if Live(ov, q) then 1 else 0)
  {
    if Live(ov, q) then OpenFrom(ov[q := false], Parent(q)) else ov
  }

  /** The walk tombstones exactly the live run from `q`; every other value is kept. */
  lemma {:induction false} OpenFromTombstonesLiveRun(ov: Overlay, q: string)
    ensures forall k :: k in LiveRun(q, ov) ==> !OpenFrom(ov, q)[k]
    ensures forall k :: k in ov && k !in LiveRun(q, ov) ==> OpenFrom(ov, q)[k] == ov[k]
    decreases |q| + (if Live(ov, q) then 1 else 0)
  {
    if Live(ov, q) {
      var next := ov[q := false];
      OpenFromTombstonesLiveRun(next, Parent(q));
      if !Terminal(q) {
        LiveRunFrame(Parent(q), ov, next);
        assert q !in LiveRun(Parent(q), ov);
      }
    }
  }

  /**
   * `openVirtual`: opening `p` stops the chain of live virtual ancestors
   * directly above it from being virtual, by setting them to `undefined`.
   * It never handles the open itself.
   */
  function OpenVirtual(ov: Overlay, p: string): (r: Overlay)
    ensures r.Keys == ov.Keys
    ensures forall k :: k in r && r[k] ==> ov[k]
    ensures Live(ov, Parent(p)) ==> !Live(r, Parent(p))
    ensures forall k :: Live(ov, k) && !Live(r, k) ==> k in Chain(Parent(p))
  {
    OpenFromTombstonesLiveRun(ov, Parent(p));
    OpenFrom(ov, Parent(p))
  }
}
