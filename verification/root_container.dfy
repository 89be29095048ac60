/**
 * The `RootContainer` (src/safe-vfs/root.js) behind the handlers for '/'
 * and '/_webMounts': it lists and describes the directories implied by the
 * mount keys of the path map.
 */
module RootContainer {
  import opened Wrappers
  import opened Paths
  import opened RootHandler
  import opened SafeVfs
  import opened VfsCache

  /** `k.indexOf(itemPath) === 1`: the first occurrence of `itemPath` in `k` is at index 1. */
  predicate FirstFoundAtOne(k: string, itemPath: string) {
    |k| >= 1 && !(itemPath <= k) && itemPath <= k[1..]
  }

  /** What `listFolder` takes from one key: nothing, a name, or a `.length` read on `undefined`. */
  datatype Pick = Skip | Name(name: string) | Fail

  function PickFrom(k: string, itemPath: string): (pick: Pick)
    ensures itemPath == "" ==> !pick.Skip?
    ensures pick.Name? ==> '/' !in pick.name
  {
    var segment :=
      if itemPath == "" then Field(k, '/', 1)
      else if FirstFoundAtOne(k, itemPath) then Field(SubstringFrom(k, |itemPath| + 1), '/', 1)
      else None;
    if itemPath != "" && !FirstFoundAtOne(k, itemPath) then Skip
    else if segment.None? then Fail
    else Name(segment.value)
  }

  /**
   * The `forEach` over the keys: each new non-empty name is appended; a
   * failing key ends the walk and the listing so far is returned.
   */
  function ListFrom(keys: seq<string>, itemPath: string, listing: seq<string>): (r: seq<string>)
    ensures listing <= r
    ensures forall i :: |listing| <= i < |r| ==> r[i] != "" && r[i] !in listing
    ensures forall i, j :: |listing| <= i < j < |r| ==> r[i] != r[j]
    decreases |keys|
  {
    if |keys| == 0 then listing
    else
      match PickFrom(keys[0], itemPath)
      case Fail => listing
      case Skip => ListFrom(keys[1..], itemPath, listing)
      case Name(n) => ListFrom(keys[1..], itemPath, if n != "" && n !in listing then listing + [n] else listing)
  }

  /** Every name the walk adds was picked from some key. */
  lemma {:induction false} ListFromSound(keys: seq<string>, itemPath: string, listing: seq<string>)
    ensures forall i :: |listing| <= i < |ListFrom(keys, itemPath, listing)| ==>
      exists j :: 0 <= j < |keys| && PickFrom(keys[j], itemPath) == Name(ListFrom(keys, itemPath, listing)[i])
    decreases |keys|
  {
    if |keys| > 0 && !PickFrom(keys[0], itemPath).Fail? {
      var pick := PickFrom(keys[0], itemPath);
      var next := if pick.Name? && pick.name != "" && pick.name !in listing then listing + [pick.name] else listing;
      ListFromSound(keys[1..], itemPath, next);
      var r := ListFrom(keys, itemPath, listing);
      assert r == ListFrom(keys[1..], itemPath, next);
      forall i | |listing| <= i < |r|
        ensures exists j :: 0 <= j < |keys| && PickFrom(keys[j], itemPath) == Name(r[i])
      {
        if i < |next| {
          assert r[i] == next[i] == pick.name;
          assert PickFrom(keys[0], itemPath) == Name(r[i]);
        } else {
          var j :| 0 <= j < |keys[1..]| && PickFrom(keys[1..][j], itemPath) == Name(r[i]);
          assert keys[1..][j] == keys[j + 1];
        }
      }
    } else {
      assert ListFrom(keys, itemPath, listing) == listing;
    }
  }

  /** When no key fails, every non-empty name a key picks is listed. */
  lemma {:induction false} ListFromComplete(keys: seq<string>, itemPath: string, listing: seq<string>)
    requires forall j :: 0 <= j < |keys| ==> !PickFrom(keys[j], itemPath).Fail?
    ensures var r := ListFrom(keys, itemPath, listing);
      forall j :: 0 <= j < |keys| && PickFrom(keys[j], itemPath).Name? && PickFrom(keys[j], itemPath).name != "" ==>
        PickFrom(keys[j], itemPath).name in r
    decreases |keys|
  {
    if |keys| > 0 {
      var pick := PickFrom(keys[0], itemPath);
      var next := if pick.Name? && pick.name != "" && pick.name !in listing then listing + [pick.name] else listing;
      assert forall j :: 0 <= j < |keys[1..]| ==> keys[1..][j] == keys[j + 1];
      ListFromComplete(keys[1..], itemPath, next);
      var r := ListFrom(keys, itemPath, listing);
      assert r == ListFrom(keys[1..], itemPath, next);
      assert pick.Name? && pick.name != "" ==> pick.name in next;
      forall j | 0 < j < |keys| && PickFrom(keys[j], itemPath).Name? && PickFrom(keys[j], itemPath).name != ""
        ensures PickFrom(keys[j], itemPath).name in r
      {
        assert keys[j] == keys[1..][j - 1];
      }
    }
  }

  /** `listFolder`, with the path map's keys in their iteration order. */
  function ListFolder(keys: seq<string>, itemPath: string): (r: seq<string>)
    ensures forall i :: 0 <= i < |r| ==> r[i] != "" && '/' !in r[i]
    ensures forall i, j :: 0 <= i < j < |r| ==> r[i] != r[j]
    ensures forall i :: 0 <= i < |r| ==> exists j :: 0 <= j < |keys| && PickFrom(keys[j], itemPath) == Name(r[i])
  {
    ListFromSound(keys, itemPath, []);
    ListFrom(keys, itemPath, [])
  }

  /**
   * Listing the root of a well-formed path map yields each top-level mount
   * name exactly once, however many mounts lie below it.
   */
  lemma ListRootNamesTopLevelMounts(pm: PathMap, keys: seq<string>)
    requires WellFormed(pm) && Enumerates(keys, pm)
    ensures var r := ListFolder(keys, "");
      && (forall i, j :: 0 <= i < j < |r| ==> r[i] != r[j])
      && forall n :: n in r <==> n != "" && exists k :: k in pm && Field(k, '/', 1) == Some(n)
  {
    var r := ListFolder(keys, "");
    forall j | 0 <= j < |keys|
      ensures PickFrom(keys[j], "").Name? && Some(PickFrom(keys[j], "").name) == Field(keys[j], '/', 1)
    {
      assert keys[j] in pm;
      WellFormedKeysAbsolute(pm, keys[j]);
      FirstSegmentField(keys[j]);
    }
    ListFromComplete(keys, "", []);
    forall n | n in r
      ensures n != "" && exists k :: k in pm && Field(k, '/', 1) == Some(n)
    {
      var i :| 0 <= i < |r| && r[i] == n;
      var j :| 0 <= j < |keys| && PickFrom(keys[j], "") == Name(r[i]);
      assert keys[j] in pm;
    }
    forall n | n != "" && exists k :: k in pm && Field(k, '/', 1) == Some(n)
      ensures n in r
    {
      var k :| k in pm && Field(k, '/', 1) == Some(n);
      var j :| 0 <= j < |keys| && keys[j] == k;
      assert PickFrom(keys[j], "").name == n;
    }
  }

  /** An absolute path has a field after its leading separator. */
  lemma FirstSegmentField(p: string)
    requires p != "" && p[0] == '/'
    ensures Field(p, '/', 1).Some?
  {
    assert Split(p, '/') == [""] + Split(p[1..], '/');
  }

  /**
   * `itemAttributesResultsRef`: a default-container directory for the
   * root, for every prefix of a mount key and for anything starting with
   * '_webMounts'; `notFound` for everything else.  Timestamps and the
   * results cache are not modelled.
   */
  function ItemAttributesResultsRef(pm: PathMap, itemPath: string): (a: Attributes)
    ensures a.entryType == DefaultContainer <==>
      itemPath == "" || IsPartOfMountedPath(pm, "/" + itemPath) || WEB_MOUNTS_NAME <= itemPath
    ensures a.entryType != DefaultContainer ==> a.entryType == NotFound
    ensures a.entryType == DefaultContainer ==> !a.isFile && a.size == 0
  {
    if itemPath == "" || IsPartOfMountedPath(pm, "/" + itemPath) || WEB_MOUNTS_NAME <= itemPath then
      Attributes(DefaultContainer, false, 0)
    else
      Attributes(NotFound, false, 0)
  }

  /**
   * Through `_makeGetattrResult`, the root container reports a directory
   * exactly where it knows one (the root, every prefix of a mount key, the
   * `_webMounts` tree) and ENOENT elsewhere.
   */
  lemma RootContainerGetattr(pm: PathMap, itemPath: string)
    ensures var r := MakeGetattrResult(Some(ItemAttributesResultsRef(pm, itemPath)));
      && (r.returnCode == 0 <==> itemPath == "" || IsPartOfMountedPath(pm, "/" + itemPath) || WEB_MOUNTS_NAME <= itemPath)
      && (r.returnCode == 0 ==> r.returnObject == StatRecord(Stat(DIRECTORY_MODE, 1, 0)))
      && (r.returnCode != 0 ==> r == FuseResult(ENOENT, NoPayload))
  {
  }
}
