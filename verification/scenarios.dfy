/**
 * End-to-end behaviour of the FUSE adapters over the virtual-directory
 * overlay: what a sequence of operations leaves visible to the next one.
 */
module Scenarios {
  import opened Wrappers
  import opened Paths
  import opened VfsCache
  import opened FuseOps

  const DirectoryReply: Reply := Reply(0, StatRecord(Stat(DIRECTORY_MODE, 1, 0)))

  /** The key for a child `n` of `d` names that child. */
  lemma ChildOfPrefix(d: string, n: string)
    requires n != "" && '/' !in n
    ensures ChildName(d, DirPrefix(d) + n) == Some(n)
  {
    assert (DirPrefix(d) + n)[|DirPrefix(d)|..] == n;
  }

  /** A directory is not its own child. */
  lemma NotOwnChild(d: string)
    ensures ChildName(d, d).None?
  {
    if DirPrefix(d) <= d {
      assert d[|DirPrefix(d)|..] == "";
    }
  }

  /** As written, the key for a child `n` of a directory `d` not ending in '/' gives the entry `n`. */
  lemma RawEntryOfChild(d: string, n: string)
    requires d != "" && d[|d| - 1] != '/' && n != "" && '/' !in n
    ensures DirPrefix(d) == d + "/"
    ensures RawEntry(d, d + "/" + n, Some(n))
  {
    var k := d + "/" + n;
    assert k[|d|..] == "/" + n;
    assert Split("/" + n, '/') == [""] + Split(n, '/');
  }

  /**
   * Deleting the last file of a directory leaves the directory behind as
   * a virtual one: it still reports as a directory and lists as empty.
   */
  lemma UnlinkLastItemKeepsParent(ov: Overlay, keys: seq<string>, p: string,
                                  remoteAttr: Remote<FuseResult>, remoteList: Remote<Option<seq<string>>>)
    requires Parent(p) != "" && forall k :: k in ov ==> !(DirPrefix(Parent(p)) <= k)
    requires Enumerates(keys, Unlink(ov, p, Returned(true)).overlay)
    ensures var s := Unlink(ov, p, Returned(true));
      && s.reply == Reply(0, NoPayload)
      && Getattr(s.overlay, Parent(p), remoteAttr) == DirectoryReply
      && Readdir(s.overlay, keys, Parent(p), remoteList) == Reply(0, Listing([]))
      && ((forall k :: k in ov ==> !(Parent(p) <= k)) ==>
            ReaddirAsWritten(s.overlay, keys, Parent(p), remoteList) == Reply(0, Entries([])))
  {
    var d := Parent(p);
    var s := Unlink(ov, p, Returned(true));
    assert Live(s.overlay, d);
    NotOwnChild(d);
    assert forall k :: k in s.overlay ==> ChildName(d, k).None?;
    var names := Readdir(s.overlay, keys, d, remoteList).payload.names;
    assert |names| > 0 ==> exists k :: k in s.overlay && ChildName(d, k) == Some(names[0]);
    assert |names| == 0;
    if forall k :: k in ov ==> !(d <= k) {
      assert forall k :: k in s.overlay ==> k == d || k in ov;
      var entries := ReaddirAsWritten(s.overlay, keys, d, remoteList).payload.entries;
      assert |entries| > 0 ==> exists k :: k in s.overlay && RawEntry(d, k, entries[0]);
      assert |entries| == 0;
    }
  }

  /**
   * Closing a file written into a virtual directory turns the directory
   * real: it leaves the overlay, and `getattr` then reports what the
   * container says.
   */
  lemma ReleasePromotesVirtualParent(ov: Overlay, p: string, fr: FuseResult)
    requires Live(ov, Parent(p)) && !Terminal(Parent(p))
    requires forall k :: k in ov ==> !(Parent(p) + "/" <= k)
    ensures var s := Release(ov, p, Returned(true));
      && s.reply == Reply(0, NoPayload)
      && Parent(p) !in s.overlay
      && Getattr(s.overlay, Parent(p), Returned(fr)) == Reply(fr.returnCode, fr.returnObject)
  {
    assert Chain(Parent(p))[0] == Parent(p);
  }

  /**
   * Renaming a virtual directory makes the new name visible but, because
   * the old key is left behind as `undefined`, the old name stays visible
   * to `getattr` and `readdir` too.
   */
  lemma VirtualRenameLeavesOldName(ov: Overlay, keys: seq<string>, d: string, n: string, n2: string,
                                   remote: Remote<Option<RenameOutcome>>, remoteAttr: Remote<FuseResult>,
                                   remoteList: Remote<Option<seq<string>>>)
    requires n != "" && '/' !in n && n2 != "" && '/' !in n2 && n != n2
    requires Live(ov, d) && Live(ov, DirPrefix(d) + n)
    requires Enumerates(keys, Rename(ov, DirPrefix(d) + n, DirPrefix(d) + n2, remote).overlay)
    ensures var s := Rename(ov, DirPrefix(d) + n, DirPrefix(d) + n2, remote);
      && s.reply == Reply(0, NoPayload)
      && Getattr(s.overlay, DirPrefix(d) + n, remoteAttr) == DirectoryReply
      && Getattr(s.overlay, DirPrefix(d) + n2, remoteAttr) == DirectoryReply
      && (var r := Readdir(s.overlay, keys, d, remoteList);
          r.Reply? && r.payload.Listing? && n in r.payload.names && n2 in r.payload.names)
      && (d != "" && d[|d| - 1] != '/' ==>
            var w := ReaddirAsWritten(s.overlay, keys, d, remoteList);
            w.Reply? && w.payload.Entries? && Some(n) in w.payload.entries && Some(n2) in w.payload.entries)
  {
    var p := DirPrefix(d) + n;
    var np := DirPrefix(d) + n2;
    assert p != np by {
      assert p[|DirPrefix(d)|..] == n && np[|DirPrefix(d)|..] == n2;
    }
    var s := Rename(ov, p, np, remote);
    assert p in s.overlay && np in s.overlay;
    assert Live(s.overlay, d);
    ChildOfPrefix(d, n);
    ChildOfPrefix(d, n2);
    if d != "" && d[|d| - 1] != '/' {
      RawEntryOfChild(d, n);
      RawEntryOfChild(d, n2);
    }
  }

  /** Making a directory that already exists succeeds again and changes nothing. */
  lemma MkdirTwiceSucceeds(ov: Overlay, p: string, mode: int, mode2: int)
    requires p != ""
    ensures var s := Mkdir(ov, p, mode);
      Mkdir(s.overlay, p, mode2) == OpStep(s.overlay, Reply(0, NoPayload))
  {
  }

  /**
   * A directory made under `d` is listed by `readdir` of `d`, whether `d`
   * is itself virtual or listed by its container.
   */
  lemma MkdirListedInParent(ov: Overlay, keys: seq<string>, d: string, n: string, mode: int,
                            remote: Remote<Option<seq<string>>>)
    requires n != "" && '/' !in n
    requires Enumerates(keys, Mkdir(ov, DirPrefix(d) + n, mode).overlay)
    requires Live(ov, d) || (remote.Returned? && remote.value.Some?)
    ensures var r := Readdir(Mkdir(ov, DirPrefix(d) + n, mode).overlay, keys, d, remote);
      r.Reply? && r.payload.Listing? && n in r.payload.names
    ensures d != "" && d[|d| - 1] != '/' ==>
      var w := ReaddirAsWritten(Mkdir(ov, DirPrefix(d) + n, mode).overlay, keys, d, remote);
      w.Reply? && w.payload.Entries? && Some(n) in w.payload.entries
  {
    var p := DirPrefix(d) + n;
    assert |p| > |d|;
    ChildOfPrefix(d, n);
    if d != "" && d[|d| - 1] != '/' {
      RawEntryOfChild(d, n);
    }
  }

  /**
   * `rmdir` undoes `mkdir` of an empty directory whose parent exists: the
   * overlay is as before, less any earlier entry for the path.
   */
  lemma MkdirRmdirRoundTrip(ov: Overlay, p: string, mode: int, remoteExists: string -> bool)
    requires p != "" && !HasEntryUnder(ov, p)
    requires Terminal(Parent(p)) || remoteExists(Parent(p))
    ensures var s := Mkdir(ov, p, mode);
      && s.reply == Reply(0, NoPayload)
      && Rmdir(s.overlay, p, remoteExists) == OpStep(ov - {p}, Reply(0, NoPayload))
  {
    var s := Mkdir(ov, p, mode);
    assert !HasEntryUnder(s.overlay, p);
    assert s.overlay - {p} == ov - {p};
  }

  /** A name no overlay key implies, and the container does not list, is not listed. */
  lemma UnimpliedNameUnlisted(ov: Overlay, keys: seq<string>, d: string, n: string, remote: Remote<Option<seq<string>>>)
    requires Enumerates(keys, ov)
    requires forall k :: k in ov ==> ChildName(d, k) != Some(n)
    requires Live(ov, d) || (remote.Returned? && remote.value.Some? && n !in remote.value.value)
    ensures var r := Readdir(ov, keys, d, remote);
      r.Reply? && r.payload.Listing? && n !in r.payload.names
  {
  }

  /**
   * The listing round trip: a directory made under `d` is listed, and once
   * it is removed again it is not, provided no other entry implies the
   * same name.
   */
  lemma MkdirRmdirUnlisted(ov: Overlay, keys: seq<string>, keys2: seq<string>, d: string, n: string, mode: int,
                           remoteExists: string -> bool, remote: Remote<Option<seq<string>>>)
    requires n != "" && '/' !in n
    requires var p := DirPrefix(d) + n;
      && !HasEntryUnder(ov, p) && (Terminal(Parent(p)) || remoteExists(Parent(p)))
      && (forall k :: k in ov && k != p ==> ChildName(d, k) != Some(n))
    requires Live(ov, d) || (remote.Returned? && remote.value.Some? && n !in remote.value.value)
    requires Enumerates(keys, Mkdir(ov, DirPrefix(d) + n, mode).overlay)
    requires Enumerates(keys2, ov - {DirPrefix(d) + n})
    ensures var p := DirPrefix(d) + n;
      var s := Mkdir(ov, p, mode);
      var r := Readdir(s.overlay, keys, d, remote);
      var r2 := Readdir(Rmdir(s.overlay, p, remoteExists).overlay, keys2, d, remote);
      && r.Reply? && r.payload.Listing? && n in r.payload.names
      && r2.Reply? && r2.payload.Listing? && n !in r2.payload.names
  {
    var p := DirPrefix(d) + n;
    MkdirListedInParent(ov, keys, d, n, mode, remote);
    MkdirRmdirRoundTrip(ov, p, mode, remoteExists);
    assert |p| > |d|;
    UnimpliedNameUnlisted(ov - {p}, keys2, d, n, remote);
  }

  /** As written, an entry no overlay key gives, and the container does not list, is not listed. */
  lemma UnlistedEntryAsWritten(ov: Overlay, keys: seq<string>, d: string, n: string, remote: Remote<Option<seq<string>>>)
    requires Enumerates(keys, ov)
    requires forall k :: k in ov ==> !RawEntry(d, k, Some(n))
    requires Live(ov, d) || (remote.Returned? && remote.value.Some? && n !in remote.value.value)
    ensures var w := ReaddirAsWritten(ov, keys, d, remote);
      w.Reply? && w.payload.Entries? && Some(n) !in w.payload.entries
  {
    if !Live(ov, d) {
      var listing := remote.value.value;
      var w := ReaddirAsWritten(ov, keys, d, remote).payload.entries;
      forall i | 0 <= i < |w|
        ensures w[i] != Some(n)
      {
        if i < |listing| {
          assert w[i] == Defined(listing)[i] == Some(listing[i]);
        }
      }
    }
  }

  /**
   * The listing round trip as written, for a directory `d` that does not
   * end in '/': a directory made under `d` is listed, and once removed
   * again it is not, provided no other key gives the same entry.
   */
  lemma MkdirRmdirUnlistedAsWritten(ov: Overlay, keys: seq<string>, keys2: seq<string>, d: string, n: string, mode: int,
                                    remoteExists: string -> bool, remote: Remote<Option<seq<string>>>)
    requires n != "" && '/' !in n && d != "" && d[|d| - 1] != '/'
    requires var p := d + "/" + n;
      && !HasEntryUnder(ov, p) && (Terminal(Parent(p)) || remoteExists(Parent(p)))
      && (forall k :: k in ov && k != p ==> !RawEntry(d, k, Some(n)))
    requires Live(ov, d) || (remote.Returned? && remote.value.Some? && n !in remote.value.value)
    requires Enumerates(keys, Mkdir(ov, d + "/" + n, mode).overlay)
    requires Enumerates(keys2, ov - {d + "/" + n})
    ensures var p := d + "/" + n;
      var s := Mkdir(ov, p, mode);
      var w := ReaddirAsWritten(s.overlay, keys, d, remote);
      var w2 := ReaddirAsWritten(Rmdir(s.overlay, p, remoteExists).overlay, keys2, d, remote);
      && w.Reply? && w.payload.Entries? && Some(n) in w.payload.entries
      && w2.Reply? && w2.payload.Entries? && Some(n) !in w2.payload.entries
  {
    var p := d + "/" + n;
    RawEntryOfChild(d, n);
    MkdirListedInParent(ov, keys, d, n, mode, remote);
    MkdirRmdirRoundTrip(ov, p, mode, remoteExists);
    assert |p| > |d|;
    UnlistedEntryAsWritten(ov - {p}, keys2, d, n, remote);
  }

  /** The entry the written merge takes from a key counts among the readdir entries of a directory that lists. */
  lemma RawEntryListed(ov: Overlay, keys: seq<string>, d: string, k: string, e: Option<string>,
                       remote: Remote<Option<seq<string>>>)
    requires Enumerates(keys, ov) && k in ov && RawEntry(d, k, e)
    requires Live(ov, d) || (remote.Returned? && remote.value.Some?)
    ensures var w := ReaddirAsWritten(ov, keys, d, remote);
      w.Reply? && w.payload.Entries? && e in w.payload.entries
  {
  }

  /**
   * Where the written readdir departs from the corrected one, at a
   * directory ending in '/', such as the root: after `mkdir` of a child
   * `n`, the written readdir lists `undefined` for it, where the corrected
   * one lists 'n'.
   */
  lemma MkdirUnderSlashListsUndefined(ov: Overlay, keys: seq<string>, d: string, n: string, mode: int,
                                  remote: Remote<Option<seq<string>>>)
    requires n != "" && '/' !in n && d != "" && d[|d| - 1] == '/'
    requires Enumerates(keys, Mkdir(ov, d + n, mode).overlay)
    requires Live(ov, d) || (remote.Returned? && remote.value.Some?)
    ensures var w := ReaddirAsWritten(Mkdir(ov, d + n, mode).overlay, keys, d, remote);
      w.Reply? && w.payload.Entries? && None in w.payload.entries
    ensures var r := Readdir(Mkdir(ov, d + n, mode).overlay, keys, d, remote);
      r.Reply? && r.payload.Listing? && n in r.payload.names
  {
    var k := d + n;
    assert DirPrefix(d) == d;
    assert k[|d|..] == n;
    assert Field(k[|d|..], '/', 1) == None;
    var ov' := Mkdir(ov, k, mode).overlay;
    assert Live(ov', d) <==> Live(ov, d);
    RawEntryListed(ov', keys, d, k, None, remote);
    MkdirListedInParent(ov, keys, d, n, mode, remote);
  }

  /**
   * Below the root: a key that extends a live directory's name without a
   * separator, such as '/ab' under '/a', makes the written readdir list
   * `undefined`, where the corrected merge takes nothing from it.
   */
  lemma SiblingKeyListedAsUndefined(ov: Overlay, keys: seq<string>, d: string, s: string, remote: Remote<Option<seq<string>>>)
    requires Enumerates(keys, ov) && Live(ov, d) && d != "" && d[|d| - 1] != '/'
    requires s != "" && '/' !in s && d + s in ov
    ensures var w := ReaddirAsWritten(ov, keys, d, remote);
      w.Reply? && w.payload.Entries? && None in w.payload.entries
    ensures ChildName(d, d + s).None?
  {
    var k := d + s;
    assert k[|d|..] == s;
    assert Field(k[|d|..], '/', 1) == None;
    RawEntryListed(ov, keys, d, k, None, remote);
    assert !(d + "/" <= k) by {
      assert k[|d|] == s[0];
    }
  }

  /**
   * A key below such a sibling, '/ab/c' under '/a', makes the written
   * readdir list 'c', where the corrected merge takes nothing from it.
   */
  lemma SiblingChildListedAsWritten(ov: Overlay, keys: seq<string>, d: string, s: string, c: string,
                                    remote: Remote<Option<seq<string>>>)
    requires Enumerates(keys, ov) && Live(ov, d) && d != "" && d[|d| - 1] != '/'
    requires s != "" && '/' !in s && '/' !in c && d + s + "/" + c in ov
    ensures var w := ReaddirAsWritten(ov, keys, d, remote);
      w.Reply? && w.payload.Entries? && Some(c) in w.payload.entries
    ensures ChildName(d, d + s + "/" + c).None?
  {
    var k := d + s + "/" + c;
    assert k[|d|..] == s + ['/'] + c;
    SplitAfterHead(s, '/', c);
    assert Field(k[|d|..], '/', 1) == Some(c);
    RawEntryListed(ov, keys, d, k, Some(c), remote);
    assert !(d + "/" <= k) by {
      assert k[|d|] == s[0];
    }
  }
}
