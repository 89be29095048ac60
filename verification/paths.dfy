/**
 * The path-string helpers the VFS layer borrows from Node's `path` module and
 * from SafenetworkJs: `String.prototype.split`, posix `path.dirname`,
 * `parentPathNoDot` and `path.normalize`.  They are plain definitions here,
 * written so that the walks up a parent chain provably terminate.
 */
module Paths {
  import opened Wrappers

  /** JavaScript's `s.split(c)` for a one-character separator. */
  function Split(s: string, c: char): (fs: seq<string>)
    ensures |fs| >= 1
    ensures forall i :: 0 <= i < |fs| ==> c !in fs[i]
    ensures Join(fs, c) == s
    ensures c !in s ==> fs == [s]
    decreases |s|
  {
    if |s| == 0 then [""]
    else
      var rest := Split(s[1..], c);
      if s[0] == c then
        assert Join([""] + rest, c) == [c] + Join(rest, c);
        [""] + rest
      else
        var fs := [[s[0]] + rest[0]] + rest[1..];
        assert c !in s ==> [s[0]] + s[1..] == s;
        assert fs[1..] == rest[1..];
        assert |rest| > 1 ==> Join(rest, c) == rest[0] + [c] + Join(rest[1..], c);
        fs
  }

  /** The inverse of `Split`: the fields glued back together with `c`. */
  function Join(fs: seq<string>, c: char): string
    requires |fs| >= 1
    decreases |fs|
  {
    if |fs| == 1 then fs[0] else fs[0] + [c] + Join(fs[1..], c)
  }

  /** The first field of a split is either the whole string or is followed by the separator. */
  lemma FirstFieldPrefix(s: string, c: char)
    ensures Split(s, c)[0] == s || Split(s, c)[0] + [c] <= s
  {
    var fs := Split(s, c);
    if |fs| > 1 {
      assert s == Join(fs, c) == fs[0] + [c] + Join(fs[1..], c);
    }
  }

  /** A separator-free head splits off as the first field. */
  lemma {:induction false} SplitAfterHead(a: string, c: char, rest: string)
    requires c !in a
    ensures Split(a + [c] + rest, c) == [a] + Split(rest, c)
    decreases |a|
  {
    var s := a + [c] + rest;
    if |a| == 0 {
      assert s == [c] + rest && s[0] == c && s[1..] == rest;
    } else {
      assert s[0] == a[0] && s[0] != c;
      assert s[1..] == a[1..] + [c] + rest;
      SplitAfterHead(a[1..], c, rest);
      var r := Split(s[1..], c);
      assert r[0] == a[1..] && r[1..] == Split(rest, c);
      assert Split(s, c) == [[s[0]] + r[0]] + r[1..];
      assert [a[0]] + a[1..] == a;
    }
  }

  /** Two separator-free heads split off as the first two fields. */
  lemma SplitTwoHeads(a: string, b: string, c: char, rest: string)
    requires c !in a && c !in b
    ensures Split(a + [c] + b + [c] + rest, c) == [a, b] + Split(rest, c)
  {
    SplitAfterHead(b, c, rest);
    assert a + [c] + b + [c] + rest == a + [c] + (b + [c] + rest);
    SplitAfterHead(a, c, b + [c] + rest);
  }

  /** `s.split(c)[i]`: `None` stands for the `undefined` an index past the end yields. */
  function Field(s: string, c: char, i: nat): (f: Option<string>)
    ensures f.Some? <==> i < |Split(s, c)|
    ensures f.Some? ==> c !in f.value
  {
    var fs := Split(s, c);
    if i < |fs| then Some(fs[i]) else None
  }

  /** `s.substring(n)` with JavaScript's clamping of an index past the end. */
  function SubstringFrom(s: string, n: nat): (t: string)
    ensures n <= |s| ==> s == s[..n] + t
    ensures n >= |s| ==> t == ""
  {
    if n <= |s| then s[n..] else ""
  }

  /**
   * The scan of posix `path.dirname`: walking left from index `i` (down to 1),
   * the index of the first separator that precedes a non-separator, or -1.
   */
  function DirnameEnd(p: string, i: int, matchedSlash: bool): (e: int)
    requires i < |p|
    ensures e == -1 || 1 <= e <= i
    ensures matchedSlash ==> e < i || e == -1
    ensures e >= 1 ==> p[e] == '/'
    decreases i
  {
    if i < 1 then -1
    else if p[i] == '/' then (if !matchedSlash then i else DirnameEnd(p, i - 1, true))
    else DirnameEnd(p, i - 1, false)
  }

  /** Posix `path.dirname`: trailing separators and the last segment dropped. */
  function Dirname(p: string): (d: string)
    ensures d != ""
    ensures p != "" && p[0] == '/' ==> d[0] == '/' && d <= p
    ensures d[0] == '/' ==> p != "" && p[0] == '/'
    ensures p != "" && p != "/" && p != "." ==> |d| < |p| || (d == "." && |p| == 1)
    ensures p == "/" || p == "." ==> d == p
  {
    if |p| == 0 then "."
    else
      var end := DirnameEnd(p, |p| - 1, true);
      if end == -1 then (if p[0] == '/' then "/" else ".")
      else if p[0] == '/' && end == 1 then "//"
      else p[..end]
  }

  /** SafenetworkJs `parentPathNoDot`: `dirname`, with the relative root `.` written as ''. */
  function Parent(p: string): (q: string)
    ensures Terminal(p) ==> q == p
    ensures !Terminal(p) ==> |q| < |p|
    ensures p != "" && p[0] == '/' ==> q != "" && q[0] == '/'
  {
    var d := Dirname(p);
    if d == "." then "" else d
  }

  /** The two places where every upward walk stops: '' and '/'. */
  predicate Terminal(p: string) {
    p == "" || p == "/"
  }

  /**
   * `q` followed by its successive parents, ending with the first terminal
   * path ('' or '/').  This is the sequence of values an upward walk visits.
   */
  function Chain(q: string): (c: seq<string>)
    ensures |c| >= 1 && c[0] == q
    ensures Terminal(c[|c| - 1])
    ensures forall i :: 0 <= i < |c| - 1 ==> !Terminal(c[i]) && c[i + 1] == Parent(c[i])
    ensures forall i :: 0 < i < |c| ==> |c[i]| < |q|
    decreases |q|
  {
    if Terminal(q) then [q] else [q] + Chain(Parent(q))
  }

  /** No two separators in a row. */
  predicate NoDoubleSlash(s: string) {
    forall i :: 0 <= i < |s| - 1 ==> !(s[i] == '/' && s[i + 1] == '/')
  }

  /** Runs of separators collapsed into one. */
  function Collapse(s: string): (r: string)
    ensures NoDoubleSlash(r)
    ensures |r| <= |s|
    ensures |s| > 0 ==> |r| > 0 && r[0] == s[0]
    ensures NoDoubleSlash(s) ==> r == s
    decreases |s|
  {
    if |s| <= 1 then s
    else if s[0] == '/' && s[1] == '/' then Collapse(s[1..])
    else
      var tail := Collapse(s[1..]);
      assert NoDoubleSlash(s) ==> NoDoubleSlash(s[1..]);
      [s[0]] + tail
  }

  /**
   * `path.normalize` restricted to what a FUSE path can contain: separator
   * runs are collapsed and the empty path becomes '.'.
   */
  function Normalize(p: string): (n: string)
    ensures n != "" && NoDoubleSlash(n)
    ensures p != "" && NoDoubleSlash(p) ==> n == p
  {
    if p == "" then "." else Collapse(p)
  }

  /** Normalising twice is normalising once. */
  lemma NormalizeIdempotent(p: string)
    ensures Normalize(Normalize(p)) == Normalize(p)
  {
  }
}
