/** The choice of a mount point for a path in kernel/fs/vfs.c. */
module Mounts {
  import opened Machine
  import opened Strings

  /** A mount covers the path and ends at one of its segment boundaries. */
  predicate Covers(mount: string, path: string) {
    && mount != "" && mount <= path
    && (mount[|mount| - 1] == SLASH || |path| == |mount| || path[|mount|] == SLASH)
  }

  /** What `vfs_vnode_for` accepts: a covering mount with at least one slash. */
  predicate Candidate(mount: string, path: string) {
    Covers(mount, path) && Slashes(mount) > 0
  }

  /** The tests the loop makes, on terminated strings. */
  function SegmentEnd(mount: string, path: string): nat
    requires mount != ""
  {
    var e := NextSlash(path, |mount| - 1);
    if e == -1 then |path| else e
  }

  predicate Accepted(mount: string, path: string)
    requires mount != ""
  {
    && SameN(mount + [NUL], path + [NUL], |mount|)
    && SameN(mount + [NUL], path + [NUL], SegmentEnd(mount, path))
  }

  /** The two prefix comparisons together accept exactly the segment-aligned prefixes. */
  lemma AcceptedIsCovers(mount: string, path: string)
    requires mount != "" && CString(mount) && CString(path)
    ensures Accepted(mount, path) <==> Covers(mount, path)
  {
    hide SameN;
    var a, b, n := mount + [NUL], path + [NUL], |mount|;
    assert a[..n] == mount;
    if mount <= path {
      assert b[..n] == path[..n] == mount;
      SameNAccepts(a, b, n);
      var e := SegmentEnd(mount, path);
      if Covers(mount, path) {
        assert e <= n && a[..e] == mount[..e] && b[..e] == path[..e];
        SameNAccepts(a, b, e);
      } else {
        assert e > n && a[..n + 1][n] == NUL && b[..n + 1][n] == path[n];
        assert b[..n + 1] == path[..n + 1];
        SameNRefutes(a, b, e, n + 1);
      }
    } else if n <= |path| {
      assert b[..n] == path[..n];
      SameNRefutes(a, b, n, n);
    } else {
      var k := |path| + 1;
      assert b[..k] == b && a[..k] == mount[..k] && b[|path|] == NUL;
      SameNRefutes(a, b, n, k);
    }
  }

  /** Index `i` is the earliest candidate with the most slashes. */
  ghost predicate Best(mounts: seq<string>, path: string, i: nat) {
    && i < |mounts| && Candidate(mounts[i], path)
    && forall j :: 0 <= j < |mounts| && Candidate(mounts[j], path) ==>
         Slashes(mounts[j]) <= Slashes(mounts[i]) && (j < i ==> Slashes(mounts[j]) < Slashes(mounts[i]))
  }

  /** `vfs_vnode_for`. */
  method VnodeFor(mounts: seq<string>, path: string) returns (best: Option<nat>)
    requires CString(path) && forall m <- mounts :: CString(m)
    ensures best == None <==> forall m <- mounts :: !Candidate(m, path)
    ensures best.Some? ==> Best(mounts, path, best.value)
  {
    hide Slashes, Covers, Accepted;
    best := None;
    var matchSlashCnt := 0;
    var i := 0;
    while i < |mounts|
      invariant 0 <= i <= |mounts|
      invariant best == None ==> matchSlashCnt == 0
      invariant best.Some? ==>
                  best.value < i && Candidate(mounts[best.value], path) && matchSlashCnt == Slashes(mounts[best.value])
      invariant forall j :: 0 <= j < i && Candidate(mounts[j], path) ==>
                  && Slashes(mounts[j]) <= matchSlashCnt
                  && (best.Some? && j < best.value ==> Slashes(mounts[j]) < matchSlashCnt)
    {
      var m := mounts[i];
      assert m in mounts;
      EmptyHasNoSlashes();
      if Slashes(m) > matchSlashCnt {
        AcceptedIsCovers(m, path);
        if Accepted(m, path) {
          best := Some(i);
          matchSlashCnt := Slashes(m);
        }
      }
      i := i + 1;
    }
  }

  lemma EmptyHasNoSlashes()
    ensures Slashes("") == 0
  {}

  /** `vfs_find_inode` passes on what lies behind the mount: the two parts are the path. */
  lemma LocalPath(mounts: seq<string>, path: string, i: nat)
    requires Best(mounts, path, i)
    ensures mounts[i] + path[|mounts[i]|..] == path
  {}

  /** Longer covering mounts have at least as many slashes. */
  lemma LongerHasMore(a: string, b: string, path: string)
    requires Covers(a, path) && Covers(b, path) && |a| < |b|
    ensures b == a + b[|a|..]
    ensures Slashes(b) == Slashes(a) + Slashes(b[|a|..])
  {
    assert b == path[..|b|] && a == path[..|a|];
    assert b == a + b[|a|..];
    SlashesAppend(a, b[|a|..]);
  }

  /** A path cut behind its last slash. */
  function Cut(s: string): (r: string)
    ensures r <= s && (r == "" || r[|r| - 1] == SLASH) && SLASH !in s[|r|..]
  {
    if s == "" || s[|s| - 1] == SLASH then s
    else
      var r := Cut(s[..|s| - 1]);
      assert forall i :: |r| <= i < |s| - 1 ==> s[i] == s[..|s| - 1][|r|..][i - |r|];
      r
  }

  /** Index `k` is the first occurrence of the longest mount that covers the path. */
  ghost predicate FirstLongest(mounts: seq<string>, path: string, k: nat) {
    && k < |mounts| && Candidate(mounts[k], path)
    && (forall m <- mounts :: Candidate(m, path) ==> |m| <= |mounts[k]|)
    && (forall j :: 0 <= j < k ==> mounts[j] != mounts[k])
  }

  /** Two covering mounts with as many slashes: the shorter ends in a slash and is the longer one cut. */
  lemma TieIsCut(a: string, b: string, path: string)
    requires Covers(a, path) && Covers(b, path) && |a| < |b| && Slashes(a) == Slashes(b)
    ensures a[|a| - 1] == SLASH && a == Cut(b)
  {
    LongerHasMore(a, b, path);
    NoSlashes(b[|a|..]);
    assert b[|a|..][0] == b[|a|] == path[|a|];
    assert a == b[..|a|];
    CutIs(b, |a|);
  }

  lemma {:induction false} CutIs(s: string, n: nat)
    requires 0 < n <= |s| && s[n - 1] == SLASH && SLASH !in s[n..]
    ensures Cut(s) == s[..n]
  {
    if n < |s| {
      var t := s[..|s| - 1];
      assert s[n..][|s| - 1 - n] == s[|s| - 1];
      assert forall i :: n <= i < |t| ==> t[i] == s[n..][i - n];
      CutIs(t, n);
    } else {
      assert s[..n] == s;
    }
  }

  /** Cutting the last segment off costs no slash and leaves a mount that covers the path. */
  lemma CutIsCandidate(b: string, path: string)
    requires Candidate(b, path)
    ensures Candidate(Cut(b), path) && Slashes(Cut(b)) == Slashes(b)
  {
    var c := Cut(b);
    SlashesAppend(c, b[|c|..]);
    assert b == c + b[|c|..];
    NoSlashes(b[|c|..]);
    if c == "" {
      EmptyHasNoSlashes();
    }
  }

  /**
   * Is the chosen mount the longest one that covers the path? If and only if the longest one, cut behind
   * its last slash, is not itself mounted before it.
   */
  lemma LongestIff(mounts: seq<string>, path: string, k: nat, i: nat)
    requires FirstLongest(mounts, path, k) && Best(mounts, path, i)
    ensures i == k <==> forall j :: 0 <= j < k ==> mounts[j] != Cut(mounts[k])
    ensures |mounts[i]| == |mounts[k]| <==> i == k
    ensures i != k ==> mounts[i] == Cut(mounts[k]) && mounts[i][|mounts[i]| - 1] == SLASH
  {
    hide Slashes, Covers, Cut;
    CutIsCandidate(mounts[k], path);
    assert mounts[i] in mounts && mounts[k] in mounts;
    if |mounts[i]| < |mounts[k]| {
      LongerHasMore(mounts[i], mounts[k], path);
      TieIsCut(mounts[i], mounts[k], path);
    } else {
      SameLength(mounts[i], mounts[k], path);
    }
  }

  lemma SameLength(a: string, b: string, path: string)
    requires Covers(a, path) && Covers(b, path) && |a| == |b|
    ensures a == b
  {
    assert a == path[..|a|] == b;
  }

  /** There is a longest mount to compare with whenever one covers the path at all. */
  lemma {:induction false} LongestExists(mounts: seq<string>, path: string, i: nat) returns (k: nat)
    requires i < |mounts| && Candidate(mounts[i], path)
    ensures FirstLongest(mounts, path, k)
    decreases |path| - |mounts[i]|, i
  {
    hide Slashes;
    if m :| m in mounts && Candidate(m, path) && |m| > |mounts[i]| {
      var j :| 0 <= j < |mounts| && mounts[j] == m;
      k := LongestExists(mounts, path, j);
    } else if j :| 0 <= j < i && mounts[j] == mounts[i] {
      k := LongestExists(mounts, path, j);
    } else {
      k := i;
    }
  }

  /** With different slash counts among the candidates the choice is the longest one. */
  lemma LongestWhenCountsDiffer(mounts: seq<string>, path: string, i: nat)
    requires Best(mounts, path, i)
    requires forall j :: 0 <= j < |mounts| && j != i && Candidate(mounts[j], path) ==>
               Slashes(mounts[j]) != Slashes(mounts[i])
    ensures forall j :: 0 <= j < |mounts| && Candidate(mounts[j], path) ==> |mounts[j]| <= |mounts[i]|
  {
    hide Slashes, Covers;
    forall j | 0 <= j < |mounts| && Candidate(mounts[j], path)
      ensures |mounts[j]| <= |mounts[i]|
    {
      if |mounts[j]| > |mounts[i]| {
        LongerHasMore(mounts[i], mounts[j], path);
      }
    }
  }

  /** The root mount, when first, hides a mount on a directory named without a trailing slash. */
  lemma RootCanHideLonger()
    ensures Best(["/", "/a"], "/a/x", 0)
    ensures Candidate("/a", "/a/x")
  {
    var ms := ["/", "/a"];
    assert Slashes("/a") == 1 + Slashes("/a"[1..]) && "/a"[1..] == "a" && Slashes("a") == 0 + Slashes("a"[1..]);
    assert Slashes("/") == 1 + Slashes("/"[1..]);
    assert Candidate(ms[0], "/a/x");
  }
}
