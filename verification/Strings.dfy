/** C string routines (lib/libc/src/string.c) as the file system uses them. */
module Strings {

  const NUL: char := '\0'
  const SLASH: char := '/'

  /** A C string, without its terminator. */
  ghost predicate CString(s: string) {
    NUL !in s
  }

  /** `!strncmp(a, b, n)` on the bytes at `a` and `b`: compares up to a common terminator. */
  function SameN(a: string, b: string, n: nat): bool {
    if n == 0 then true
    else if a == [] || b == [] then false
    else if a[0] != b[0] then false
    else a[0] == NUL || SameN(a[1..], b[1..], n - 1)
  }

  lemma {:induction false} SameNAccepts(a: string, b: string, n: nat)
    requires n <= |a| && n <= |b| && a[..n] == b[..n]
    ensures SameN(a, b, n)
  {
    if n > 0 {
      assert a[0] == a[..n][0] && b[0] == b[..n][0];
      assert a[1..][..n - 1] == a[..n][1..] && b[1..][..n - 1] == b[..n][1..];
      SameNAccepts(a[1..], b[1..], n - 1);
    }
  }

  /** A difference among the first `m` characters decides, whatever lies behind them. */
  lemma {:induction false} SameNRefutes(a: string, b: string, n: nat, m: nat)
    requires m <= n && m <= |a| && m <= |b| && a[..m] != b[..m] && (NUL !in a[..m] || NUL !in b[..m])
    ensures !SameN(a, b, n)
  {
    if m > 0 && a[0] == b[0] {
      assert a[..m] == [a[0]] + a[1..][..m - 1];
      assert b[..m] == [b[0]] + b[1..][..m - 1];
      SameNRefutes(a[1..], b[1..], n - 1, m - 1);
    }
  }

  /** The first slash at or after `from`, or -1: `strchr` from there. */
  function NextSlash(s: string, from: nat): (i: int)
    ensures i == -1 || (from <= i < |s| && s[i] == SLASH && forall j :: from <= j < i ==> s[j] != SLASH)
    ensures i == -1 ==> forall j :: from <= j < |s| ==> s[j] != SLASH
    decreases |s| - from
  {
    if from >= |s| then -1 else if s[from] == SLASH then from else NextSlash(s, from + 1)
  }

  /** The `n`-th slash at or after `from`, counting from zero. */
  function SlashFrom(s: string, from: nat, n: nat): (i: int)
    ensures i == -1 || (from + n <= i < |s| && s[i] == SLASH)
    decreases n
  {
    var i := NextSlash(s, from);
    if i == -1 || n == 0 then i else SlashFrom(s, i + 1, n - 1)
  }

  /** Consecutive slash numbers are consecutive slashes. */
  lemma {:induction false} SlashFromStep(s: string, from: nat, n: nat)
    ensures SlashFrom(s, from, n + 1)
            == if SlashFrom(s, from, n) == -1 then -1 else NextSlash(s, SlashFrom(s, from, n) + 1)
    decreases n
  {
    var i := NextSlash(s, from);
    if n > 0 && i != -1 {
      SlashFromStep(s, i + 1, n - 1);
    }
  }

  /** The last slash at index 1 or later, or 0. */
  function LastSlash(s: string): (r: nat)
    ensures r == 0 || (r < |s| && s[r] == SLASH)
    ensures forall j :: r < j < |s| ==> s[j] != SLASH
    ensures |s| > 0 ==> r < |s|
  {
    if |s| <= 1 then 0
    else if s[|s| - 1] == SLASH then |s| - 1
    else LastSlash(s[..|s| - 1])
  }

  /** The directory part of a path, slash included; a slash at index 0 does not start a directory. */
  function DirOf(s: string): (d: string)
    ensures d <= s
  {
    if LastSlash(s) == 0 then "" else s[..LastSlash(s) + 1]
  }

  /** Only what lies after the last slash was added: the directory is the same. */
  lemma SameDir(s: string, a: nat, b: nat)
    requires 1 <= a <= b <= |s| && forall j :: a <= j < b ==> s[j] != SLASH
    ensures DirOf(s[..b]) == DirOf(s[..a])
  {
    var r, q := LastSlash(s[..b]), LastSlash(s[..a]);
    assert forall j :: 0 <= j < a ==> s[..b][j] == s[..a][j];
    assert r < a ==> s[..b][r] == s[..a][r];
    assert q > 0 ==> s[..b][q] == SLASH;
    assert r == q;
    assert r > 0 ==> s[..b][..r + 1] == s[..a][..q + 1];
  }

  /** A prefix that ends in a slash is its own directory. */
  lemma DirOfDir(s: string)
    requires |s| >= 2 && s[|s| - 1] == SLASH
    ensures DirOf(s) == s
  {}

  lemma LastSlashReaches(s: string, p: nat)
    requires 1 <= p < |s| && s[p] == SLASH
    ensures LastSlash(s) >= p
  {}

  lemma RootPath(s: string)
    requires s != ""
    ensures DirOf(s[..1]) == ""
  {}

  /** The first slash of all, told apart from a leading one. */
  lemma SlashZero(s: string)
    requires s != ""
    ensures s[0] == SLASH ==> SlashFrom(s, 0, 0) == 0
    ensures s[0] != SLASH ==> SlashFrom(s, 0, 0) == NextSlash(s, 1)
  {}

  /** `strcnt(s, '/')`. */
  function Slashes(s: string): nat {
    if s == "" then 0 else (if s[0] == SLASH then 1 else 0) + Slashes(s[1..])
  }

  lemma {:induction false} SlashesAppend(a: string, b: string)
    ensures Slashes(a + b) == Slashes(a) + Slashes(b)
  {
    if a == "" {
      assert a + b == b;
    } else {
      assert (a + b)[1..] == a[1..] + b;
      SlashesAppend(a[1..], b);
    }
  }

  lemma {:induction false} NoSlashes(s: string)
    ensures Slashes(s) == 0 <==> SLASH !in s
  {
    if s != "" {
      NoSlashes(s[1..]);
      assert s == [s[0]] + s[1..];
    }
  }
}
