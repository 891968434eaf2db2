/**
 * The bookkeeping shared by kernel/libk/kmalloc.c and lib/libc/src/mem.c: an array with one entry per
 * chunk, where a non-zero entry is the header of a block of that many chunks and every other entry,
 * free or inside a block, is zero.
 */
module ChunkHeap {

  type Chunks = seq<nat>

  /** The array tiles into free chunks and blocks: blocks end inside it and have zero interiors. */
  ghost predicate Tiled(m: Chunks) {
    forall i :: 0 <= i < |m| ==> Block(m, i)
  }

  ghost predicate Block(m: Chunks, i: nat)
    requires i < |m|
  {
    i + m[i] <= |m| && forall j :: i < j < i + m[i] ==> m[j] == 0
  }

  /** No block covers chunk `j`. */
  ghost predicate Free(m: Chunks, j: nat)
    requires j < |m|
  {
    forall i :: 0 <= i <= j ==> i + m[i] <= j
  }

  ghost predicate AllFree(m: Chunks, s: nat, k: nat) {
    s + k <= |m| && forall j :: s <= j < s + k ==> Free(m, j)
  }

  /** The lowest run of `k` free chunks. */
  ghost predicate FirstFit(m: Chunks, s: nat, k: nat) {
    AllFree(m, s, k) && forall r :: 0 <= r < s ==> !AllFree(m, r, k)
  }

  /** The live blocks as pairs of first chunk and length. */
  ghost function Blocks(m: Chunks): set<(nat, nat)> {
    set i | 0 <= i < |m| && m[i] > 0 :: (i, m[i])
  }

  ghost predicate Disjoint(b: (nat, nat), c: (nat, nat)) {
    b.0 + b.1 <= c.0 || c.0 + c.1 <= b.0
  }

  /** The number of free chunks below `c`. */
  ghost function FreeCount(m: Chunks, c: nat): nat
    requires c <= |m|
  {
    if c == 0 then 0 else FreeCount(m, c - 1) + if Free(m, c - 1) then 1 else 0
  }

  /** A scan can stop before chunk `c`: no block straddles it. */
  ghost predicate Boundary(m: Chunks, c: nat) {
    forall i :: 0 <= i < |m| && i < c ==> i + m[i] <= c
  }

  // ---- Blocks never overlap ----

  lemma BlocksAreDisjoint(m: Chunks, b: (nat, nat), c: (nat, nat))
    requires Tiled(m) && b in Blocks(m) && c in Blocks(m) && b != c
    ensures Disjoint(b, c)
  {
    assert Block(m, b.0) && Block(m, c.0);
  }

  /** A chunk is free exactly when no live block contains it. */
  lemma FreeIffUncovered(m: Chunks, j: nat)
    requires Tiled(m) && j < |m|
    ensures Free(m, j) <==> forall b <- Blocks(m) :: !(b.0 <= j < b.0 + b.1)
  {
    if !Free(m, j) {
      var i :| 0 <= i <= j && i + m[i] > j;
      assert (i, m[i]) in Blocks(m);
    }
  }

  // ---- Allocation ----

  lemma AllocateTiles(m: Chunks, s: nat, k: nat)
    requires Tiled(m) && AllFree(m, s, k) && k > 0
    ensures Tiled(m[s := k])
    ensures m[s] == 0
  {
    assert Free(m, s);
    var n := m[s := k];
    forall i | 0 <= i < |n|
      ensures Block(n, i)
    {
      assert Block(m, i);
      if i == s {
        forall j | s < j < s + k
          ensures n[j] == 0
        {
          assert Free(m, j);
          assert j + m[j] <= j;
        }
      }
    }
  }

  lemma AllocateFree(m: Chunks, s: nat, k: nat, j: nat)
    requires Tiled(m) && AllFree(m, s, k) && k > 0 && j < |m|
    ensures Free(m[s := k], j) <==> Free(m, j) && !(s <= j < s + k)
  {
    assert Free(m, s);
    var n := m[s := k];
    if Free(n, j) && s <= j {
      assert s + n[s] <= j;
    }
    if Free(n, j) {
      forall i | 0 <= i <= j
        ensures i + m[i] <= j
      {
        assert i + n[i] <= j;
      }
    }
  }

  lemma AllocateBlocks(m: Chunks, s: nat, k: nat)
    requires Tiled(m) && AllFree(m, s, k) && k > 0
    ensures Blocks(m[s := k]) == Blocks(m) + {(s, k)}
    ensures forall b <- Blocks(m) :: Disjoint(b, (s, k))
  {
    assert Free(m, s);
    assert m[s] == 0;
    var n := m[s := k];
    forall b | b in Blocks(n)
      ensures b in Blocks(m) + {(s, k)}
    {
    }
    forall b | b in Blocks(m)
      ensures b in Blocks(n) && Disjoint(b, (s, k))
    {
      assert n[b.0] == m[b.0];
      assert s < b.0 < s + k ==> Free(m, b.0);
    }
    assert n[s] == k;
    assert (s, k) in Blocks(n);
  }

  /** Everything an allocation at the first fit changes. */
  lemma Allocate(m: Chunks, s: nat, k: nat)
    requires Tiled(m) && FirstFit(m, s, k) && k > 0
    ensures s + k <= |m| && m[s] == 0 && Free(m, s) && AllFree(m, s, k)
    ensures Tiled(m[s := k])
    ensures Blocks(m[s := k]) == Blocks(m) + {(s, k)}
    ensures forall b <- Blocks(m) :: Disjoint(b, (s, k))
  {
    hide Tiled, Free;
    AllocateTiles(m, s, k);
    AllocateBlocks(m, s, k);
  }

  lemma {:induction false} AllocateCount(m: Chunks, s: nat, k: nat, c: nat)
    requires Tiled(m) && AllFree(m, s, k) && k > 0 && c <= |m|
    ensures FreeCount(m[s := k], c)
            == FreeCount(m, c) - (if c <= s then 0 else if c <= s + k then c - s else k)
  {
    if c > 0 {
      hide Tiled, Free;
      AllocateCount(m, s, k, c - 1);
      AllocateFree(m, s, k, c - 1);
    }
  }

  // ---- Release ----

  lemma ReleaseTiles(m: Chunks, i: nat)
    requires Tiled(m) && i < |m|
    ensures Tiled(m[i := 0])
  {
    var n := m[i := 0];
    forall j | 0 <= j < |n|
      ensures Block(n, j)
    {
      assert Block(m, j);
    }
  }

  lemma ReleaseFree(m: Chunks, i: nat, j: nat)
    requires Tiled(m) && i < |m| && m[i] > 0 && j < |m|
    ensures Free(m[i := 0], j) <==> Free(m, j) || i <= j < i + m[i]
  {
    var n := m[i := 0];
    assert Block(m, i);
    if i <= j < i + m[i] {
      forall a | 0 <= a <= j
        ensures a + n[a] <= j
      {
        assert Block(m, a);
      }
    } else if Free(n, j) {
      forall a | 0 <= a <= j
        ensures a + m[a] <= j
      {
        assert a + n[a] <= j;
      }
    }
    if Free(m, j) {
      forall a | 0 <= a <= j
        ensures a + n[a] <= j
      {
        assert a + m[a] <= j;
      }
    }
  }

  lemma ReleaseBlocks(m: Chunks, i: nat)
    requires i < |m| && m[i] > 0
    ensures Blocks(m[i := 0]) == Blocks(m) - {(i, m[i])}
  {
    var n := m[i := 0];
    forall b | b in Blocks(n)
      ensures b in Blocks(m) - {(i, m[i])}
    {
      assert n[b.0] == m[b.0];
    }
    forall b | b in Blocks(m) - {(i, m[i])}
      ensures b in Blocks(n)
    {
      assert n[b.0] == m[b.0];
    }
  }

  lemma {:induction false} ReleaseCount(m: Chunks, i: nat, c: nat)
    requires Tiled(m) && i < |m| && m[i] > 0 && c <= |m|
    ensures FreeCount(m[i := 0], c)
            == FreeCount(m, c) + (if c <= i then 0 else if c <= i + m[i] then c - i else m[i])
  {
    if c > 0 {
      ReleaseFree(m, i, c - 1);
      ReleaseCount(m, i, c - 1);
      if i < c <= i + m[i] {
        assert i + m[i] > c - 1;
        assert !Free(m, c - 1);
      }
    }
  }

  /** Releasing what was just allocated restores the heap exactly. */
  lemma AllocateThenRelease(m: Chunks, s: nat, k: nat)
    requires Tiled(m) && AllFree(m, s, k) && k > 0
    ensures m[s := k][s := 0] == m
  {
    AllocateTiles(m, s, k);
  }

  // ---- The first-fit scan, one chunk or block at a time ----

  /**
   * The scan's state at chunk `c`, which no block straddles: the last `run` chunks are free, the run
   * cannot be extended downwards, and no fit of `k` chunks ends at or before `c`.
   */
  ghost predicate Scanned(m: Chunks, c: nat, run: nat, k: nat) {
    && run <= c && Boundary(m, c)
    && (c <= |m| ==> AllFree(m, c - run, run))
    && (run < c <= |m| ==> !Free(m, c - run - 1))
    && (forall s :: 0 <= s && s + k <= c ==> !AllFree(m, s, k))
  }

  lemma ScanStart(m: Chunks, k: nat)
    requires k > 0
    ensures Scanned(m, 0, 0, k)
  {}

  /** A free chunk extends the run; a run of length `k` is then the first fit. */
  lemma ScanFree(m: Chunks, c: nat, run: nat, k: nat)
    requires Tiled(m) && Scanned(m, c, run, k) && c < |m| && m[c] == 0 && run < k
    ensures run <= c
    ensures run + 1 < k ==> Scanned(m, c + 1, run + 1, k)
    ensures run + 1 == k ==> FirstFit(m, c + 1 - k, k)
  {
    assert Free(m, c);
    assert AllFree(m, c - run, run + 1) by {
      assert forall j :: c - run <= j < c ==> Free(m, j);
    }
    forall s | 0 <= s && s + k <= c + 1 && (s + k <= c || run + 1 < k)
      ensures !AllFree(m, s, k)
    {
      if s + k == c + 1 {
        assert !Free(m, c - run - 1);
      }
    }
  }

  /** A block ends the run; the scan resumes behind it. */
  lemma ScanBlock(m: Chunks, c: nat, run: nat, k: nat)
    requires Tiled(m) && Scanned(m, c, run, k) && c < |m| && m[c] > 0 && k > 0
    ensures c + m[c] <= |m| && Scanned(m, c + m[c], 0, k)
  {
    assert Block(m, c);
    var d := c + m[c];
    forall i | 0 <= i < |m| && i < d
      ensures i + m[i] <= d
    {
      assert Block(m, i);
    }
    assert !Free(m, d - 1) by { assert c + m[c] > d - 1; }
    forall s | 0 <= s && s + k <= d
      ensures !AllFree(m, s, k)
    {
      if s + k > c {
        var j := if s >= c then s else c;
        assert c + m[c] > j;
        assert !Free(m, j);
      }
    }
  }

  /** A scan that reaches the end without a fit has shown there is none. */
  lemma ScanEnd(m: Chunks, c: nat, run: nat, k: nat)
    requires Scanned(m, c, run, k) && c >= |m|
    ensures forall s :: 0 <= s ==> !AllFree(m, s, k)
  {}

  // ---- Conservation ----

  lemma {:induction false} CountSkipsBlock(m: Chunks, c: nat, n: nat)
    requires Tiled(m) && c < |m| && 0 <= n <= m[c]
    ensures Boundary(m, c) ==> Boundary(m, c + m[c])
    ensures c + n <= |m| && FreeCount(m, c + n) == FreeCount(m, c)
  {
    assert Block(m, c);
    assert forall i :: 0 <= i < |m| ==> Block(m, i);
    if n > 0 {
      CountSkipsBlock(m, c, n - 1);
      assert c + m[c] > c + n - 1;
      assert !Free(m, c + n - 1);
    }
  }

  /** The chunks taken by blocks whose header lies below `c`. */
  ghost function UsedCount(m: Chunks, c: nat): nat
    requires c <= |m|
  {
    if c == 0 then 0 else UsedCount(m, c - 1) + m[c - 1]
  }

  lemma {:induction false} UsedSkipsInterior(m: Chunks, c: nat, n: nat)
    requires Tiled(m) && c < |m| && 0 < n <= m[c]
    ensures c + n <= |m| && UsedCount(m, c + n) == UsedCount(m, c) + m[c]
  {
    assert Block(m, c);
    if n > 1 {
      UsedSkipsInterior(m, c, n - 1);
    }
  }

  /** Every chunk is either free or inside exactly one block: the two counts add up. */
  lemma {:induction false} ChunksConserved(m: Chunks, c: nat)
    requires Tiled(m) && c <= |m| && Boundary(m, c)
    ensures FreeCount(m, c) + UsedCount(m, c) == c
    decreases c
  {
    if c > 0 {
      if i :| 0 <= i < c && i + m[i] == c && m[i] > 0 {
        assert Block(m, i);
        forall j | 0 <= j < |m| && j < i
          ensures j + m[j] <= i
        {
          assert Block(m, j);
        }
        ChunksConserved(m, i);
        CountSkipsBlock(m, i, m[i]);
        UsedSkipsInterior(m, i, m[i]);
      } else {
        assert m[c - 1] == 0;
        assert Free(m, c - 1);
        ChunksConserved(m, c - 1);
      }
    }
  }

  lemma WholeHeapConserved(m: Chunks)
    requires Tiled(m)
    ensures FreeCount(m, |m|) + UsedCount(m, |m|) == |m|
  {
    forall i | 0 <= i < |m|
      ensures i + m[i] <= |m|
    {
      assert Block(m, i);
    }
    ChunksConserved(m, |m|);
  }
}
