/** The first-fit allocator of lib/libc/src/mem.c. */
module UserHeap {
  import opened Machine
  import opened ChunkHeap
  import opened Virtual

  const MEMORY_CHUNK: int := 32
  const MAX_HEAP: int := 0xF000
  const MIN_HEAP: int := 0x1D00
  const HEAP_CHUNKS: int := (MAX_HEAP - MIN_HEAP) / MEMORY_CHUNK

  function ChunksFor(size: Word): nat {
    U16(size + MEMORY_CHUNK - 1) / MEMORY_CHUNK
  }

  function Address(chunk: nat): int {
    MIN_HEAP + chunk * MEMORY_CHUNK
  }

  /** The pages `malloc` asks for, counted from the page its block starts in. */
  function PagesFor(size: Word): nat {
    U16(size + PAGE_SIZE - 1) / PAGE_SIZE
  }

  function PageRange(first: int, n: nat): set<int> {
    if n == 0 then {} else PageRange(first, n - 1) + {first + n - 1}
  }

  lemma {:induction false} InPageRange(first: int, n: nat, p: int)
    ensures p in PageRange(first, n) <==> first <= p < first + n
  {
    if n > 0 {
      InPageRange(first, n - 1, p);
    }
  }

  function NewPages(base: int, size: Word): set<int> {
    PageRange(base / PAGE_SIZE, PagesFor(size))
  }

  class Heap {
    var allocations: array<nat>
    var memPages: set<int>
    ghost const loadBrk: int

    /** The chunks below the program break. */
    ghost function Reserved(): int {
      (loadBrk - MIN_HEAP + MEMORY_CHUNK - 1) / MEMORY_CHUNK
    }

    ghost predicate Valid()
      reads this, allocations
    {
      && MIN_HEAP <= loadBrk <= MAX_HEAP
      && allocations.Length == HEAP_CHUNKS && Tiled(allocations[..])
      && (Reserved() > 0 ==> allocations[0] == Reserved())
    }

    /** The blocks handed out and not yet freed; the reserved block is not one of them. */
    ghost function Live(): set<(nat, nat)>
      reads this, allocations
    {
      Blocks(allocations[..]) - {(0, if Reserved() > 0 then Reserved() else 0)}
    }

    /** `__malloc_init` for a program break inside the managed range. */
    constructor (brk: int, mapped: set<int>)
      requires MIN_HEAP <= brk <= MAX_HEAP
      ensures Valid() && fresh(allocations) && loadBrk == brk && memPages == mapped
      ensures Live() == {}
      ensures allocations[0] == Reserved() && forall i :: 0 < i < HEAP_CHUNKS ==> allocations[i] == 0
    {
      loadBrk := brk;
      memPages := mapped;
      allocations := new nat[HEAP_CHUNKS](_ => 0);
      new;
      allocations[0] := U16(brk - MIN_HEAP + MEMORY_CHUNK - 1) / MEMORY_CHUNK;
      assert Reserved() <= HEAP_CHUNKS;
      ghost var m := allocations[..];
      assert Block(m, 0);
      assert forall i :: 0 < i < |m| ==> m[i] == 0;
    }

    /** `malloc`; `None` is a null result. */
    method Malloc(size: Word) returns (base: Option<int>)
      requires Valid()
      modifies this`memPages, allocations
      ensures Valid() && allocations == old(allocations)
      ensures base == None <==>
              || size == 0
              || size + MEMORY_CHUNK - 1 >= WORD
              || forall s :: 0 <= s ==> !AllFree(old(allocations[..]), s, ChunksFor(size))
      ensures base == None ==> allocations[..] == old(allocations[..]) && memPages == old(memPages)
      ensures base.Some? ==>
                var s := (base.value - MIN_HEAP) / MEMORY_CHUNK;
                && s >= 0 && base.value == Address(s)
                && FirstFit(old(allocations[..]), s, ChunksFor(size))
                && allocations[..] == old(allocations[..])[s := ChunksFor(size)]
                && Live() == old(Live()) + {(s, ChunksFor(size))}
                && (forall b <- old(Live()) :: Disjoint(b, (s, ChunksFor(size))))
                && loadBrk <= base.value && base.value + size <= MAX_HEAP
                && size <= ChunksFor(size) * MEMORY_CHUNK
                && memPages == old(memPages) + NewPages(base.value, size)
                && (Resident(base.value, size, memPages) <==> PagesSuffice(Address(s), size, old(memPages)))
    {
      hide Tiled, ChunkHeap.Free, AllFree, FirstFit, Blocks, Disjoint, PageRange, Resident, PagesSuffice;
      base := None;
      if size == 0 {
        return;
      }
      RoundingFacts(size);
      ghost var m := allocations[..];
      var start := Claim(ChunksFor(size));
      if start == None {
        return;
      }
      base := Some(Address(start.value));
      Allocate(m, start.value, ChunksFor(size));
      AboveBreak(m, start.value, Reserved());
      MapPages(base.value / PAGE_SIZE, PagesFor(size));
      BlockIsMappedIff(base.value, size, old(memPages));
    }

    /** The search loop of `malloc`: mark the first fit of `sizeInChunks`, if there is one. */
    method Claim(sizeInChunks: nat) returns (start: Option<nat>)
      requires allocations.Length == HEAP_CHUNKS && Tiled(allocations[..])
      modifies allocations
      ensures start == None <==>
              sizeInChunks == 0 || forall s :: 0 <= s ==> !AllFree(old(allocations[..]), s, sizeInChunks)
      ensures start == None ==> allocations[..] == old(allocations[..])
      ensures start.Some? ==>
                && start.value < HEAP_CHUNKS
                && FirstFit(old(allocations[..]), start.value, sizeInChunks)
                && allocations[..] == old(allocations[..])[start.value := sizeInChunks]
    {
      hide Tiled, ChunkHeap.Free, AllFree, FirstFit, Scanned, Blocks, Disjoint;
      start := None;
      var freeChunks := 0;
      ghost var m := allocations[..];
      var i := 0;
      if sizeInChunks > 0 {
        ScanStart(m, sizeInChunks);
      }
      while i < allocations.Length
        invariant allocations[..] == m
        invariant 0 <= i && 0 <= freeChunks
        invariant sizeInChunks > 0 ==> Scanned(m, i, freeChunks, sizeInChunks)
        invariant sizeInChunks > 0 ==> freeChunks < sizeInChunks
        decreases allocations.Length - i
      {
        if allocations[i] != 0 {
          if sizeInChunks > 0 {
            ScanBlock(m, i, freeChunks, sizeInChunks);
          }
          i := i + allocations[i] - 1;
          freeChunks := 0;
        } else {
          freeChunks := freeChunks + 1;
          if sizeInChunks > 0 {
            ScanFree(m, i, freeChunks - 1, sizeInChunks);
          }
          if freeChunks == sizeInChunks {
            var s := i - sizeInChunks + 1;
            Allocate(m, s, sizeInChunks);
            allocations[s] := sizeInChunks;
            assert allocations[..] == m[s := sizeInChunks];
            return Some(s);
          }
        }
        i := i + 1;
      }
      if sizeInChunks > 0 {
        ScanEnd(m, i, freeChunks, sizeInChunks);
      }
    }

    /** The tail of `malloc`: ask for each page of a range that the bitmap does not show. */
    method MapPages(pageBase: int, count: nat)
      modifies this`memPages
      ensures memPages == old(memPages) + PageRange(pageBase, count)
    {
      var n := 0;
      while n < count
        invariant n <= count && memPages == old(memPages) + PageRange(pageBase, n)
      {
        if pageBase + n !in memPages {
          memPages := memPages + {pageBase + n};
        }
        n := n + 1;
      }
    }

    /** `free` clears the header of exactly the block whose pointer it is given. */
    method Free(ptr: int)
      requires Valid()
      requires exists b <- Live() :: ptr == Address(b.0)
      modifies allocations
      ensures Valid() && allocations == old(allocations)
      ensures exists b <- old(Live()) :: ptr == Address(b.0) && Live() == old(Live()) - {b}
    {
      ghost var b :| b in Live() && ptr == Address(b.0);
      var chunk := ptr / MEMORY_CHUNK;
      chunk := chunk - MIN_HEAP / MEMORY_CHUNK;
      assert chunk == b.0;
      ghost var m := allocations[..];
      ReleaseTiles(m, chunk);
      ReleaseBlocks(m, chunk);
      allocations[chunk] := 0;
      assert allocations[..] == m[chunk := 0];
    }
  }

  lemma RoundingFacts(size: Word)
    requires size > 0
    ensures ChunksFor(size) == 0 <==> size + MEMORY_CHUNK - 1 >= WORD
    ensures ChunksFor(size) > 0 ==> size <= ChunksFor(size) * MEMORY_CHUNK
  {}

  /** A fit never starts inside the reserved block. */
  lemma AboveBreak(m: Chunks, s: nat, reserved: int)
    requires s < |m| && Free(m, s) && (reserved > 0 ==> m[0] == reserved)
    ensures reserved <= s || reserved <= 0
  {
    assert 0 + m[0] <= s;
  }

  /** Every byte of a block lies on a mapped page. */
  ghost predicate Resident(base: int, size: Word, mapped: set<int>) {
    forall a :: base <= a < base + size ==> a / PAGE_SIZE in mapped
  }

  /**
   * What a block at `base` needs of the pages mapped before: it does not run over the pages counted from its
   * size alone, or the one page beyond them is mapped already.
   */
  predicate PagesSuffice(base: int, size: Word, mapped: set<int>) {
    || base % 0x1000 + size <= (size + 0xFFF) / 0x1000 * 0x1000
    || (base + size - 1) / 0x1000 in mapped
  }

  /** Exactly then the pages that `malloc` asks for complete the block. */
  lemma BlockIsMappedIff(base: int, size: Word, mapped: set<int>)
    requires MIN_HEAP <= base && 0 < size && base + size <= MAX_HEAP
    ensures Resident(base, size, mapped + NewPages(base, size)) <==> PagesSuffice(base, size, mapped)
  {
    var all := mapped + NewPages(base, size);
    var last := (base + size - 1) / PAGE_SIZE;
    forall p
      ensures p in NewPages(base, size) <==> base / PAGE_SIZE <= p < base / PAGE_SIZE + PagesFor(size)
    {
      InPageRange(base / PAGE_SIZE, PagesFor(size), p);
    }
    assert base / PAGE_SIZE + PagesFor(size) - 1 <= last <= base / PAGE_SIZE + PagesFor(size);
    if Resident(base, size, all) {
      assert last in all;
    } else {
      var a :| base <= a < base + size && a / PAGE_SIZE !in all;
      assert base / PAGE_SIZE <= a / PAGE_SIZE <= last;
    }
  }

  /** The first block of a new heap starts at its break, if that is the start of a chunk. */
  lemma FirstBlock(m: Chunks, reserved: nat, k: nat, s: nat)
    requires |m| == HEAP_CHUNKS && 0 < reserved && reserved + k <= HEAP_CHUNKS && 0 < k
    requires m[0] == reserved && forall i :: 0 < i < HEAP_CHUNKS ==> m[i] == 0
    requires FirstFit(m, s, k)
    ensures s == reserved
  {
    forall j | reserved <= j < HEAP_CHUNKS
      ensures Free(m, j)
    {
    }
    assert AllFree(m, reserved, k);
    assert Free(m, s);
    assert 0 + m[0] <= s;
  }

  lemma SomethingFits(m: Chunks, reserved: nat, k: nat)
    requires |m| == HEAP_CHUNKS && 0 < reserved && reserved + k <= HEAP_CHUNKS
    requires m[0] == reserved && forall i :: 0 < i < HEAP_CHUNKS ==> m[i] == 0
    ensures AllFree(m, reserved, k)
  {}

  /** A program that ends at 0x1FE0 with page 1 mapped: its first block of 64 bytes has an unmapped half. */
  method StraddlingBlockUnmapped() returns (h: Heap, base: Option<int>)
    ensures fresh(h) && base == Some(0x1FE0) && h.Live() == {((0x1FE0 - MIN_HEAP) / MEMORY_CHUNK, 2)}
    ensures 2 !in h.memPages && !Resident(0x1FE0, 64, h.memPages)
  {
    hide Tiled, ChunkHeap.Free, AllFree, FirstFit, Blocks, Disjoint, PageRange, Resident, PagesSuffice, NewPages;
    h := new Heap(0x1FE0, {1});
    ghost var m := h.allocations[..];
    assert h.Reserved() == 23 && ChunksFor(64) == 2;
    SomethingFits(m, 23, 2);
    base := h.Malloc(64);
    FirstBlock(m, 23, 2, (base.value - MIN_HEAP) / MEMORY_CHUNK);
    SecondPageMissing();
  }

  lemma SecondPageMissing()
    ensures 2 !in {1} + NewPages(0x1FE0, 64) && !PagesSuffice(0x1FE0, 64, {1})
  {
    hide PageRange;
    assert PagesFor(64) == 1;
    InPageRange(1, 1, 2);
    assert NewPages(0x1FE0, 64) == PageRange(1, 1);
  }
}
