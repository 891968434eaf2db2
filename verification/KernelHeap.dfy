/** The kernel allocator of kernel/libk/kmalloc.c, for calls that do not overlap in time. */
module KernelHeap {
  import opened Machine
  import opened ChunkHeap

  const HEAP_START: int := 0xA000
  const HEAP_END: int := 0xE3FF
  const CHUNK_SIZE: int := 8
  const HEAP_CHUNKS: int := (HEAP_END - HEAP_START) / CHUNK_SIZE

  /** What `kfree` does with a pointer. `OutsideArray` is a write past the end of `memory`. */
  datatype FreeOutcome = Done | Panic | OutsideArray

  /** The chunks a request of `size` bytes takes; the addition is done in a machine word. */
  function ChunksFor(size: Word): nat {
    U16(size + CHUNK_SIZE) / CHUNK_SIZE
  }

  function Address(chunk: nat): int {
    HEAP_START + chunk * CHUNK_SIZE
  }

  /** Unless the rounding wraps, a block is strictly larger than the request it serves. */
  lemma BlockExceedsRequest(size: Word)
    ensures size + 8 < 0x1_0000 ==> size < ChunksFor(size) * 8 <= size + 8
    ensures size + 8 >= 0x1_0000 ==> ChunksFor(size) == 0
  {}

  class Heap {
    var memory: array<nat>

    ghost predicate Valid()
      reads this, memory
    {
      memory.Length == HEAP_CHUNKS && Tiled(memory[..])
    }

    /** `init_malloc` on the static array. */
    constructor ()
      ensures Valid() && fresh(memory) && memory.Length == 2175 && Blocks(memory[..]) == {}
    {
      memory := new nat[HEAP_CHUNKS](_ => 0);
    }

    /** `kmalloc`; `None` is the out-of-memory panic. */
    method Kmalloc(size: Word) returns (ptr: Option<int>)
      requires Valid()
      modifies memory
      ensures Valid() && memory == old(memory)
      ensures ptr == None ==> memory[..] == old(memory[..])
      ensures ptr == None <==>
              (size + 8 >= 0x1_0000 || forall s :: 0 <= s ==> !AllFree(old(memory[..]), s, ChunksFor(size)))
      ensures ptr.Some? ==>
                var s := (ptr.value - 0xA000) / 8;
                && s >= 0 && ptr.value == 0xA000 + 8 * s && ptr.value + size < 0xE3FF
                && FirstFit(old(memory[..]), s, ChunksFor(size))
                && memory[..] == old(memory[..])[s := ChunksFor(size)]
                && Blocks(memory[..]) == old(Blocks(memory[..])) + {(s, ChunksFor(size))}
                && (forall b <- old(Blocks(memory[..])) :: Disjoint(b, (s, ChunksFor(size))))
                && FreeCount(memory[..], HEAP_CHUNKS) == old(FreeCount(memory[..], HEAP_CHUNKS)) - ChunksFor(size)
    {
      hide Tiled, Free, AllFree, FirstFit, Scanned, Blocks, Disjoint;
      var sizeInChunks := ChunksFor(size);
      BlockExceedsRequest(size);
      ghost var m := memory[..];
      ptr := None;
      var freeChunks, currentChunk := 0, 0;
      if sizeInChunks > 0 {
        ScanStart(m, sizeInChunks);
      }
      while currentChunk < memory.Length
        invariant memory[..] == m && ptr == None
        invariant 0 <= currentChunk && 0 <= freeChunks
        invariant sizeInChunks > 0 ==> Scanned(m, currentChunk, freeChunks, sizeInChunks)
        invariant sizeInChunks > 0 ==> freeChunks < sizeInChunks
        decreases memory.Length - currentChunk
      {
        if memory[currentChunk] == 0 {
          freeChunks := freeChunks + 1;
          if freeChunks == sizeInChunks {
            ScanFree(m, currentChunk, freeChunks - 1, sizeInChunks);
            var s := currentChunk - sizeInChunks + 1;
            ptr := Some(Address(s));
            Allocate(m, s, sizeInChunks);
            AllocateCount(m, s, sizeInChunks, |m|);
            memory[s] := sizeInChunks;
            assert memory[..] == m[s := sizeInChunks];
            break;
          }
          if sizeInChunks > 0 {
            ScanFree(m, currentChunk, freeChunks - 1, sizeInChunks);
          }
          currentChunk := currentChunk + 1;
        } else {
          if sizeInChunks > 0 {
            ScanBlock(m, currentChunk, freeChunks, sizeInChunks);
          }
          freeChunks := 0;
          currentChunk := currentChunk + memory[currentChunk];
        }
      }
      if ptr == None && sizeInChunks > 0 {
        ScanEnd(m, currentChunk, freeChunks, sizeInChunks);
      }
    }

    /** `mem_free_size` counts two bytes for every byte of a free chunk. */
    method MemFreeSize() returns (bytes: int)
      requires Valid()
      ensures bytes == 16 * FreeCount(memory[..], HEAP_CHUNKS)
      ensures bytes < WORD
    {
      ghost var m := memory[..];
      var free := 0;
      var currentChunk := 0;
      while currentChunk < memory.Length
        invariant 0 <= currentChunk <= memory.Length && Boundary(m, currentChunk)
        invariant free == CHUNK_SIZE * FreeCount(m, currentChunk)
        decreases memory.Length - currentChunk
      {
        if memory[currentChunk] == 0 {
          assert Free(m, currentChunk);
          free := free + CHUNK_SIZE;
          currentChunk := currentChunk + 1;
        } else {
          CountSkipsBlock(m, currentChunk, m[currentChunk]);
          currentChunk := currentChunk + memory[currentChunk];
        }
      }
      CountBound(m, memory.Length);
      bytes := free * 2;
    }

    /** `kfree` clears the entry its pointer falls on; for a live block that frees exactly the block. */
    method Kfree(ptr: Word) returns (outcome: FreeOutcome)
      requires Valid()
      modifies memory
      ensures Valid() && memory == old(memory)
      ensures outcome == Panic <==> ptr < 0xA000 || ptr > 0xE3FF
      ensures outcome == OutsideArray <==> 0xE3F8 <= ptr <= 0xE3FF
      ensures outcome != Done ==> memory[..] == old(memory[..])
      ensures outcome == Done ==>
                var c := (ptr - 0xA000) / 8;
                && 0 <= c < HEAP_CHUNKS && memory[..] == old(memory[..])[c := 0]
                && Blocks(memory[..]) == old(Blocks(memory[..])) - {(c, old(memory[c]))}
                && (old(memory[c]) > 0 ==>
                      FreeCount(memory[..], HEAP_CHUNKS) == old(FreeCount(memory[..], HEAP_CHUNKS)) + old(memory[c]))
    {
      if ptr < HEAP_START || ptr > HEAP_END {
        return Panic;
      }
      var chunkNumber := (ptr - HEAP_START) / CHUNK_SIZE;
      if chunkNumber >= memory.Length {
        return OutsideArray;
      }
      ghost var m := memory[..];
      ReleaseTiles(m, chunkNumber);
      if m[chunkNumber] > 0 {
        ReleaseBlocks(m, chunkNumber);
        ReleaseCount(m, chunkNumber, |m|);
        assert Block(m, chunkNumber);
      } else {
        assert m[chunkNumber := 0] == m;
      }
      memory[chunkNumber] := 0;
      assert memory[..] == m[chunkNumber := 0];
      outcome := Done;
    }
  }

  lemma {:induction false} CountBound(m: Chunks, c: nat)
    requires c <= |m|
    ensures FreeCount(m, c) <= c
  {
    if c > 0 {
      CountBound(m, c - 1);
    }
  }
}
