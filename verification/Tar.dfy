/**
 * The read-only TAR file system of kernel/fs/tar.c over the block reads of kernel/driver/sd.c, for
 * archives in the "ustar Interchange Format" of POSIX.1-2017, utility pax.
 */
module Tar {
  import opened Machine
  import opened Virtual

  const SECTOR_SIZE: int := 512

  type Sector = s: seq<Byte> | |s| == SECTOR_SIZE witness seq(SECTOR_SIZE, _ => 0)

  /** The card: a sector for every block number. */
  type Disk = nat -> Sector

  /** The copy window of `sd_read_block`: of 512 incoming bytes, `size` from `offset` on are stored. */
  method ReadBlock(mem: array<Byte>, table: PageTable, sector: Sector, vbuff: Word, size: nat, offset: nat)
    requires Fits(mem[..], table) && offset <= SECTOR_SIZE && size + offset < WORD
    modifies mem
    ensures mem[..] == WriteThrough(old(mem[..]), table, vbuff, sector[offset..Min(offset + size, SECTOR_SIZE)])
  {
    hide WriteThrough, Translate, U16;
    ghost var before := mem[..];
    var v: int := vbuff;
    ghost var stored: seq<Byte> := [];
    WriteNothing(before, table, vbuff);
    U16Word(vbuff);
    var i := 0;
    while i < SECTOR_SIZE
      invariant 0 <= i <= SECTOR_SIZE && mem.Length == |before|
      invariant stored == if i < offset then [] else sector[offset..Min(offset + size, i)]
      invariant v == U16(vbuff + |stored|)
      invariant mem[..] == WriteThrough(before, table, vbuff, stored)
    {
      if i >= offset && i < size + offset {
        assert Fits(mem[..], table);
        TranslateInRange(mem[..], table, v);
        WriteOneMore(before, table, vbuff, stored, sector[i]);
        mem[Translate(table, v)] := sector[i];
        U16Twice(vbuff + |stored|, 1);
        v := U16(v + 1);
        stored := stored + [sector[i]];
      }
      i := i + 1;
    }
  }

  lemma WriteOneMore(mem: Memory, table: PageTable, v: Word, data: seq<Byte>, b: Byte)
    requires Fits(mem, table)
    ensures var w := WriteThrough(mem, table, v, data);
            var at := Translate(table, U16(v + |data|));
            at < |w| && WriteThrough(mem, table, v, data + [b]) == w[at := b]
  {
    WriteConcat(mem, table, v, data, [b]);
    var w := WriteThrough(mem, table, v, data);
    TranslateInRange(w, table, U16(v + |data|));
    assert [b][1..] == [];
  }

  // ---- Reading a member ----

  /** `n` bytes from offset `off` of the member whose header is sector `fid`. */
  ghost function Slice(disk: Disk, fid: nat, off: nat, n: nat): (s: seq<Byte>)
    ensures |s| == n
  {
    seq(n, i requires 0 <= i < n => disk(fid + 1 + (off + i) / SECTOR_SIZE)[(off + i) % SECTOR_SIZE])
  }

  lemma SliceConcat(disk: Disk, fid: nat, off: nat, m: nat, n: nat)
    ensures Slice(disk, fid, off, m) + Slice(disk, fid, off + m, n) == Slice(disk, fid, off, m + n)
  {
    var a, b := Slice(disk, fid, off, m) + Slice(disk, fid, off + m, n), Slice(disk, fid, off, m + n);
    forall i | 0 <= i < m + n
      ensures a[i] == b[i]
    {
      if i >= m {
        assert off + m + (i - m) == off + i;
      }
    }
  }

  /** A slice that stays inside one sector is a piece of it. */
  lemma SliceInSector(disk: Disk, fid: nat, off: nat, n: nat)
    requires off % SECTOR_SIZE + n <= SECTOR_SIZE
    ensures Slice(disk, fid, off, n)
            == disk(fid + 1 + off / SECTOR_SIZE)[off % SECTOR_SIZE..off % SECTOR_SIZE + n]
  {
    var a := Slice(disk, fid, off, n);
    var b := disk(fid + 1 + off / SECTOR_SIZE)[off % SECTOR_SIZE..off % SECTOR_SIZE + n];
    forall i | 0 <= i < n
      ensures a[i] == b[i]
    {
      assert (off + i) / SECTOR_SIZE == off / SECTOR_SIZE && (off + i) % SECTOR_SIZE == off % SECTOR_SIZE + i;
    }
  }

  /** The length a read is cut down to; the sum is one machine word. */
  function Clamp(off: nat, len: Word, size: nat): nat {
    if off >= size then 0
    else if U16(off + len) > size then size - off
    else len
  }

  lemma ClampIsMin(off: nat, len: Word, size: nat)
    requires off + len < WORD
    ensures Clamp(off, len, size) == if off >= size then 0 else Min(len, size - off)
  {}

  /** The first read stops at the end of its sector. */
  function FirstPart(off: nat, len: nat): nat {
    Min(len, SECTOR_SIZE - off % SECTOR_SIZE)
  }

  /** The full-sector loop stops half way, because its bound shrinks as it runs. */
  function FullSectors(rest: nat): nat {
    (rest / SECTOR_SIZE + 1) / 2
  }

  /** How many of `rest` bytes behind the first part are delivered. */
  function RestDelivered(rest: nat): nat {
    FullSectors(rest) * SECTOR_SIZE + Min(rest - FullSectors(rest) * SECTOR_SIZE, SECTOR_SIZE)
  }

  function Delivered(off: nat, len: nat): nat {
    FirstPart(off, len) + RestDelivered(len - FirstPart(off, len))
  }

  /** A read delivers all it reports exactly when little enough is left behind its first sector. */
  lemma DeliversAllIff(off: nat, len: nat)
    ensures Delivered(off, len) <= len
    ensures var rest := len - FirstPart(off, len);
            Delivered(off, len) == len <==> rest < 1024 || rest == 1024 || rest == 1536
  {}

  /** A read of three sectors and one byte reports bytes it did not deliver. */
  lemma LongReadFallsShort()
    ensures Delivered(0, 512 + 1025) == 512 + 1024
  {}

  lemma ShortReadsDeliverAll(off: nat, len: nat)
    requires len <= 1024
    ensures Delivered(off, len) == len
  {
    DeliversAllIff(off, len);
  }

  /** An open file: the inode fields a read uses and the offset it moves. */
  class OpenFile {
    const fid: nat
    const size: nat
    var offset: Word

    constructor (fid: nat, size: nat)
      ensures this.fid == fid && this.size == size && offset == 0
    {
      this.fid := fid;
      this.size := size;
      offset := 0;
    }

    /**
     * `tar_read_blocking`, with its sector arithmetic as written. `loops` counts the iterations of
     * the full-sector loop.
     */
    method Read(mem: array<Byte>, table: PageTable, disk: Disk, vbuff: Word, len: Word)
      returns (res: nat, ghost loops: nat)
      requires Fits(mem[..], table)
      modifies this`offset, mem
      ensures var off, n := old(offset), Clamp(old(offset), len, size);
              && res == n && offset == U16(off + n)
              && loops == FullSectors(n - FirstPart(off, n))
              && mem[..] == WriteThrough(old(mem[..]), table, vbuff, Slice(disk, fid, off, Delivered(off, n)))
    {
      hide WriteThrough, Slice, U16, FullSectors, RestDelivered;
      ghost var before := mem[..];
      ghost var off := offset;
      if offset >= size {
        NothingDelivered(before, table, vbuff, disk, fid, off);
        U16Word(offset);
        return 0, 0;
      }
      var n := if U16(offset + len) > size then size - offset else len;
      var pos := offset % SECTOR_SIZE;
      var sector := fid + offset / SECTOR_SIZE + 1;

      var readLen := Min(n, SECTOR_SIZE - pos);
      assert readLen == FirstPart(off, n);
      SliceInSector(disk, fid, off, readLen);
      ReadBlock(mem, table, disk(sector), vbuff, readLen, pos);
      sector := sector + 1;

      assert Fits(mem[..], table);
      loops := ReadRest(mem, table, disk, U16(vbuff + readLen), sector, n - readLen);
      PartsJoin(before, table, vbuff, disk, fid, off, n);
      offset := U16(offset + n);
      res := n;
    }
  }

  /** The part of `tar_read_blocking` behind the first sector. */
  method ReadRest(mem: array<Byte>, table: PageTable, disk: Disk, vbuff: Word, first: nat, rest: nat)
    returns (ghost loops: nat)
    requires Fits(mem[..], table) && first > 0 && rest < WORD
    modifies mem
    ensures loops == FullSectors(rest)
    ensures mem[..] == WriteThrough(old(mem[..]), table, vbuff, Slice(disk, first - 1, 0, RestDelivered(rest)))
  {
    hide WriteThrough, Slice, U16;
    ghost var before := mem[..];
    ghost var fid := first - 1;
    loops := 0;
    WriteEmptySlice(before, table, vbuff, disk, fid, 0);
    if rest > 0 {
      U16Word(vbuff);
      var v: int, sector, newLen := vbuff, first, rest;
      var i := 0;
      while i < newLen / SECTOR_SIZE
        invariant 0 <= i && newLen == rest - i * SECTOR_SIZE >= 0 && i <= FullSectors(rest)
        invariant loops == i && mem.Length == |before| && sector == first + i
        invariant v == U16(vbuff + i * SECTOR_SIZE)
        invariant mem[..] == WriteThrough(before, table, vbuff, Slice(disk, fid, 0, i * SECTOR_SIZE))
        decreases newLen
      {
        MoreSectors(disk, fid, i, SECTOR_SIZE, before, table, vbuff);
        assert Fits(mem[..], table);
        ReadBlock(mem, table, disk(sector), v, SECTOR_SIZE, 0);
        U16Twice(vbuff + i * SECTOR_SIZE, SECTOR_SIZE);
        v := U16(v + SECTOR_SIZE);
        newLen := newLen - SECTOR_SIZE;
        sector := sector + 1;
        loops := loops + 1;
        i := i + 1;
      }
      assert i == FullSectors(rest);
      if newLen > 0 {
        MoreSectors(disk, fid, i, Min(newLen, SECTOR_SIZE), before, table, vbuff);
        assert Fits(mem[..], table);
        ReadBlock(mem, table, disk(sector), v, newLen, 0);
      }
    }
  }

  lemma WriteEmptySlice(mem: Memory, table: PageTable, v: Word, disk: Disk, fid: nat, off: nat)
    requires Fits(mem, table)
    ensures WriteThrough(mem, table, v, Slice(disk, fid, off, 0)) == mem
  {}

  lemma NothingDelivered(mem: Memory, table: PageTable, v: Word, disk: Disk, fid: nat, off: nat)
    requires Fits(mem, table)
    ensures FullSectors(0 - FirstPart(off, 0)) == 0
    ensures WriteThrough(mem, table, v, Slice(disk, fid, off, Delivered(off, 0))) == mem
  {
    WriteEmptySlice(mem, table, v, disk, fid, off);
  }

  /** From a sector boundary on, a member reads like one that starts there. */
  lemma SliceShift(disk: Disk, fid: nat, off: nat, n: nat)
    requires off % SECTOR_SIZE == 0
    ensures Slice(disk, fid, off, n) == Slice(disk, fid + off / SECTOR_SIZE, 0, n)
  {
    var a, b := Slice(disk, fid, off, n), Slice(disk, fid + off / SECTOR_SIZE, 0, n);
    forall i | 0 <= i < n
      ensures a[i] == b[i]
    {
      assert (off + i) / SECTOR_SIZE == off / SECTOR_SIZE + i / SECTOR_SIZE;
      assert (off + i) % SECTOR_SIZE == i % SECTOR_SIZE;
    }
  }

  /** First part and rest make up the whole delivery. */
  lemma PartsJoin(mem: Memory, table: PageTable, v: Word, disk: Disk, fid: nat, off: nat, n: nat)
    requires Fits(mem, table)
    ensures var first := FirstPart(off, n);
            WriteThrough(mem, table, v, Slice(disk, fid, off, Delivered(off, n)))
            == WriteThrough(WriteThrough(mem, table, v, Slice(disk, fid, off, first)), table, U16(v + first),
                            Slice(disk, fid + off / SECTOR_SIZE + 1, 0, RestDelivered(n - first)))
  {
    hide WriteThrough, Slice, U16, FullSectors;
    var first := FirstPart(off, n);
    var rest := RestDelivered(n - first);
    SliceConcat(disk, fid, off, first, rest);
    WriteConcat(mem, table, v, Slice(disk, fid, off, first), Slice(disk, fid, off + first, rest));
    if n == first {
      NoRest();
      EmptySlices(disk, fid, off + first, fid + off / SECTOR_SIZE + 1);
    } else {
      assert (off + first) % SECTOR_SIZE == 0 && (off + first) / SECTOR_SIZE == off / SECTOR_SIZE + 1;
      SliceShift(disk, fid, off + first, rest);
    }
  }

  lemma NoRest()
    ensures RestDelivered(0) == 0
  {}

  lemma EmptySlices(disk: Disk, fid: nat, off: nat, fid': nat)
    ensures Slice(disk, fid, off, 0) == Slice(disk, fid', 0, 0)
  {}

  /** The next sector continues the slice already written. */
  lemma MoreSectors(disk: Disk, fid: nat, i: nat, n: nat, mem: Memory, table: PageTable, v: Word)
    requires Fits(mem, table) && n <= SECTOR_SIZE
    ensures var done := i * SECTOR_SIZE;
            WriteThrough(mem, table, v, Slice(disk, fid, 0, done + n))
            == WriteThrough(WriteThrough(mem, table, v, Slice(disk, fid, 0, done)), table, U16(v + done),
                            disk(fid + 1 + i)[0..n])
  {
    hide WriteThrough, Slice, U16;
    var done := i * SECTOR_SIZE;
    SliceConcat(disk, fid, 0, done, n);
    SliceInSector(disk, fid, done, n);
    WriteConcat(mem, table, v, Slice(disk, fid, 0, done), Slice(disk, fid, done, n));
  }

  // ---- Reading in pieces ----

  /** What consecutive reads of the given lengths deliver, one after the other. */
  ghost function Pieces(disk: Disk, fid: nat, size: nat, off: nat, lens: seq<Word>): seq<Byte>
    decreases |lens|
  {
    if lens == [] then
      []
    else
      var n := Clamp(off, lens[0], size);
      Slice(disk, fid, off, Delivered(off, n)) + Pieces(disk, fid, size, off + n, lens[1..])
  }

  /** Reads of at most 1024 bytes join up to the file, however they are cut. */
  lemma {:induction false} PiecesConcatenate(disk: Disk, fid: nat, size: nat, off: nat, lens: seq<Word>)
    requires off <= size && size + 1024 < WORD
    requires forall n <- lens :: n <= 1024
    ensures Pieces(disk, fid, size, off, lens) == Slice(disk, fid, off, Min(Sum(lens), size - off))
    decreases |lens|
  {
    hide Slice, Delivered, Clamp;
    if lens == [] {
      EmptySlice(disk, fid, off);
    } else {
      assert lens[0] in lens && forall n <- lens[1..] :: n in lens;
      var n := Clamp(off, lens[0], size);
      ClampIsMin(off, lens[0], size);
      ShortReadsDeliverAll(off, n);
      PiecesConcatenate(disk, fid, size, off + n, lens[1..]);
      SliceConcat(disk, fid, off, n, Min(Sum(lens[1..]), size - off - n));
    }
  }

  lemma EmptySlice(disk: Disk, fid: nat, off: nat)
    ensures Slice(disk, fid, off, 0) == []
  {}
}
