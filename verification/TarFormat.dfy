/**
 * The other direction of TarArchive: the sectors a ustar writer lays out for a list of members, and that the
 * walk of kernel/fs/tar.c finds in them what was written. Fields that the kernel does not read are zero.
 */
module TarFormat {
  import opened Machine
  import opened Strings
  import opened Virtual
  import opened DirTree
  import opened Tar
  import opened TarArchive

  // ---- Header blocks ----

  function Zeros(n: nat): (z: seq<Byte>)
    ensures |z| == n && forall i :: 0 <= i < n ==> z[i] == 0
  {
    seq(n, _ => 0)
  }

  /** `n` in octal, with leading zeros. */
  function Octal(n: nat, digits: nat): (f: seq<Byte>)
    ensures |f| == digits && OctalDigits(f)
  {
    if digits == 0 then [] else Octal(n / 8, digits - 1) + [48 + n % 8]
  }

  function Power8(n: nat): nat {
    if n == 0 then 1 else 8 * Power8(n - 1)
  }

  lemma {:induction false} OctalReads(n: nat, digits: nat)
    requires n < Power8(digits)
    ensures OctalValue(Octal(n, digits)) == n
  {
    if digits > 0 {
      OctalReads(n / 8, digits - 1);
      assert Octal(n, digits)[..digits - 1] == Octal(n / 8, digits - 1);
    }
  }

  /** What a member of an archive may be, for this kernel. */
  ghost predicate Storable(m: Member) {
    && 0 < |m.name| < 100 && CString(m.name) && (forall c <- m.name :: c as int < 256)
    && m.name[0] != SLASH && LastSlash(m.name) <= 29 && |m.data| < 0x8000
  }

  ghost function NameBytes(name: string): (b: seq<Byte>)
    requires forall c <- name :: c as int < 256
    ensures |b| == |name| && forall i :: 0 <= i < |name| ==> b[i] == name[i] as int
  {
    if name == "" then []
    else
      assert name[0] in name && forall c <- name[1..] :: c in name;
      [name[0] as int] + NameBytes(name[1..])
  }

  /** Name, mode, owner; size; time and checksum; type; link name; "ustar"; owner names, devices and prefix. */
  ghost function HeaderBlock(m: Member): (s: Sector)
    requires Storable(m)
  {
    var name := NameBytes(m.name);
    var kind: seq<Byte> := [if m.isDirectory then 53 else 48];
    var magic: seq<Byte> := [117, 115, 116, 97, 114];
    name + Zeros(124 - |m.name|) + Octal(|m.data|, 11) + Zeros(21) + kind + Zeros(100) + magic + Zeros(250)
  }

  /** The walk reads such a block as the member it was made for. */
  lemma HeaderReads(m: Member)
    requires Storable(m)
    ensures Header(HeaderBlock(m), m) && Admissible(m)
  {
    hide LastSlash, Octal, OctalValue;
    var s := HeaderBlock(m);
    assert Power8(11) >= 0x8000;
    OctalReads(|m.data|, 11);
    assert s[124..135] == Octal(|m.data|, 11);
    assert s[257..262] == [117, 115, 116, 97, 114];
  }

  // ---- Whole archives ----

  /** Sector `i` of a file's data, the last one filled up with zeros. */
  function DataSector(data: seq<Byte>, i: nat): Sector {
    seq(512, j requires 0 <= j < 512 => if 512 * i + j < |data| then data[512 * i + j] else 0)
  }

  /** Sector `x` of the archive: header, data, header, data, and behind the last member nothing but zeros. */
  ghost function Written(members: seq<Member>, x: nat): Sector
    requires forall m <- members :: Storable(m)
    decreases |members|
  {
    if members == [] then Zeros(512)
    else
      var m := members[0];
      var n := (|m.data| + 511) / 512;
      if x == 0 then HeaderBlock(m)
      else if x <= n then DataSector(m.data, x - 1)
      else Written(members[1..], x - n - 1)
  }

  /** `disk` has the archive from sector `at` on. */
  ghost predicate OnDisk(disk: Disk, at: nat, members: seq<Member>)
    requires forall m <- members :: Storable(m)
  {
    forall x: nat :: x >= at ==> disk(x) == Written(members, x - at)
  }

  lemma DataReads(disk: Disk, at: nat, members: seq<Member>)
    requires members != [] && (forall m <- members :: Storable(m)) && OnDisk(disk, at, members)
    ensures Slice(disk, at, 0, |members[0].data|) == members[0].data
  {
    hide HeaderBlock, Storable;
    var data := members[0].data;
    forall i | 0 <= i < |data|
      ensures Slice(disk, at, 0, |data|)[i] == data[i]
    {
      var q := i / 512;
      assert q + 1 <= (|data| + 511) / 512;
      assert disk(at + 1 + q) == Written(members, q + 1);
      assert disk(at + 1 + q) == DataSector(data, q);
      assert 512 * q + i % 512 == i;
    }
  }

  /** For every list of storable members, what is written is an archive of exactly these members. */
  lemma {:induction false} WrittenIsArchive(disk: Disk, at: nat, members: seq<Member>)
    requires (forall m <- members :: Storable(m)) && OnDisk(disk, at, members)
    ensures Archive(disk, at, members, Trailer)
    decreases |members|
  {
    hide Storable, Header, Admissible, Slice, HeaderBlock, DataSector;
    if members == [] {
      assert disk(at) == Zeros(512) && disk(at + 1) == Zeros(512);
    } else {
      var m, rest := members[0], members[1..];
      var next := at + SectorsOf(|m.data|);
      assert forall r <- rest :: r in members;
      assert disk(at) == HeaderBlock(m);
      HeaderReads(m);
      DataReads(disk, at, members);
      forall x: nat | x >= next
        ensures disk(x) == Written(rest, x - next)
      {
        assert disk(x) == Written(members, x - at);
      }
      WrittenIsArchive(disk, next, rest);
    }
  }

  /**
   * Write, mount, look up, read: every file of every list of storable members with distinct names comes back
   * byte for byte, whatever the size of the pieces up to 1024 bytes.
   */
  method RoundTrip(disk: Disk, mem: array<Byte>, table: PageTable, vbuff: Word, piece: Word, path: string,
                   ghost members: seq<Member>, ghost k: nat)
    requires (forall m <- members :: Storable(m)) && DistinctNames(members) && OnDisk(disk, 0, members)
    requires k < |members| && path == members[k].name && !DirName(path)
    requires Fits(mem[..], table) && 0 < piece <= 1024
    modifies mem
    ensures mem[..] == WriteThrough(old(mem[..]), table, vbuff, members[k].data)
  {
    hide Archive, WriteThrough, OnDisk, Storable;
    WrittenIsArchive(disk, 0, members);
    var tree, _ := MakeDirTree(disk, members, Trailer);
    ReadMember(tree, disk, mem, table, path, vbuff, piece, members, Trailer, k);
  }
}
