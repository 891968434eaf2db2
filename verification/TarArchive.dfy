/** The header walk of kernel/fs/tar.c, from a whole archive to its directory tree and back to bytes. */
module TarArchive {
  import opened Machine
  import opened Strings
  import opened Virtual
  import opened DirTree
  import opened Tar

  const HEADER_SIZE: int := 500
  const SIZE_AT: int := 124
  const SIZE_DIGITS: int := 11
  const TYPE_AT: int := 156
  const MAGIC_AT: int := 257
  const PREFIX_AT: int := 345
  const DIRECTORY_TYPE: Byte := 53
  const MAGIC: seq<Byte> := [117, 115, 116, 97, 114]

  // ---- Header fields ----

  ghost predicate OctalDigits(field: seq<Byte>) {
    forall b <- field :: 48 <= b < 56
  }

  function OctalValue(field: seq<Byte>): int {
    if field == [] then 0 else OctalValue(field[..|field| - 1]) * 8 + field[|field| - 1] - 48
  }

  /** `convert_octal`: eleven digits accumulated in one machine word. */
  method ConvertOctal(field: seq<Byte>) returns (res: Word)
    requires |field| >= SIZE_DIGITS
    ensures res == U16(OctalValue(field[..SIZE_DIGITS]))
  {
    res := 0;
    var i := 0;
    while i < SIZE_DIGITS
      invariant 0 <= i <= SIZE_DIGITS && res == U16(OctalValue(field[..i]))
    {
      assert field[..i + 1][..i] == field[..i];
      var digit: int := field[i] as int;
      digit := digit - 48;
      WrappedDigit(OctalValue(field[..i]), digit);
      res := U16(res * 8 + digit);
      i := i + 1;
    }
  }

  /** Wrapping after every digit or once at the end gives the same word. */
  lemma WrappedDigit(value: int, digit: int)
    ensures U16(U16(value) * 8 + digit) == U16(value * 8 + digit)
  {
    var q := value / WORD;
    assert value == U16(value) + q * WORD;
    assert value * 8 + digit == U16(value) * 8 + digit + (q * 8) * WORD;
    U16Multiple(U16(value) * 8 + digit, q * 8);
  }

  lemma {:induction false} U16Multiple(x: int, k: int)
    ensures U16(x + k * WORD) == U16(x)
    decreases if k < 0 then -k else k
  {
    if k > 0 {
      U16Multiple(x, k - 1);
      assert x + k * WORD == (x + (k - 1) * WORD) + WORD;
    } else if k < 0 {
      U16Multiple(x, k + 1);
      assert x + k * WORD == (x + (k + 1) * WORD) - WORD;
    }
  }

  /** The characters up to the terminator: what `strlen` and `strcpy` see. */
  function CStr(bytes: seq<Byte>): string {
    if bytes == [] || bytes[0] == 0 then "" else [bytes[0] as char] + CStr(bytes[1..])
  }

  lemma {:induction false} CStrReads(bytes: seq<Byte>, name: string)
    requires |name| < |bytes| && bytes[|name|] == 0 && CString(name)
    requires forall i :: 0 <= i < |name| ==> bytes[i] == name[i] as int
    ensures CStr(bytes) == name
  {
    if name != "" {
      assert bytes[0] == name[0] as int && name[0] in name;
      CStrReads(bytes[1..], name[1..]);
      assert name == [name[0]] + name[1..];
    }
  }

  // ---- Archives ----

  datatype Member = Member(name: string, isDirectory: bool, data: seq<Byte>)

  /** After its members an archive has two empty sectors, or a sector that is no header. */
  datatype Ending = Trailer | BadHeader

  /** The header and data sectors of a member of `size` bytes. */
  function SectorsOf(size: nat): nat {
    (size + SECTOR_SIZE - 1) / SECTOR_SIZE + 1
  }

  /** A ustar header block for `m`, with a name that needs no prefix and leaves room for its terminator. */
  ghost predicate Header(s: Sector, m: Member) {
    && 0 < |m.name| < 100 && CString(m.name)
    && (forall i :: 0 <= i < |m.name| ==> s[i] == m.name[i] as int) && s[|m.name|] == 0
    && s[MAGIC_AT..MAGIC_AT + 5] == MAGIC
    && OctalDigits(s[SIZE_AT..SIZE_AT + SIZE_DIGITS])
    && OctalValue(s[SIZE_AT..SIZE_AT + SIZE_DIGITS]) == |m.data|
    && (s[TYPE_AT] == DIRECTORY_TYPE <==> m.isDirectory)
    && s[PREFIX_AT] == 0
  }

  /** What the tree and the 16-bit sizes need of a member. */
  ghost predicate Admissible(m: Member) {
    && |m.data| < 0x8000
    && LastSlash(m.name) + 1 <= NAME_SIZE - 2
    && (m.name != "" ==> m.name[0] != SLASH)
  }

  ghost predicate Archive(disk: Disk, at: nat, members: seq<Member>, ending: Ending)
    decreases |members|
  {
    if members == [] then
      match ending
      case Trailer => disk(at)[0] == 0 && disk(at + 1)[0] == 0
      case BadHeader => disk(at)[0] != 0 && disk(at)[MAGIC_AT..MAGIC_AT + 5] != MAGIC
    else
      && Header(disk(at), members[0]) && Admissible(members[0])
      && Slice(disk, at, 0, |members[0].data|) == members[0].data
      && Archive(disk, at + SectorsOf(|members[0].data|), members[1..], ending)
  }

  function InodeOf(m: Member, at: nat): Inode {
    Inode(m.name, at, |m.data|, m.isDirectory)
  }

  /** The header sector of member `k`. */
  function HeaderSector(members: seq<Member>, at: nat, k: nat): nat
    requires k <= |members|
  {
    if k == 0 then at else HeaderSector(members, at, k - 1) + SectorsOf(|members[k - 1].data|)
  }

  /** The inodes a walk over the first `k` members makes, in order. */
  function Inodes(members: seq<Member>, at: nat, k: nat): seq<Inode>
    requires k <= |members|
  {
    if k == 0 then [] else Inodes(members, at, k - 1) + [InodeOf(members[k - 1], HeaderSector(members, at, k - 1))]
  }

  /** The archive seen from its `k`-th header on. */
  lemma {:induction false} ArchiveFrom(disk: Disk, at: nat, members: seq<Member>, ending: Ending, k: nat)
    requires Archive(disk, at, members, ending) && k <= |members|
    ensures Archive(disk, HeaderSector(members, at, k), members[k..], ending)
  {
    hide Header, Slice, Admissible;
    if k == 0 {
      assert members[0..] == members;
    } else {
      ArchiveFrom(disk, at, members, ending, k - 1);
      assert members[k - 1..][0] == members[k - 1] && members[k - 1..][1..] == members[k..];
    }
  }

  /** Everything the walk reads from a header is right. */
  lemma HeaderFields(s: Sector, m: Member)
    requires Header(s, m) && Admissible(m)
    ensures s[0] != 0
    ensures s[..HEADER_SIZE][MAGIC_AT..MAGIC_AT + 5] == MAGIC
    ensures CStr(s[..HEADER_SIZE]) == m.name
    ensures U16(OctalValue(s[..HEADER_SIZE][SIZE_AT..][..SIZE_DIGITS])) == |m.data|
    ensures (s[..HEADER_SIZE][TYPE_AT] == DIRECTORY_TYPE) == m.isDirectory
  {
    hide OctalValue, LastSlash, OctalDigits;
    var h := s[..HEADER_SIZE];
    assert s[0] == m.name[0] as int && m.name[0] in m.name;
    assert h[MAGIC_AT..MAGIC_AT + 5] == s[MAGIC_AT..MAGIC_AT + 5];
    assert h[SIZE_AT..][..SIZE_DIGITS] == s[SIZE_AT..SIZE_AT + SIZE_DIGITS];
    CStrReads(h, m.name);
  }

  /**
   * `tar_make_dir_tree`: on any archive the walk ends, adds exactly one inode per member, each
   * carrying its header sector and size, and panics exactly at a sector that is no header.
   */
  method MakeDirTree(disk: Disk, ghost members: seq<Member>, ghost ending: Ending)
    returns (tree: Directory, panicked: bool)
    requires Archive(disk, 0, members, ending)
    ensures fresh(tree) && tree.Valid()
    ensures tree.added == Inodes(members, 0, |members|)
    ensures panicked <==> ending == BadHeader
  {
    hide Header, Admissible, Slice, OctalValue, CStr, LastSlash, Tree, Filed, Archive, HeaderSector, Inodes;
    WalkStart(members, 0);
    tree := new Directory(Inode("/", 0xFFFF, 0, true));
    var emptySectors, sector := 0, 0;
    ghost var k := 0;
    while emptySectors < 2
      invariant tree.Valid() && fresh(tree)
      invariant 0 <= k <= |members| && tree.added == Inodes(members, 0, k)
      invariant 0 <= emptySectors <= 2 && 0 <= sector
      invariant emptySectors == 0 ==> sector == HeaderSector(members, 0, k)
      invariant emptySectors > 0 ==> k == |members| && ending == Trailer
      invariant emptySectors == 1 ==> disk(sector)[0] == 0
      decreases |members| - k, 2 - emptySectors
    {
      var header := disk(sector)[..HEADER_SIZE];
      if emptySectors == 0 {
        WalkStep(disk, members, ending, k);
      }
      if header[0] == 0 {
        emptySectors := emptySectors + 1;
        sector := sector + 1;
        continue;
      }
      if header[MAGIC_AT..MAGIC_AT + 5] != MAGIC {
        return tree, true;
      }
      var size := ConvertOctal(header[SIZE_AT..]);
      var name := CStr(header);
      var inode := Inode(name, sector, size, header[TYPE_AT] == DIRECTORY_TYPE);
      assert inode == InodeOf(members[k], sector);
      tree.AddPath(inode);
      sector := sector + (size + SECTOR_SIZE - 1) / SECTOR_SIZE + 1;
      k := k + 1;
    }
    panicked := false;
  }

  lemma WalkStart(members: seq<Member>, at: nat)
    ensures HeaderSector(members, at, 0) == at && Inodes(members, at, 0) == []
  {}

  /** What the walk meets at the sector behind its first `k` members. */
  lemma WalkStep(disk: Disk, members: seq<Member>, ending: Ending, k: nat)
    requires Archive(disk, 0, members, ending) && k <= |members|
    ensures var at := HeaderSector(members, 0, k);
            var h := disk(at)[..HEADER_SIZE];
            if k < |members| then
              var m := members[k];
              && h[0] != 0 && h[MAGIC_AT..MAGIC_AT + 5] == MAGIC
              && m.name != "" && CString(m.name) && LastSlash(m.name) + 1 <= NAME_SIZE - 2
              && CStr(h) == m.name && U16(OctalValue(h[SIZE_AT..][..SIZE_DIGITS])) == |m.data|
              && (h[TYPE_AT] == DIRECTORY_TYPE) == m.isDirectory
              && HeaderSector(members, 0, k + 1) == at + SectorsOf(|m.data|)
              && Inodes(members, 0, k + 1) == Inodes(members, 0, k) + [InodeOf(m, at)]
            else if ending == Trailer then
              h[0] == 0 && disk(at + 1)[0] == 0
            else
              h[0] != 0 && h[MAGIC_AT..MAGIC_AT + 5] != MAGIC
  {
    hide Header, Admissible, Slice, OctalValue, CStr, LastSlash;
    ArchiveFrom(disk, 0, members, ending, k);
    var at := HeaderSector(members, 0, k);
    if k < |members| {
      assert members[k..][0] == members[k];
      HeaderFields(disk(at), members[k]);
      MemberFacts(disk(at), members[k]);
    } else {
      assert disk(at)[..HEADER_SIZE][MAGIC_AT..MAGIC_AT + 5] == disk(at)[MAGIC_AT..MAGIC_AT + 5];
    }
  }

  lemma MemberFacts(s: Sector, m: Member)
    requires Header(s, m) && Admissible(m)
    ensures m.name != "" && CString(m.name) && LastSlash(m.name) + 1 <= NAME_SIZE - 2 && |m.data| < 0x8000
  {}

  // ---- From a name back to the bytes ----

  ghost predicate DistinctNames(members: seq<Member>) {
    forall i, j :: 0 <= i < j < |members| ==> members[i].name != members[j].name
  }

  lemma {:induction false} FirstNamedAppend(a: seq<Inode>, b: Inode, path: string)
    ensures FirstNamed(a + [b], path)
            == if FirstNamed(a, path).Some? then FirstNamed(a, path)
               else if b.name == path then Some(b) else None
  {
    if a == [] {
      assert a + [b] == [b];
      assert [b][1..] == [];
    } else {
      assert (a + [b])[1..] == a[1..] + [b];
      FirstNamedAppend(a[1..], b, path);
    }
  }

  /** A scan of the first `n` inodes finds member `k` once it is among them. */
  lemma {:induction false} MemberIsListed(members: seq<Member>, at: nat, k: nat, n: nat)
    requires DistinctNames(members) && k < |members| && n <= |members|
    ensures FirstNamed(Inodes(members, at, n), members[k].name)
            == if k < n then Some(InodeOf(members[k], HeaderSector(members, at, k))) else None
  {
    if n > 0 {
      MemberIsListed(members, at, k, n - 1);
      var last := InodeOf(members[n - 1], HeaderSector(members, at, n - 1));
      FirstNamedAppend(Inodes(members, at, n - 1), last, members[k].name);
    }
  }

  /** The inode of a member leads to its bytes. */
  lemma MemberBytes(disk: Disk, members: seq<Member>, ending: Ending, k: nat)
    requires Archive(disk, 0, members, ending) && k < |members|
    ensures Slice(disk, HeaderSector(members, 0, k), 0, |members[k].data|) == members[k].data
    ensures |members[k].data| < 0x8000 && members[k].name != "" && CString(members[k].name)
    ensures members[k].name[0] != SLASH
  {
    hide LastSlash, Slice, OctalValue;
    ArchiveFrom(disk, 0, members, ending, k);
    assert members[k..][0] == members[k];
  }

  /**
   * Mount, look up, read: for every archive with distinct names and every member that is a file,
   * looking the name up in the walked tree and reading in pieces of at most 1024 bytes stores exactly
   * the member's bytes.
   */
  method ReadMember(tree: Directory, disk: Disk, mem: array<Byte>, table: PageTable, path: string, vbuff: Word,
                    piece: Word, ghost members: seq<Member>, ghost ending: Ending, ghost k: nat)
    requires tree.Valid() && tree.added == Inodes(members, 0, |members|)
    requires Archive(disk, 0, members, ending) && DistinctNames(members)
    requires k < |members| && path == members[k].name && !DirName(path)
    requires Fits(mem[..], table) && 0 < piece <= 1024
    modifies mem
    ensures mem[..] == WriteThrough(old(mem[..]), table, vbuff, members[k].data)
  {
    hide WriteThrough, Slice, Archive, Delivered, FirstNamed, Inodes, HeaderSector, U16;
    ghost var before := mem[..];
    MemberBytes(disk, members, ending, k);
    MemberIsListed(members, 0, k, |members|);
    var found := tree.GetFile(path);
    var file := new OpenFile(found.value.fid, found.value.size);
    WriteEmptySlice(before, table, vbuff, disk, file.fid, 0);
    U16Word(vbuff);
    while true
      invariant 0 <= file.offset <= file.size && mem.Length == |before|
      invariant mem[..] == WriteThrough(before, table, vbuff, Slice(disk, file.fid, 0, file.offset))
      decreases file.size - file.offset
    {
      ghost var off := file.offset;
      ShortClamp(off, piece, file.size);
      var n := Clamp(off, piece, file.size);
      ShortReadsDeliverAll(off, n);
      SliceConcat(disk, file.fid, 0, off, n);
      WriteConcat(before, table, vbuff, Slice(disk, file.fid, 0, off), Slice(disk, file.fid, off, n));
      assert Fits(mem[..], table);
      U16Word(off + n);
      var got, _ := file.Read(mem, table, disk, U16(vbuff + file.offset), piece);
      if got == 0 {
        break;
      }
    }
  }

  /** A short read makes progress until the end of the file. */
  lemma ShortClamp(off: nat, len: Word, size: nat)
    requires off <= size < 0x8000 && 0 < len <= 1024
    ensures Clamp(off, len, size) <= 1024 && off + Clamp(off, len, size) <= size
    ensures Clamp(off, len, size) == 0 <==> off == size
  {
    ClampIsMin(off, len, size);
  }
}
