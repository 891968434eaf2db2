/** Loading one segment of an executable into the pages of a new process (kernel/proc/elf.c). */
module Elf {
  import opened Machine
  import opened Virtual

  // ---- Which pieces the loader loads ----

  /** `len` file bytes that go to virtual address `at`, inside one page. */
  datatype Piece = Piece(at: Word, len: nat)

  function PageBase(v: Word): Word {
    v - v % PAGE_SIZE
  }

  /** The first page, up to `MIN(PAGE_SIZE - 1, end_addr - vaddr)`. */
  function FirstPiece(vaddr: Word, size: Word): Piece
    requires size > 0
  {
    Piece(vaddr, Max(0, Min(PAGE_SIZE - 1, size - 1) - vaddr % PAGE_SIZE + 1))
  }

  /** Where the loader goes on; `end_addr + 1` is computed in 16 bits. */
  function SecondPage(vaddr: Word, size: Word): Word {
    U16(vaddr + Min(PAGE_SIZE - vaddr % PAGE_SIZE, U16(vaddr + size)))
  }

  /** `pages`, computed in 16 bits. */
  function PageCount(size: Word): nat {
    U16(size + PAGE_SIZE - 1) / PAGE_SIZE
  }

  function FullPieces(v: Word, k: nat): (ps: seq<Piece>)
    ensures |ps| == k
    decreases k
  {
    if k == 0 then [] else [Piece(PageBase(v), PAGE_SIZE)] + FullPieces(U16(v + PAGE_SIZE), k - 1)
  }

  function LastPiece(v: Word, vaddr: Word, size: Word): Piece
    requires size > 0
  {
    Piece(PageBase(v), U16(vaddr + size - 1) % PAGE_SIZE + 1)
  }

  function Pieces(vaddr: Word, size: Word): seq<Piece>
    requires size > 0
  {
    var n := PageCount(size);
    var v := SecondPage(vaddr, size);
    [FirstPiece(vaddr, size)]
    + if n > 1 then FullPieces(v, n - 2) + [LastPiece(U16(v + (n - 2) * PAGE_SIZE), vaddr, size)] else []
  }

  /** The pieces take `n` consecutive file bytes to consecutive addresses from `v` on. */
  predicate Contiguous(ps: seq<Piece>, v: Word, n: int) {
    if ps == [] then n == 0
    else ps[0].at == v && ps[0].len <= n && Contiguous(ps[1..], U16(v + ps[0].len), n - ps[0].len)
  }

  lemma {:induction false} FullThenLast(v: Word, k: nat, last: nat, n: int)
    requires v % PAGE_SIZE == 0
    ensures Contiguous(FullPieces(v, k) + [Piece(U16(v + k * PAGE_SIZE), last)], v, n) <==> n == k * PAGE_SIZE + last
    decreases k
  {
    hide U16;
    var tail := [Piece(U16(v + k * PAGE_SIZE), last)];
    if k == 0 {
      U16Word(v);
      assert FullPieces(v, k) + tail == tail;
      assert tail[1..] == [];
    } else {
      var next := U16(v + PAGE_SIZE);
      NextAligned(v);
      FullThenLast(next, k - 1, last, n - PAGE_SIZE);
      U16Twice(v + PAGE_SIZE, (k - 1) * PAGE_SIZE);
      var ps := FullPieces(v, k) + tail;
      assert ps[0] == Piece(v, PAGE_SIZE);
      assert ps[1..] == FullPieces(next, k - 1) + tail;
    }
  }

  lemma NextAligned(v: Word)
    requires v % PAGE_SIZE == 0
    ensures U16(v + PAGE_SIZE) % PAGE_SIZE == 0
  {}

  /**
   * The segments that are loaded in full: of at most a page, those that start on a page; of more, those
   * that touch no more pages than their size suggests, end below the last byte of the address space, and
   * whose page count does not overflow.
   */
  predicate Loadable(vaddr: Word, size: Word) {
    var o := vaddr % PAGE_SIZE;
    if size <= PAGE_SIZE then o == 0
    else size <= WORD - PAGE_SIZE && vaddr + size < WORD && (o + size - 1) / PAGE_SIZE == (size - 1) / PAGE_SIZE
  }

  /** Every file byte goes to its place exactly for these segments. */
  lemma LoadsAllIff(vaddr: Word, size: Word)
    requires size > 0 && vaddr + size <= WORD
    ensures Contiguous(Pieces(vaddr, size), vaddr, size) <==> Loadable(vaddr, size)
  {
    hide Contiguous, FullPieces, FirstPiece, SecondPage, PageCount, PageBase, U16, Loadable;
    var ps := Pieces(vaddr, size);
    var n := PageCount(size);
    PageCountFacts(size);
    ContiguousFirst(ps, vaddr, size);
    var first := FirstPiece(vaddr, size);
    FirstFacts(vaddr, size);
    if n <= 1 {
      assert ps[1..] == [];
      ContiguousNone(U16(vaddr + first.len), size - first.len);
      SmallSegment(vaddr, size);
    } else {
      var v := SecondPage(vaddr, size);
      var last := LastPiece(U16(v + (n - 2) * PAGE_SIZE), vaddr, size);
      var rest := FullPieces(v, n - 2) + [last];
      assert ps[1..] == rest;
      SecondPageIff(vaddr, size);
      if vaddr + size < WORD {
        BaseAhead(v, n - 2);
        FullThenLast(v, n - 2, last.len, size - first.len);
        LargeSegment(vaddr, size);
      } else {
        U16Word(v);
        RestStart(v, n - 2, last);
        NotLoadable(vaddr, size);
        ContiguousFirst(rest, U16(vaddr + first.len), size - first.len);
      }
    }
  }

  /** A segment up to the end of the address space and a short unaligned one are not. */
  lemma NotEverySegment()
    ensures !Contiguous(Pieces(0xe000, 0x2000), 0xe000, 0x2000)
    ensures !Contiguous(Pieces(0x1100, 0x50), 0x1100, 0x50)
  {
    hide Contiguous, Pieces;
    LoadsAllIff(0xe000, 0x2000);
    LoadsAllIff(0x1100, 0x50);
  }

  lemma PageCountFacts(size: Word)
    requires size > 0
    ensures PageCount(size) == (if size <= WORD - PAGE_SIZE then (size - 1) / PAGE_SIZE + 1 else 0)
  {}

  lemma ContiguousFirst(ps: seq<Piece>, v: Word, n: int)
    requires ps != []
    ensures Contiguous(ps, v, n)
            <==> ps[0].at == v && ps[0].len <= n && Contiguous(ps[1..], U16(v + ps[0].len), n - ps[0].len)
  {}

  lemma ContiguousNone(v: Word, n: int)
    ensures Contiguous([], v, n) <==> n == 0
  {}

  lemma FirstFacts(vaddr: Word, size: Word)
    requires size > 0
    ensures FirstPiece(vaddr, size).at == vaddr && FirstPiece(vaddr, size).len <= size
  {}

  lemma NotLoadable(vaddr: Word, size: Word)
    requires size > PAGE_SIZE && vaddr + size == WORD
    ensures !Loadable(vaddr, size)
  {}

  lemma SmallSegment(vaddr: Word, size: Word)
    requires size > 0 && vaddr + size <= WORD && PageCount(size) <= 1
    ensures FirstPiece(vaddr, size).len == size <==> Loadable(vaddr, size)
  {
    PageCountFacts(size);
  }

  /** The second page starts where the first piece ends, except when the segment ends with the address space. */
  lemma SecondPageIff(vaddr: Word, size: Word)
    requires size > PAGE_SIZE && vaddr + size <= WORD
    ensures FirstPiece(vaddr, size).len == PAGE_SIZE - vaddr % PAGE_SIZE
    ensures vaddr + size < WORD ==> SecondPage(vaddr, size) == U16(vaddr + FirstPiece(vaddr, size).len)
    ensures vaddr + size < WORD ==> SecondPage(vaddr, size) % PAGE_SIZE == 0
    ensures vaddr + size == WORD ==> PageBase(SecondPage(vaddr, size)) != U16(vaddr + FirstPiece(vaddr, size).len)
  {}

  lemma BaseAhead(v: Word, k: nat)
    requires v % PAGE_SIZE == 0
    ensures PageBase(U16(v + k * PAGE_SIZE)) == U16(v + k * PAGE_SIZE)
  {
    assert (v + k * PAGE_SIZE) % PAGE_SIZE == 0;
  }

  lemma LargeSegment(vaddr: Word, size: Word)
    requires PAGE_SIZE < size <= WORD - PAGE_SIZE && vaddr + size < WORD
    ensures size - FirstPiece(vaddr, size).len
            == (PageCount(size) - 2) * PAGE_SIZE + U16(vaddr + size - 1) % PAGE_SIZE + 1
            <==> Loadable(vaddr, size)
  {
    hide U16, PageCount;
    PageCountFacts(size);
    U16Word(vaddr + size - 1);
    var o := vaddr % PAGE_SIZE;
    assert (vaddr + size - 1) % PAGE_SIZE == (o + size - 1) % PAGE_SIZE;
    assert o + size - 1 == (o + size - 1) / PAGE_SIZE * PAGE_SIZE + (o + size - 1) % PAGE_SIZE;
  }

  lemma RestStart(v: Word, k: nat, last: Piece)
    requires k == 0 ==> last.at == PageBase(v)
    ensures (FullPieces(v, k) + [last])[0].at == PageBase(v)
  {}

  // ---- Loading ----

  /** Write the pieces one after the other from the file's bytes. */
  ghost function WritePieces(mem: Memory, view: PageTable, ps: seq<Piece>, data: seq<Byte>): (r: Memory)
    requires Fits(mem, view) && Total(ps) <= |data|
    ensures |r| == |mem|
    decreases |ps|
  {
    if ps == [] then mem
    else
      var p := ps[|ps| - 1];
      var before := Total(ps[..|ps| - 1]);
      var m := WritePieces(mem, view, ps[..|ps| - 1], data);
      WriteThrough(m, view, p.at, data[before..before + p.len])
  }

  function Total(ps: seq<Piece>): nat {
    if ps == [] then 0 else Total(ps[..|ps| - 1]) + ps[|ps| - 1].len
  }

  lemma {:induction false} TotalTail(ps: seq<Piece>)
    requires ps != []
    ensures Total(ps) == ps[0].len + Total(ps[1..])
  {
    if |ps| > 1 {
      TotalTail(ps[..|ps| - 1]);
      assert ps[1..][..|ps| - 2] == ps[..|ps| - 1][1..];
    }
  }

  /** Contiguous but for the last piece. */
  lemma {:induction false} ContiguousSnoc(ps: seq<Piece>, v: Word, n: int)
    requires ps != [] && Contiguous(ps, v, n)
    ensures var front, p := ps[..|ps| - 1], ps[|ps| - 1];
            Contiguous(front, v, n - p.len) && p.at == U16(v + (n - p.len)) && n >= p.len
    decreases |ps|
  {
    if |ps| > 1 {
      var rest := ps[1..];
      ContiguousSnoc(rest, U16(v + ps[0].len), n - ps[0].len);
      var front, p := ps[..|ps| - 1], ps[|ps| - 1];
      assert rest[..|rest| - 1] == front[1..];
      U16Twice(v + ps[0].len, n - ps[0].len - p.len);
    } else {
      assert ps[1..] == [] && ps[..0] == [];
    }
  }

  lemma {:induction false} ContiguousTotal(ps: seq<Piece>, v: Word, n: int)
    requires Contiguous(ps, v, n)
    ensures Total(ps) == n
    decreases |ps|
  {
    if ps != [] {
      ContiguousTotal(ps[1..], U16(v + ps[0].len), n - ps[0].len);
      TotalTail(ps);
    }
  }

  /** Contiguous pieces are one write of the whole segment. */
  lemma {:induction false} ContiguousIsWhole(mem: Memory, view: PageTable, ps: seq<Piece>, v: Word, n: nat,
                                             data: seq<Byte>)
    requires Fits(mem, view) && Contiguous(ps, v, n) && n <= |data|
    ensures Total(ps) == n
    ensures WritePieces(mem, view, ps, data) == WriteThrough(mem, view, v, data[..n])
    decreases |ps|
  {
    hide WriteThrough, U16, Fits;
    if ps == [] {
      assert data[..n] == [];
      WriteNothing(mem, view, v);
    } else {
      var front, p := ps[..|ps| - 1], ps[|ps| - 1];
      ContiguousSnoc(ps, v, n);
      ContiguousIsWhole(mem, view, front, v, n - p.len, data);
      WriteConcat(mem, view, v, data[..n - p.len], data[n - p.len..n]);
      assert data[..n - p.len] + data[n - p.len..n] == data[..n];
    }
  }

  /** A piece lies in one page. */
  predicate InPage(p: Piece) {
    p.at % PAGE_SIZE + p.len <= PAGE_SIZE
  }

  /** Only the entries of the pieces' own pages matter. */
  lemma {:induction false} SameEntries(mem: Memory, view: PageTable, view': PageTable, ps: seq<Piece>, data: seq<Byte>)
    requires Fits(mem, view) && Fits(mem, view') && Total(ps) <= |data|
    requires forall p <- ps :: InPage(p) && view[p.at / PAGE_SIZE] == view'[p.at / PAGE_SIZE]
    ensures WritePieces(mem, view, ps, data) == WritePieces(mem, view', ps, data)
    decreases |ps|
  {
    hide WriteThrough, Fits;
    if ps != [] {
      var front, p := ps[..|ps| - 1], ps[|ps| - 1];
      SameEntries(mem, view, view', front, data);
      assert p in ps;
      var m := WritePieces(mem, view, front, data);
      var piece := data[Total(front)..Total(ps)];
      FitsStill(mem, m, view);
      FitsStill(mem, m, view');
      WriteInPage(m, view, p.at, piece);
      WriteInPage(m, view', p.at, piece);
    }
  }

  lemma FitsStill(mem: Memory, m: Memory, view: PageTable)
    requires Fits(mem, view) && |m| == |mem|
    ensures Fits(m, view) && |view| == PAGES
  {}

  /** On a page boundary only the last piece can cut an instruction. */
  lemma AlignedLengths(vaddr: Word, size: Word)
    requires size > 0 && vaddr + size <= WORD && vaddr % PAGE_SIZE == 0 && Loadable(vaddr, size)
    ensures (forall p <- Pieces(vaddr, size) :: p.len % 4 == 0) <==> size % 4 == 0
  {
    hide PageBase, SecondPage, PageCount, U16, FirstPiece, LastPiece, FullPieces, Loadable;
    PageCountFacts(size);
    AlignedEnds(vaddr, size);
    var n, ps := PageCount(size), Pieces(vaddr, size);
    if n <= 1 {
      assert ps == [FirstPiece(vaddr, size)];
    } else {
      var v := SecondPage(vaddr, size);
      FullLengths(v, n - 2);
      LastLength(U16(v + (n - 2) * PAGE_SIZE), vaddr, size);
      assert LastPiece(U16(v + (n - 2) * PAGE_SIZE), vaddr, size) in ps;
    }
  }

  lemma AlignedEnds(vaddr: Word, size: Word)
    requires size > 0 && vaddr % PAGE_SIZE == 0 && Loadable(vaddr, size)
    ensures FirstPiece(vaddr, size) == Piece(vaddr, Min(PAGE_SIZE, size))
    ensures PageCount(size) <= 1 <==> size <= PAGE_SIZE
  {
    hide PageCount;
    PageCountFacts(size);
  }

  lemma LastLength(v: Word, vaddr: Word, size: Word)
    requires size > 0 && vaddr + size <= WORD && vaddr % PAGE_SIZE == 0
    ensures LastPiece(v, vaddr, size).len % 4 == size % 4
  {
    hide U16, PageBase;
    U16Word(vaddr + size - 1);
    ModShift(vaddr, size - 1);
    PlusOne((size - 1) % PAGE_SIZE, size - 1);
  }

  lemma PlusOne(a: int, b: int)
    requires a % 4 == b % 4
    ensures (a + 1) % 4 == (b + 1) % 4
  {}

  lemma ModShift(a: nat, x: nat)
    requires a % PAGE_SIZE == 0
    ensures (a + x) % PAGE_SIZE == x % PAGE_SIZE && x % PAGE_SIZE % 4 == x % 4
  {}

  lemma {:induction false} FullLengths(v: Word, k: nat)
    ensures forall p <- FullPieces(v, k) :: p.len == PAGE_SIZE
    decreases k
  {
    if k > 0 {
      FullLengths(U16(v + PAGE_SIZE), k - 1);
    }
  }

  lemma {:induction false} TotalPrefix(ps: seq<Piece>, k: nat)
    requires k <= |ps|
    ensures Total(ps[..k]) <= Total(ps)
    decreases |ps|
  {
    if k < |ps| {
      TotalPrefix(ps[..|ps| - 1], k);
      assert ps[..|ps| - 1][..k] == ps[..k];
    } else {
      assert ps[..k] == ps;
    }
  }

  lemma {:induction false} FullSnoc(v: Word, k: nat)
    ensures FullPieces(v, k + 1) == FullPieces(v, k) + [Piece(PageBase(U16(v + k * PAGE_SIZE)), PAGE_SIZE)]
    decreases k
  {
    hide PageBase, U16;
    if k == 0 {
      U16Word(v);
    } else {
      FullSnoc(U16(v + PAGE_SIZE), k - 1);
      U16Twice(v + PAGE_SIZE, (k - 1) * PAGE_SIZE);
    }
  }

  lemma {:induction false} FullPrefix(v: Word, j: nat, k: nat)
    requires j <= k
    ensures FullPieces(v, k)[..j] == FullPieces(v, j)
    decreases k
  {
    if j < k {
      FullPrefix(v, j, k - 1);
      FullSnoc(v, k - 1);
    } else {
      assert FullPieces(v, k)[..j] == FullPieces(v, k);
    }
  }

  lemma FullNone(first: Piece, v: Word)
    ensures [first] + FullPieces(v, 0) == [first] && Total([first]) == first.len
  {}

  lemma FullStep(first: Piece, v: Word, j: nat, k: nat)
    requires j < k
    ensures var ps, next := [first] + FullPieces(v, j), [first] + FullPieces(v, j + 1);
            && ps + [Piece(PageBase(U16(v + j * PAGE_SIZE)), PAGE_SIZE)] == next
            && Total(next) == Total(ps) + PAGE_SIZE
            && Total(next) <= Total([first] + FullPieces(v, k))
  {
    hide FullPieces, PageBase, U16;
    FullSnoc(v, j);
    FullPrefix(v, j + 1, k);
    var ps, next, all := [first] + FullPieces(v, j), [first] + FullPieces(v, j + 1), [first] + FullPieces(v, k);
    assert next == all[..j + 2] && next[..|ps|] == ps;
    TotalPrefix(all, j + 2);
  }

  lemma PieceBounds(vaddr: Word, size: Word)
    requires size > 0
    ensures InPage(FirstPiece(vaddr, size)) && PageCount(size) < PAGES
  {}

  lemma FullPieceInPage(v: Word)
    ensures InPage(Piece(PageBase(v), PAGE_SIZE))
  {}

  lemma LastPieceInPage(v: Word, vaddr: Word, size: Word)
    requires size > 0
    ensures InPage(LastPiece(v, vaddr, size))
  {}
}
