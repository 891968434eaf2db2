/**
 * The loader of kernel/proc/elf.c at work on the pages of a new process: it finds or allocates a page,
 * fills it chunk by chunk, and does so for every segment of the program.
 */
module ElfLoader {
  import opened Machine
  import opened Virtual
  import opened Pages
  import opened Elf

  const LOAD_BUFF: int := 0x100

  // ---- Tables and what lies behind them ----

  /** The physical pages behind the sixteen virtual ones, data or program. */
  function View(t: Tables, prog: bool): (view: PageTable)
    requires Sized(t)
    ensures |view| == PAGES
  {
    if prog then seq(PAGES, i requires 0 <= i < PAGES => AliasPage(t.prog[i / 2], i % 2)) else t.mem
  }

  predicate Mapped(t: Tables, prog: bool, vp: nat)
    requires Sized(t) && vp < PAGES
  {
    if prog then t.prog[vp / 2] != UNMAPPED else t.mem[vp] != UNMAPPED
  }

  /** Mapped entries were handed out by a counter between `low` and `high`, each to one slot. */
  predicate HandedOut(pages: seq<nat>, low: nat, high: nat) {
    && (forall s :: 0 <= s < |pages| ==> pages[s] == UNMAPPED || low <= pages[s] < high)
    && (forall a, b :: 0 <= a < |pages| && 0 <= b < |pages| && a != b && pages[a] != UNMAPPED ==> pages[a] != pages[b])
  }

  /** The entries among the first `n` that may still take a page. */
  function Free(pages: seq<nat>, n: nat): nat
    requires n <= |pages|
  {
    if n == 0 then 0 else Free(pages, n - 1) + if pages[n - 1] == UNMAPPED then 1 else 0
  }

  lemma {:induction false} FreeUpdate(pages: seq<nat>, n: nat, s: nat, page: nat)
    requires n <= |pages| && s < |pages| && pages[s] == UNMAPPED && page != UNMAPPED
    ensures Free(pages[s := page], n) == Free(pages, n) - if s < n then 1 else 0
  {
    if n > 0 {
      FreeUpdate(pages, n - 1, s, page);
    }
  }

  /**
   * Pages are handed out one to a slot; what the free slots may still take lies in memory, data pages
   * below the windows of program pages. The program page counter may pass 0xff once.
   */
  predicate Sound(t: Tables, nextPage: nat, nextProg: nat, length: nat) {
    && Sized(t) && FIRST_PAGE <= nextPage && FIRST_PROG_PAGE <= nextProg
    && HandedOut(t.mem, FIRST_PAGE, nextPage) && HandedOut(t.prog, FIRST_PROG_PAGE, nextProg)
    && nextPage + Free(t.mem, PAGES) <= FIRST_WINDOW
    && AliasPage(nextProg + Free(t.prog, PROG_SLOTS) + (if nextProg <= UNMAPPED then 1 else 0), 0) * PAGE_SIZE <= length
    && AliasPage(UNMAPPED + 1, 0) * PAGE_SIZE <= length
  }

  /** Between two values of the program page counter, page 0xff was taken. */
  predicate Missed(before: nat, after: nat) {
    before <= UNMAPPED < after
  }

  /** No free program slot will be given that page. */
  predicate NoSentinel(t: Tables, nextProg: nat)
    requires Sized(t)
  {
    nextProg > UNMAPPED || nextProg + Free(t.prog, PROG_SLOTS) <= UNMAPPED
  }

  lemma ViewFits(t: Tables, nextPage: nat, nextProg: nat, mem: Memory, prog: bool)
    requires Sound(t, nextPage, nextProg, |mem|)
    ensures Fits(mem, View(t, prog))
  {
    hide Free;
    var view := View(t, prog);
    forall p | p in view
      ensures (p + 1) * PAGE_SIZE <= |mem|
    {
      var i :| 0 <= i < PAGES && view[i] == p;
      assert prog ==> p <= AliasPage(t.prog[i / 2], 1);
    }
  }

  lemma HalfPages(vaddr: Word)
    requires vaddr % (2 * PAGE_SIZE) == 0
    ensures vaddr / PAGE_SIZE % 2 == 0 && vaddr / PAGE_SIZE + 1 < PAGES && vaddr + PAGE_SIZE < WORD
    ensures (vaddr + PAGE_SIZE) / PAGE_SIZE == vaddr / PAGE_SIZE + 1
  {}

  lemma ProgView(t: Tables, vp: nat)
    requires Sized(t) && vp < PAGES
    ensures View(t, true)[vp] == AliasPage(t.prog[vp / 2], vp % 2)
  {}

  lemma DataView(t: Tables)
    requires Sized(t)
    ensures View(t, false) == t.mem
  {}

  lemma AliasDiffers()
    ensures AliasPage(UNMAPPED, 0) != AliasPage(UNMAPPED + 1, 0)
  {}

  /** The counter moves past 0xff without a slot being taken. */
  lemma SentinelPassed(t: Tables, nextPage: nat, length: nat)
    requires Sound(t, nextPage, UNMAPPED, length)
    ensures Sound(t, nextPage, UNMAPPED + 1, length)
  {
    hide Free;
  }

  /** Through mapped entries different addresses, or spaces, lead to different bytes. */
  lemma PlacesDiffer(t: Tables, nextPage: nat, nextProg: nat, length: nat, prog: bool, a: Word, prog': bool, b: Word)
    requires Sound(t, nextPage, nextProg, length) && Mapped(t, prog, a / PAGE_SIZE)
    requires prog != prog' || a != b
    ensures Translate(View(t, prog), a) != Translate(View(t, prog'), b)
  {
    hide Free, Translate;
    var x, y := a / PAGE_SIZE, b / PAGE_SIZE;
    if prog == prog' {
      if x != y {
        assert View(t, prog)[x] != View(t, prog')[y];
      }
      DifferentPlaces(View(t, prog), a, b);
    } else {
      assert View(t, prog)[x] != View(t, prog')[y];
      DifferentPages(View(t, prog), View(t, prog'), a, b);
    }
  }

  lemma DifferentPages(table: PageTable, table': PageTable, a: Word, b: Word)
    requires |table| == PAGES && |table'| == PAGES && table[a / PAGE_SIZE] != table'[b / PAGE_SIZE]
    ensures Translate(table, a) != Translate(table', b)
  {}

  /** The tables with one more page in them. */
  function WithPage(t: Tables, prog: bool, vp: nat, page: nat): Tables
    requires Sized(t) && vp < PAGES
  {
    if prog then t.(prog := t.prog[vp / 2 := page]) else t.(mem := t.mem[vp := page])
  }

  /** What soundness says about single entries. */
  lemma SoundTables(t: Tables, nextPage: nat, nextProg: nat, length: nat)
    requires Sound(t, nextPage, nextProg, length)
    ensures Sized(t) && AliasPage(UNMAPPED + 1, 0) * PAGE_SIZE <= length
    ensures forall s :: 0 <= s < PAGES ==>
              (t.mem[s] + 1) * PAGE_SIZE <= length && (AliasPage(t.prog[s], 1) + 1) * PAGE_SIZE <= length
  {
    hide Free;
  }

  /** Handing the next page to a free slot keeps the tables sound. */
  lemma DataPageTaken(t: Tables, nextPage: nat, nextProg: nat, length: nat, vp: nat)
    requires Sound(t, nextPage, nextProg, length) && vp < PAGES && !Mapped(t, false, vp)
    ensures var t' := WithPage(t, false, vp, nextPage);
            && Sound(t', nextPage + 1, nextProg, length) && Kept(t, t') && Mapped(t', false, vp)
            && (NoSentinel(t, nextProg) ==> NoSentinel(t', nextProg))
  {
    hide Free;
    FreeUpdate(t.mem, PAGES, vp, nextPage);
  }

  lemma ProgPageTaken(t: Tables, nextPage: nat, nextProg: nat, length: nat, vp: nat)
    requires Sound(t, nextPage, nextProg, length) && vp < PAGES && !Mapped(t, true, vp) && nextProg != UNMAPPED
    ensures var t' := WithPage(t, true, vp, nextProg);
            && Sound(t', nextPage, nextProg + 1, length) && Kept(t, t') && Mapped(t', true, vp)
            && (NoSentinel(t, nextProg) ==> NoSentinel(t', nextProg + 1))
  {
    hide Free;
    FreePositive(t.prog, PROG_SLOTS, vp / 2);
    FreeUpdate(t.prog, PROG_SLOTS, vp / 2, nextProg);
  }

  /** What was mapped stays mapped to the same pages. */
  ghost predicate Kept(before: Tables, after: Tables) {
    && Sized(before) && Sized(after)
    && forall prog, vp :: 0 <= vp < PAGES && Mapped(before, prog, vp) ==>
         Mapped(after, prog, vp) && View(after, prog)[vp] == View(before, prog)[vp]
  }

  /**
   * What loading does to tables and program page counter: mappings are kept, only program segments take
   * program pages, and page 0xff is not among them when it was out of reach.
   */
  ghost predicate Moved(prog: bool, before: Tables, n: nat, after: Tables, n': nat) {
    && Kept(before, after) && n <= n' && (!prog ==> n' == n)
    && (NoSentinel(before, n) ==> NoSentinel(after, n') && !Missed(n, n'))
  }

  lemma MovedTwice(prog: bool, a: Tables, n: nat, b: Tables, n': nat, c: Tables, n'': nat)
    requires Moved(prog, a, n, b, n') && Moved(prog, b, n', c, n'')
    ensures Moved(prog, a, n, c, n'')
  {
    hide View, Mapped, Free;
  }

  lemma MovedSelf(prog: bool, t: Tables, n: nat)
    requires Sized(t)
    ensures Moved(prog, t, n, t, n)
  {}

  /** Every page of `n` bytes at `v` is mapped. */
  ghost predicate Resident(t: Tables, prog: bool, v: Word, n: nat)
    requires Sized(t)
  {
    v + n <= WORD && forall a: Word :: v <= a < v + n ==> Mapped(t, prog, a / PAGE_SIZE)
  }

  /** The piece that holds an address of a contiguous segment. */
  lemma {:induction false} PieceOf(ps: seq<Piece>, v: Word, n: nat, a: Word) returns (p: Piece)
    requires Contiguous(ps, v, n) && v + n <= WORD && v <= a < v + n
    requires forall q <- ps :: InPage(q)
    ensures p in ps && p.at / PAGE_SIZE == a / PAGE_SIZE
    decreases |ps|
  {
    if a < v + ps[0].len {
      p := ps[0];
      assert p in ps;
    } else {
      assert forall q <- ps[1..] :: q in ps;
      p := PieceOf(ps[1..], U16(v + ps[0].len), n - ps[0].len, a);
    }
  }

  lemma PiecesReside(t: Tables, prog: bool, ps: seq<Piece>, v: Word, n: nat)
    requires Sized(t) && Contiguous(ps, v, n) && v + n <= WORD
    requires forall p <- ps :: InPage(p) && Mapped(t, prog, p.at / PAGE_SIZE)
    ensures Resident(t, prog, v, n)
  {
    hide Mapped;
    forall a: Word | v <= a < v + n
      ensures Mapped(t, prog, a / PAGE_SIZE)
    {
      var p := PieceOf(ps, v, n, a);
    }
  }

  /** A resident segment has no two bytes in one place. */
  lemma ResidentDistinct(t: Tables, nextPage: nat, nextProg: nat, length: nat, prog: bool, v: Word, n: nat)
    requires Sound(t, nextPage, nextProg, length) && Sized(t) && Resident(t, prog, v, n)
    ensures Distinct(View(t, prog), v, n)
  {
    hide Sound, Mapped, View, Translate, U16;
    var view := View(t, prog);
    forall i, j | 0 <= i < j < n
      ensures Virtual.Place(view, v, i) != Virtual.Place(view, v, j)
    {
      U16Word(v + i);
      U16Word(v + j);
      assert Mapped(t, prog, (v + i) / PAGE_SIZE);
      PlacesDiffer(t, nextPage, nextProg, length, prog, v + i, prog, v + j);
    }
  }

  /** Two resident segments that do not overlap share no physical byte. */
  lemma SegmentsApart(t: Tables, nextPage: nat, nextProg: nat, length: nat,
                      prog: bool, v: Word, n: nat, i: nat, prog': bool, v': Word, n': nat, j: nat)
    requires Sound(t, nextPage, nextProg, length) && Sized(t)
    requires Resident(t, prog, v, n) && i < n && v' + n' <= WORD && j < n'
    requires prog != prog' || v + n <= v' || v' + n' <= v
    ensures Virtual.Place(View(t, prog), v, i) != Virtual.Place(View(t, prog'), v', j)
  {
    hide Sound, Mapped, View, Translate, U16;
    U16Word(v + i);
    U16Word(v' + j);
    assert Mapped(t, prog, (v + i) / PAGE_SIZE);
    PlacesDiffer(t, nextPage, nextProg, length, prog, v + i, prog', v' + j);
  }

  // ---- Chunks ----

  /** `mem` with `data` copied over it at `t`. */
  function Spliced(mem: Memory, t: nat, data: seq<Byte>): (r: Memory)
    requires t + |data| <= |mem|
    ensures |r| == |mem|
  {
    mem[..t] + data + mem[t + |data|..]
  }

  lemma SpliceNothing(mem: Memory, t: nat)
    requires t <= |mem|
    ensures Spliced(mem, t, []) == mem
  {}

  lemma SpliceMore(mem: Memory, t: nat, a: seq<Byte>, b: seq<Byte>)
    requires t + |a| + |b| <= |mem|
    ensures var now := Spliced(mem, t, a);
            now[..t + |a|] + b + now[t + |a| + |b|..] == Spliced(mem, t, a + b)
  {}

  /** A chunk that is empty or cuts an instruction means a short file or a length that does. */
  lemma ChunkLength(len: nat, done: nat, left: nat)
    requires done < len
    ensures var read := Min(Min(LOAD_BUFF, len - done), left);
            && (read == 0 ==> left < len - done)
            && (read % 4 != 0 && done % 4 == 0 ==> left < len - done || len % 4 != 0)
  {}

  // ---- The loader ----

  /** A PT_LOAD program header: where the bytes are in the file, where they go, and in which space. */
  datatype Segment = Segment(offset: nat, vaddr: Word, size: Word, prog: bool)

  /** A segment inside the address space that the loader loads in full. */
  predicate Good(vaddr: Word, size: Word) {
    size > 0 && vaddr + size <= WORD && Loadable(vaddr, size)
  }

  predicate Disjoint(a: Segment, b: Segment) {
    a.prog != b.prog || a.vaddr + a.size <= b.vaddr || b.vaddr + b.size <= a.vaddr
  }

  predicate GoodProgram(segs: seq<Segment>) {
    && (forall s <- segs :: s.size == 0 || Good(s.vaddr, s.size))
    && (forall i, j :: 0 <= i < j < |segs| ==> Disjoint(segs[i], segs[j]))
  }

  predicate AlignedProgram(segs: seq<Segment>) {
    forall s <- segs :: s.size == 0 || (Good(s.vaddr, s.size) && s.vaddr % PAGE_SIZE == 0)
  }

  /** The segment lies in the file, and a program ends with a whole instruction. */
  predicate Complete(file: seq<Byte>, s: Segment) {
    s.size == 0 || (s.offset + s.size <= |file| && (s.prog ==> s.size % 4 == 0))
  }

  lemma CompleteIff(file: seq<Byte>, segs: seq<Segment>, s: Segment)
    requires AlignedProgram(segs) && s in segs
    ensures s.size == 0 || (Good(s.vaddr, s.size) && s.vaddr % PAGE_SIZE == 0)
    ensures Complete(file, s) <==> s.size == 0 || (s.size <= |From(file, s.offset)| && (s.prog ==> s.size % 4 == 0))
  {}

  function From(file: seq<Byte>, offset: nat): seq<Byte> {
    if offset <= |file| then file[offset..] else []
  }

  /** The bytes of a segment are what its process reads at its addresses. */
  ghost predicate InPlace(t: Tables, mem: Memory, file: seq<Byte>, s: Segment)
    requires Sized(t)
  {
    s.size > 0 ==>
      && Resident(t, s.prog, s.vaddr, s.size) && s.offset + s.size <= |file| && Fits(mem, View(t, s.prog))
      && ReadThrough(mem, View(t, s.prog), s.vaddr, s.size) == file[s.offset..s.offset + s.size]
  }

  /** The process being loaded, the page counters, and physical memory. */
  class Loader {
    var tables: Tables
    var nextPage: nat
    var nextProg: nat
    const mem: array<Byte>

    predicate Valid()
      reads this
    {
      Sound(tables, nextPage, nextProg, mem.Length)
    }

    /** The tables of `sched_init_user_thread`, which allocates the stack page. */
    constructor (m: array<Byte>, stackPage: nat, nextPage: nat, nextProg: nat)
      requires FIRST_PAGE <= stackPage < nextPage && nextPage + PAGES <= FIRST_WINDOW
      requires FIRST_PROG_PAGE <= nextProg
      requires AliasPage(Max(nextProg + PROG_SLOTS, UNMAPPED) + 1, 0) * PAGE_SIZE <= m.Length
      ensures Valid() && mem == m && this.nextPage == nextPage && this.nextProg == nextProg
      ensures tables == Tables(Blank()[STACK_PAGE := stackPage], Blank())
    {
      mem := m;
      tables := Tables(Blank()[STACK_PAGE := stackPage], Blank());
      this.nextPage, this.nextProg := nextPage, nextProg;
      new;
      FreeAtMost(tables.mem, PAGES);
      FreeAtMost(tables.prog, PROG_SLOTS);
    }

    /**
     * `phys_page_to_load`. An unmapped slot takes the next page. It is mapped afterwards, unless the program
     * page counter stood at 0xff: then the page is used but the slot still counts as unmapped.
     */
    method PhysPageToLoad(vaddr: Word, prog: bool) returns (page: nat)
      requires Valid()
      modifies this`tables, this`nextPage, this`nextProg
      ensures Valid() && Sized(tables) && page == View(tables, prog)[vaddr / PAGE_SIZE]
      ensures Moved(prog, old(tables), old(nextProg), tables, nextProg) && (page + 1) * PAGE_SIZE <= mem.Length
      ensures var had := old(Mapped(tables, prog, vaddr / PAGE_SIZE));
              && tables == (if had then old(tables)
                            else WithPage(old(tables), prog, vaddr / PAGE_SIZE,
                                          if prog then old(nextProg) else old(nextPage)))
              && nextProg == old(nextProg) + (if !had && prog then 1 else 0)
              && nextPage == old(nextPage) + (if !had && !prog then 1 else 0)
      ensures Mapped(tables, prog, vaddr / PAGE_SIZE) <==> !Missed(old(nextProg), nextProg)
    {
      hide Sound, Free, NoSentinel, Kept, View;
      SoundTables(tables, nextPage, nextProg, mem.Length);
      ghost var t := tables;
      KeptSelf(t);
      var virtPage := vaddr / PAGE_SIZE;
      if prog {
        var slot := virtPage / 2;
        if tables.prog[slot] == UNMAPPED {
          if nextProg != UNMAPPED {
            ProgPageTaken(t, nextPage, nextProg, mem.Length, virtPage);
          } else {
            SentinelInReach(t, virtPage);
            SentinelPassed(t, nextPage, mem.Length);
            assert tables.prog[slot := nextProg] == tables.prog;
          }
          tables := tables.(prog := tables.prog[slot := nextProg]);
          nextProg := nextProg + 1;
        }
        page := AliasPage(tables.prog[slot], virtPage % 2);
      } else {
        if tables.mem[virtPage] == UNMAPPED {
          DataPageTaken(t, nextPage, nextProg, mem.Length, virtPage);
          tables := tables.(mem := tables.mem[virtPage := nextPage]);
          nextPage := nextPage + 1;
        }
        page := tables.mem[virtPage];
      }
      SoundTables(tables, nextPage, nextProg, mem.Length);
      ProgView(tables, virtPage);
      DataView(tables);
    }

    /**
     * What the 239th program page leads to: the two halves of one slot are loaded into different pages, and
     * the process finds the first half where nothing was loaded.
     */
    method LoadHalvesAtSentinel(vaddr: Word) returns (first: nat, second: nat)
      requires Valid() && nextProg == UNMAPPED && vaddr % (2 * PAGE_SIZE) == 0
      requires !Mapped(tables, true, vaddr / PAGE_SIZE)
      modifies this`tables, this`nextPage, this`nextProg
      ensures Sized(tables) && first == AliasPage(UNMAPPED, 0) && second == AliasPage(UNMAPPED + 1, 1)
      ensures View(tables, true)[vaddr / PAGE_SIZE] == AliasPage(UNMAPPED + 1, 0) != first
    {
      hide Sound, Free, Kept, View, AliasPage, Moved;
      HalfPages(vaddr);
      ghost var vp := vaddr / PAGE_SIZE;
      SoundTables(tables, nextPage, nextProg, mem.Length);
      first := PhysPageToLoad(vaddr, true);
      assert tables == old(tables) by { assert tables.prog[vp / 2 := UNMAPPED] == tables.prog; }
      ProgView(tables, vp);
      second := PhysPageToLoad(vaddr + PAGE_SIZE, true);
      ProgView(tables, vp);
      ProgView(tables, vp + 1);
      AliasDiffers();
    }

    /** `load_to_page`: chunk by chunk from file position `pos`; not `ok` when one of its assertions fails. */
    method LoadToPage(file: seq<Byte>, pos: nat, off: nat, len: nat, page: nat, prog: bool) returns (ok: bool)
      requires off + len <= PAGE_SIZE && (page + 1) * PAGE_SIZE <= mem.Length && pos <= |file|
      modifies mem
      ensures ok <==> pos + len <= |file| && (prog ==> len % 4 == 0)
      ensures ok ==> mem[..] == Spliced(old(mem[..]), page * PAGE_SIZE + off, file[pos..pos + len])
    {
      hide Spliced;
      ghost var before := mem[..];
      ghost var t := page * PAGE_SIZE + off;
      var done := 0;
      SpliceNothing(before, t);
      assert file[pos..pos] == [];
      while done < len
        invariant 0 <= done <= len && pos + done <= |file|
        invariant prog ==> done % 4 == 0
        invariant mem.Length == |before| && mem[..] == Spliced(before, t, file[pos..pos + done])
        decreases len - done
      {
        var read := Min(Min(LOAD_BUFF, len - done), |file| - pos - done);
        ChunkLength(len, done, |file| - pos - done);
        if read == 0 || (prog && read % 4 != 0) {
          return false;
        }
        SpliceMore(before, t, file[pos..pos + done], file[pos + done..pos + done + read]);
        assert file[pos..pos + done] + file[pos + done..pos + done + read] == file[pos..pos + done + read];
        Memcpy(mem, page * PAGE_SIZE + off + done, file[pos + done..pos + done + read]);
        done := done + read;
      }
      return true;
    }

    /** One page of the segment: find or allocate the page, then fill it. */
    method LoadPiece(file: seq<Byte>, p: Piece, pos: nat, prog: bool) returns (ok: bool)
      requires Valid() && InPage(p) && pos <= |file|
      modifies this`tables, this`nextPage, this`nextProg, mem
      ensures Valid() && Sized(tables) && Moved(prog, old(tables), old(nextProg), tables, nextProg)
      ensures Mapped(tables, prog, p.at / PAGE_SIZE) <==> !Missed(old(nextProg), nextProg)
      ensures Fits(old(mem[..]), View(tables, prog))
      ensures ok <==> pos + p.len <= |file| && (prog ==> p.len % 4 == 0)
      ensures ok ==> mem[..] == WriteThrough(old(mem[..]), View(tables, prog), p.at, file[pos..pos + p.len])
    {
      hide WriteThrough, View, Mapped, Moved, Free, HandedOut, WithPage;
      var page := PhysPageToLoad(p.at, prog);
      ViewFits(tables, nextPage, nextProg, mem[..], prog);
      ghost var view := View(tables, prog);
      ok := LoadToPage(file, pos, p.at % PAGE_SIZE, p.len, page, prog);
      if ok {
        WriteInPage(old(mem[..]), view, p.at, file[pos..pos + p.len]);
      }
    }

    /** The pieces `ps` have been loaded over `mem0`. */
    ghost predicate Loaded(mem0: Memory, ps: seq<Piece>, file: seq<Byte>, prog: bool)
      reads this, mem
    {
      && Sized(tables)
      && Fits(mem0, View(tables, prog)) && Total(ps) <= |file|
      && (forall p <- ps :: InPage(p) && Mapped(tables, prog, p.at / PAGE_SIZE))
      && mem[..] == WritePieces(mem0, View(tables, prog), ps, file)
    }

    /** `n0` is the program page counter from which the loading of `ps` started. */
    method LoadNext(file: seq<Byte>, p: Piece, pos: nat, prog: bool, ghost mem0: Memory, ghost ps: seq<Piece>,
                    ghost n0: nat)
      returns (ok: bool)
      requires Valid() && InPage(p) && pos == Total(ps) <= |file| && n0 <= nextProg
      requires !Missed(n0, nextProg) ==> Loaded(mem0, ps, file, prog)
      modifies this`tables, this`nextPage, this`nextProg, mem
      ensures Valid() && Moved(prog, old(tables), old(nextProg), tables, nextProg)
      ensures ok <==> Total(ps + [p]) <= |file| && (prog ==> p.len % 4 == 0)
      ensures ok && !Missed(n0, nextProg) ==> Loaded(mem0, ps + [p], file, prog)
    {
      hide WriteThrough, WritePieces, Total, View, Mapped, Fits, Valid, Moved, InPage;
      ghost var t0, n := tables, nextProg;
      ok := LoadPiece(file, p, pos, prog);
      TotalSnoc(ps, p);
      MovedFacts(prog, t0, n, tables, nextProg);
      if ok && !Missed(n0, nextProg) {
        FitsStill(old(mem[..]), mem0, View(tables, prog));
        KeptPieces(t0, tables, prog, ps);
        SameEntries(mem0, View(t0, prog), View(tables, prog), ps, file);
        WriteSnoc(mem0, View(tables, prog), ps, p, file);
      }
    }

    /** The full pages between the first and the last. */
    method LoadFullPages(file: seq<Byte>, first: Piece, v0: Word, k: nat, prog: bool, ghost mem0: Memory, ghost n0: nat)
      returns (ok: bool, pos: nat)
      requires Valid() && first.len <= |file| && n0 <= nextProg
      requires !Missed(n0, nextProg) ==> Loaded(mem0, [first], file, prog)
      modifies this`tables, this`nextPage, this`nextProg, mem
      ensures Valid() && Moved(prog, old(tables), old(nextProg), tables, nextProg)
      ensures ok <==> Total([first] + FullPieces(v0, k)) <= |file|
      ensures ok ==> pos == Total([first] + FullPieces(v0, k))
      ensures ok && !Missed(n0, nextProg) ==> Loaded(mem0, [first] + FullPieces(v0, k), file, prog)
    {
      hide Loaded, PageBase, U16, FullPieces, Valid, InPage, Total, Moved;
      var v, j := v0, 0;
      pos := first.len;
      FullNone(first, v0);
      U16Word(v0);
      ok := true;
      ValidIsSized();
      MovedSelf(prog, tables, nextProg);
      while j < k
        invariant 0 <= j <= k && v == U16(v0 + j * PAGE_SIZE) && Valid() && n0 <= nextProg
        invariant Moved(prog, old(tables), old(nextProg), tables, nextProg)
        invariant !Missed(n0, nextProg) ==> Loaded(mem0, [first] + FullPieces(v0, j), file, prog)
        invariant pos == Total([first] + FullPieces(v0, j)) <= |file|
      {
        ghost var ps, t, n := [first] + FullPieces(v0, j), tables, nextProg;
        var p := Piece(PageBase(v), PAGE_SIZE);
        FullStep(first, v0, j, k);
        FullPieceInPage(v);
        ok := LoadNext(file, p, pos, prog, mem0, ps, n0);
        MovedTwice(prog, old(tables), old(nextProg), t, n, tables, nextProg);
        MovedFacts(prog, t, n, tables, nextProg);
        if !ok {
          return;
        }
        pos := pos + PAGE_SIZE;
        U16Twice(v0 + j * PAGE_SIZE, PAGE_SIZE);
        v := U16(v + PAGE_SIZE);
        j := j + 1;
      }
    }

    lemma ValidIsSized()
      requires Valid()
      ensures Sized(tables)
    {}

    /** The first page, the full pages and the last page of a segment whose bytes are at the start of `file`. */
    method LoadSegment(file: seq<Byte>, vaddr: Word, size: Word, prog: bool) returns (ok: bool)
      requires Valid() && size > 0
      modifies this`tables, this`nextPage, this`nextProg, mem
      ensures Valid() && Moved(prog, old(tables), old(nextProg), tables, nextProg)
      ensures ok <==>
              && Total(Pieces(vaddr, size)) <= |file|
              && (prog ==> forall p <- Pieces(vaddr, size) :: p.len % 4 == 0)
      ensures ok && !Missed(old(nextProg), nextProg) ==> Loaded(old(mem[..]), Pieces(vaddr, size), file, prog)
    {
      hide Loaded, FirstPiece, LastPiece, SecondPage, PageBase, U16, PageCount, FullPieces, Valid, InPage, Moved;
      ghost var mem0, t0, n0 := mem[..], tables, nextProg;
      ghost var all := Pieces(vaddr, size);
      LoadedNothing(file, prog);
      PieceBounds(vaddr, size);
      var first := FirstPiece(vaddr, size);
      TotalPrefix(all, 1);
      assert [] + [first] == [first] == all[..1];
      ok := LoadNext(file, first, 0, prog, mem0, [], n0);
      MovedFacts(prog, t0, n0, tables, nextProg);
      var pages := PageCount(size);
      if ok && pages > 1 {
        var v := SecondPage(vaddr, size);
        ghost var ps, t1, n1 := [first] + FullPieces(v, pages - 2), tables, nextProg;
        var last := LastPiece(U16(v + (pages - 2) * PAGE_SIZE), vaddr, size);
        assert all == ps + [last] && all[..|ps|] == ps;
        TotalPrefix(all, |ps|);
        FullLengths(v, pages - 2);
        var pos;
        ok, pos := LoadFullPages(file, first, v, pages - 2, prog, mem0, n0);
        MovedTwice(prog, t0, n0, t1, n1, tables, nextProg);
        MovedFacts(prog, t0, n0, tables, nextProg);
        if ok {
          ghost var t2, n2 := tables, nextProg;
          LastPieceInPage(U16(v + (pages - 2) * PAGE_SIZE), vaddr, size);
          ok := LoadNext(file, last, pos, prog, mem0, ps, n0);
          MovedTwice(prog, t0, n0, t2, n2, tables, nextProg);
        }
      } else {
        assert pages <= 1 ==> all == [first];
      }
    }

    lemma LoadedNothing(file: seq<Byte>, prog: bool)
      requires Valid()
      ensures Loaded(mem[..], [], file, prog)
    {
      ViewFits(tables, nextPage, nextProg, mem[..], prog);
    }

    /** For a segment loaded in full the pieces are one write, into pages of its own. */
    lemma SegmentIsInPlace(mem0: Memory, file: seq<Byte>, vaddr: Word, size: Word, prog: bool)
      requires Valid() && Good(vaddr, size) && size <= |file|
      requires Loaded(mem0, Pieces(vaddr, size), file, prog)
      ensures Resident(tables, prog, vaddr, size)
      ensures Fits(mem0, View(tables, prog)) && Fits(mem[..], View(tables, prog))
      ensures ReadThrough(mem[..], View(tables, prog), vaddr, size) == file[..size]
      ensures mem[..] == WriteThrough(mem0, View(tables, prog), vaddr, file[..size])
    {
      hide WriteThrough, ReadThrough, View, Pieces, Mapped, Resident, Distinct, Sound, Loadable;
      var view, ps := View(tables, prog), Pieces(vaddr, size);
      LoadsAllIff(vaddr, size);
      ContiguousIsWhole(mem0, view, ps, vaddr, size, file);
      PiecesReside(tables, prog, ps, vaddr, size);
      ResidentDistinct(tables, nextPage, nextProg, mem.Length, prog, vaddr, size);
      WriteThenRead(mem0, view, vaddr, file[..size]);
      ViewFits(tables, nextPage, nextProg, mem[..], prog);
    }

    /**
     * The file part of `load_ph` for one segment. A segment loaded in full, with no page numbered 0xff, is
     * read back byte for byte at its virtual address through the process's own pages, and no other byte of
     * memory changes. On a page boundary loading is refused exactly when the file is short or a program's
     * last instruction is cut.
     */
    method LoadFileBytes(file: seq<Byte>, vaddr: Word, size: Word, prog: bool) returns (ok: bool)
      requires Valid()
      modifies this`tables, this`nextPage, this`nextProg, mem
      ensures Valid() && Moved(prog, old(tables), old(nextProg), tables, nextProg)
      ensures size == 0 ==> ok && mem[..] == old(mem[..])
      ensures Good(vaddr, size) && vaddr % PAGE_SIZE == 0 ==> (ok <==> size <= |file| && (prog ==> size % 4 == 0))
      ensures ok && Good(vaddr, size) && !Missed(old(nextProg), nextProg) ==>
                && size <= |file| && Resident(tables, prog, vaddr, size) && Fits(mem[..], View(tables, prog))
                && ReadThrough(mem[..], View(tables, prog), vaddr, size) == file[..size]
                && forall x :: 0 <= x < mem.Length && OutsideSegment(tables, prog, vaddr, size, x) ==>
                     mem[x] == old(mem[x])
    {
      hide WriteThrough, ReadThrough, View, Pieces, Loadable, Mapped, InPage, Valid, Loaded, Resident, Moved, Fits;
      ok := true;
      ValidIsSized();
      MovedSelf(prog, tables, nextProg);
      if size > 0 {
        ok := LoadSegment(file, vaddr, size, prog);
        ValidIsSized();
        if Good(vaddr, size) {
          LoadsAllIff(vaddr, size);
          ContiguousTotal(Pieces(vaddr, size), vaddr, size);
          if ok && !Missed(old(nextProg), nextProg) {
            SegmentIsInPlace(old(mem[..]), file, vaddr, size, prog);
            OthersUnchanged(old(mem[..]), mem[..], tables, prog, vaddr, file[..size]);
          }
          if vaddr % PAGE_SIZE == 0 {
            AlignedLengths(vaddr, size);
          }
        }
      }
    }

    /**
     * The loop of `load_ph`: when the segments of a program are loadable and do not overlap, each of them is
     * in its place at the end, whatever was loaded after it. With segments on page boundaries the loop
     * succeeds exactly when all of them lie in the file and no program ends inside an instruction.
     */
    method LoadPh(file: seq<Byte>, segs: seq<Segment>) returns (ok: bool)
      requires Valid()
      modifies this`tables, this`nextPage, this`nextProg, mem
      ensures Valid() && Moved(true, old(tables), old(nextProg), tables, nextProg)
      ensures ok && GoodProgram(segs) && !Missed(old(nextProg), nextProg) ==>
                Sized(tables) && forall s <- segs :: InPlace(tables, mem[..], file, s)
      ensures AlignedProgram(segs) ==> (ok <==> forall s <- segs :: Complete(file, s))
    {
      hide Good, Disjoint, InPlace, Moved, Valid, Resident, ReadThrough, View, Mapped, Fits, Complete, AlignedProgram;
      ok := true;
      ghost var n0 := nextProg;
      ValidIsSized();
      MovedSelf(true, tables, nextProg);
      var i := 0;
      while i < |segs|
        invariant 0 <= i <= |segs| && Valid() && Sized(tables) && n0 <= nextProg && ok
        invariant Moved(true, old(tables), old(nextProg), tables, nextProg)
        invariant GoodProgram(segs) && !Missed(n0, nextProg) ==>
                    forall k :: 0 <= k < i ==> InPlace(tables, mem[..], file, segs[k])
        invariant AlignedProgram(segs) ==> forall k :: 0 <= k < i ==> Complete(file, segs[k])
      {
        var s := segs[i];
        assert s in segs;
        ghost var before, t, n := mem[..], tables, nextProg;
        ok := LoadFileBytes(From(file, s.offset), s.vaddr, s.size, s.prog);
        ValidIsSized();
        MovedAny(s.prog, t, n, tables, nextProg);
        MovedTwice(true, old(tables), old(nextProg), t, n, tables, nextProg);
        if AlignedProgram(segs) {
          CompleteIff(file, segs, s);
        }
        if !ok {
          return;
        }
        if GoodProgram(segs) && !Missed(n0, nextProg) {
          NewInPlace(file, s);
          forall k | 0 <= k < i
            ensures InPlace(tables, mem[..], file, segs[k])
          {
            assert segs[k] in segs;
            StillInPlace(before, t, file, segs[k], s);
          }
        }
        i := i + 1;
      }
    }

    lemma NewInPlace(file: seq<Byte>, s: Segment)
      requires Sized(tables)
      requires s.size > 0 ==>
                 && s.size <= |From(file, s.offset)| && Resident(tables, s.prog, s.vaddr, s.size)
                 && Fits(mem[..], View(tables, s.prog))
                 && ReadThrough(mem[..], View(tables, s.prog), s.vaddr, s.size) == From(file, s.offset)[..s.size]
      ensures InPlace(tables, mem[..], file, s)
    {
      hide Resident, ReadThrough, View, Fits;
      if s.size > 0 {
        assert From(file, s.offset)[..s.size] == file[s.offset..s.offset + s.size];
      }
    }

    /** Loading `s` does not touch an earlier segment that it does not overlap. */
    lemma StillInPlace(before: Memory, t: Tables, file: seq<Byte>, e: Segment, s: Segment)
      requires Valid() && Kept(t, tables) && |before| == mem.Length && InPlace(t, before, file, e) && Disjoint(e, s)
      requires e.size == 0 || Good(e.vaddr, e.size)
      requires s.size == 0 ==> mem[..] == before
      requires s.size > 0 ==>
                 && Resident(tables, s.prog, s.vaddr, s.size)
                 && forall x :: 0 <= x < mem.Length && OutsideSegment(tables, s.prog, s.vaddr, s.size, x) ==>
                      mem[x] == before[x]
      ensures InPlace(tables, mem[..], file, e)
    {
      hide ReadThrough, View, Mapped, Sound, Loadable, Virtual.Place;
      if e.size > 0 {
        var view0, view := View(t, e.prog), View(tables, e.prog);
        ResidentKept(t, tables, e.prog, e.vaddr, e.size);
        ViewFits(tables, nextPage, nextProg, mem[..], e.prog);
        forall i | 0 <= i < e.size
          ensures Virtual.Place(view, e.vaddr, i) == Virtual.Place(view0, e.vaddr, i) < |before|
          ensures mem[Virtual.Place(view0, e.vaddr, i)] == before[Virtual.Place(view0, e.vaddr, i)]
        {
          SamePlace(t, tables, e.prog, e.vaddr, e.size, i);
          PlaceFits(mem[..], view, e.vaddr, i);
          if s.size > 0 {
            forall j | 0 <= j < s.size
              ensures Virtual.Place(View(tables, s.prog), s.vaddr, j) != Virtual.Place(view, e.vaddr, i)
            {
              SegmentsApart(tables, nextPage, nextProg, mem.Length, e.prog, e.vaddr, e.size, i,
                            s.prog, s.vaddr, s.size, j);
            }
          }
        }
        ReadFrame(before, mem[..], view0, view, e.vaddr, e.size);
      }
    }
  }

  lemma KeptPieces(t: Tables, t': Tables, prog: bool, ps: seq<Piece>)
    requires Kept(t, t') && forall p <- ps :: Mapped(t, prog, p.at / PAGE_SIZE)
    ensures forall p <- ps ::
              && Mapped(t', prog, p.at / PAGE_SIZE)
              && View(t, prog)[p.at / PAGE_SIZE] == View(t', prog)[p.at / PAGE_SIZE]
  {
    hide View, Mapped;
  }

  lemma TotalSnoc(ps: seq<Piece>, p: Piece)
    ensures Total(ps + [p]) == Total(ps) + p.len
  {
    assert (ps + [p])[..|ps|] == ps;
  }

  lemma WriteSnoc(mem: Memory, view: PageTable, ps: seq<Piece>, p: Piece, data: seq<Byte>)
    requires Fits(mem, view) && Total(ps + [p]) <= |data| && Total(ps) + p.len <= |data|
    ensures var m := WritePieces(mem, view, ps, data);
            && Fits(m, view)
            && WritePieces(mem, view, ps + [p], data)
               == WriteThrough(m, view, p.at, data[Total(ps)..Total(ps) + p.len])
  {
    hide WriteThrough;
    assert (ps + [p])[..|ps|] == ps;
  }

  lemma MovedFacts(prog: bool, t: Tables, n: nat, t': Tables, n': nat)
    requires Moved(prog, t, n, t', n')
    ensures Kept(t, t') && Sized(t) && Sized(t') && n <= n'
  {}

  lemma MovedAny(prog: bool, t: Tables, n: nat, t': Tables, n': nat)
    requires Moved(prog, t, n, t', n')
    ensures Moved(true, t, n, t', n') && Kept(t, t') && n <= n'
  {}

  lemma KeptSelf(t: Tables)
    ensures Sized(t) ==> Kept(t, t)
  {}

  lemma {:induction false} FreeAtMost(pages: seq<nat>, n: nat)
    requires n <= |pages|
    ensures Free(pages, n) <= n
  {
    if n > 0 {
      FreeAtMost(pages, n - 1);
    }
  }

  lemma {:induction false} FreePositive(pages: seq<nat>, n: nat, s: nat)
    requires s < n <= |pages| && pages[s] == UNMAPPED
    ensures Free(pages, n) > 0
  {
    if s < n - 1 {
      FreePositive(pages, n - 1, s);
    }
  }

  lemma SentinelInReach(t: Tables, vp: nat)
    requires Sized(t) && vp < PAGES && !Mapped(t, true, vp)
    ensures !NoSentinel(t, UNMAPPED)
  {
    FreePositive(t.prog, PROG_SLOTS, vp / 2);
  }

  /** A physical address that is no byte of the segment. */
  ghost predicate OutsideSegment(t: Tables, prog: bool, v: Word, n: nat, x: int)
    requires Sized(t)
  {
    forall i :: 0 <= i < n ==> Virtual.Place(View(t, prog), v, i) != x
  }

  lemma OthersUnchanged(before: Memory, after: Memory, t: Tables, prog: bool, v: Word, data: seq<Byte>)
    requires Sized(t) && Fits(before, View(t, prog)) && after == WriteThrough(before, View(t, prog), v, data)
    ensures forall x :: 0 <= x < |before| && OutsideSegment(t, prog, v, |data|, x) ==> after[x] == before[x]
  {
    hide WriteThrough, View, Fits, Virtual.Place;
    forall x | 0 <= x < |before| && OutsideSegment(t, prog, v, |data|, x)
      ensures after[x] == before[x]
    {
      WriteFrame(before, View(t, prog), v, data, x);
    }
  }

  lemma ResidentKept(t: Tables, t': Tables, prog: bool, v: Word, n: nat)
    requires Kept(t, t') && Resident(t, prog, v, n)
    ensures Resident(t', prog, v, n)
  {
    hide View, Mapped;
    assert forall a: Word :: v <= a < v + n && Mapped(t, prog, a / PAGE_SIZE) ==> Mapped(t', prog, a / PAGE_SIZE);
  }

  lemma SamePlace(t: Tables, t': Tables, prog: bool, v: Word, n: nat, i: nat)
    requires Kept(t, t') && Resident(t, prog, v, n) && i < n
    ensures Virtual.Place(View(t', prog), v, i) == Virtual.Place(View(t, prog), v, i)
  {
    hide View, Mapped, U16;
    U16Word(v + i);
    assert Mapped(t, prog, (v + i) / PAGE_SIZE);
  }

  lemma PlaceFits(mem: Memory, view: PageTable, v: Word, i: nat)
    requires Fits(mem, view)
    ensures Virtual.Place(view, v, i) < |mem|
  {
    hide Translate;
    TranslateInRange(mem, view, U16(v + i));
  }
}
