/**
 * User memory seen through a process's page table (kernel/proc/virtual.c). The kernel reaches a user
 * page by mapping it at its own page zero; here that is the choice of a physical page.
 */
module Virtual {
  import opened Machine

  const PAGE_SIZE: int := 0x1000
  const PAGES: int := 16
  /** The page that holds a stack. */
  const STACK_PAGE: int := 15

  /** Physical memory as one run of bytes, and a table of physical page numbers. */
  type Memory = seq<Byte>
  type PageTable = seq<nat>

  /** Every mapped page lies inside the memory. */
  ghost predicate Fits(mem: Memory, table: PageTable) {
    |table| == PAGES && forall p <- table :: (p + 1) * PAGE_SIZE <= |mem|
  }

  /** The physical address of a virtual one. */
  function Translate(table: PageTable, v: Word): nat
    requires |table| == PAGES
  {
    table[v / PAGE_SIZE] * PAGE_SIZE + v % PAGE_SIZE
  }

  /** The physical address of byte `i` of a buffer at `v`. */
  function Place(table: PageTable, v: Word, i: nat): nat
    requires |table| == PAGES
  {
    Translate(table, U16(v + i))
  }

  lemma PlaceZero(table: PageTable, v: Word)
    requires |table| == PAGES
    ensures Place(table, v, 0) == Translate(table, v)
  {}

  lemma PlaceAhead(table: PageTable, v: Word, n: nat, i: nat)
    requires |table| == PAGES
    ensures Place(table, U16(v + n), i) == Place(table, v, n + i)
  {
    hide Translate, U16;
    U16Twice(v + n, i);
  }

  lemma TranslateInRange(mem: Memory, table: PageTable, v: Word)
    requires Fits(mem, table)
    ensures Translate(table, v) < |mem|
    ensures Translate(table, v) - v % PAGE_SIZE + PAGE_SIZE <= |mem|
  {
    assert table[v / PAGE_SIZE] in table;
  }

  // ---- Byte by byte ----

  /** Store `data` at virtual address `v`, one byte after the other, wrapping at the top. */
  ghost function WriteThrough(mem: Memory, table: PageTable, v: Word, data: seq<Byte>): (r: Memory)
    requires Fits(mem, table)
    ensures |r| == |mem|
    decreases |data|
  {
    if data == [] then
      mem
    else
      TranslateInRange(mem, table, v);
      var one: Memory := mem[Translate(table, v) := data[0]];
      WriteThrough(one, table, U16(v + 1), data[1..])
  }

  ghost function ReadThrough(mem: Memory, table: PageTable, v: Word, n: nat): (data: seq<Byte>)
    requires Fits(mem, table)
    ensures |data| == n
    decreases n
  {
    if n == 0 then
      []
    else
      TranslateInRange(mem, table, v);
      [mem[Translate(table, v)]] + ReadThrough(mem, table, U16(v + 1), n - 1)
  }

  /** Writing in two pieces is writing in one. */
  lemma {:induction false} WriteConcat(mem: Memory, table: PageTable, v: Word, a: seq<Byte>, b: seq<Byte>)
    requires Fits(mem, table)
    ensures WriteThrough(mem, table, v, a + b)
            == WriteThrough(WriteThrough(mem, table, v, a), table, U16(v + |a|), b)
    decreases |a|
  {
    hide Translate, U16;
    if a == [] {
      assert a + b == b;
      U16Word(v);
    } else {
      TranslateInRange(mem, table, v);
      var one: Memory := mem[Translate(table, v) := a[0]];
      assert (a + b)[1..] == a[1..] + b && (a + b)[0] == a[0];
      WriteConcat(one, table, U16(v + 1), a[1..], b);
      U16Twice(v + 1, |a| - 1);
    }
  }

  lemma U16Word(v: Word)
    ensures U16(v) == v
  {}

  lemma {:induction false} ReadConcat(mem: Memory, table: PageTable, v: Word, m: nat, n: nat)
    requires Fits(mem, table)
    ensures ReadThrough(mem, table, v, m + n)
            == ReadThrough(mem, table, v, m) + ReadThrough(mem, table, U16(v + m), n)
    decreases m
  {
    hide Translate, U16;
    if m == 0 {
      U16Word(v);
    } else {
      ReadConcat(mem, table, U16(v + 1), m - 1, n);
      U16Twice(v + 1, m - 1);
    }
  }

  /** Bytes outside the translated range keep their value. */
  lemma {:induction false} WriteFrame(mem: Memory, table: PageTable, v: Word, data: seq<Byte>, x: nat)
    requires Fits(mem, table) && x < |mem|
    requires forall i :: 0 <= i < |data| ==> Place(table, v, i) != x
    ensures WriteThrough(mem, table, v, data)[x] == mem[x]
    decreases |data|
  {
    hide Translate, U16, Place;
    if data != [] {
      TranslateInRange(mem, table, v);
      PlaceZero(table, v);
      var next := U16(v + 1);
      forall i | 0 <= i < |data| - 1
        ensures Place(table, next, i) != x
      {
        PlaceAhead(table, v, 1, i);
      }
      WriteFrame(mem[Translate(table, v) := data[0]], table, next, data[1..], x);
    }
  }

  /** No two of the `n` bytes at `v` share a physical address. */
  ghost predicate Distinct(table: PageTable, v: Word, n: nat)
    requires |table| == PAGES
  {
    forall i, j :: 0 <= i < j < n ==> Place(table, v, i) != Place(table, v, j)
  }

  /** That holds of any buffer under a table whose used entries differ. */
  lemma DistinctPages(table: PageTable, v: Word, n: nat)
    requires |table| == PAGES && n <= WORD
    requires forall a, b :: 0 <= a < b < PAGES ==> table[a] != table[b]
    ensures Distinct(table, v, n)
  {
    forall i, j | 0 <= i < j < n
      ensures Place(table, v, i) != Place(table, v, j)
    {
      DifferentPlaces(table, U16(v + i), U16(v + j));
    }
  }

  lemma DifferentPlaces(table: PageTable, a: Word, b: Word)
    requires |table| == PAGES && a != b
    requires a / PAGE_SIZE != b / PAGE_SIZE ==> table[a / PAGE_SIZE] != table[b / PAGE_SIZE]
    ensures Translate(table, a) != Translate(table, b)
  {}

  lemma DistinctTail(table: PageTable, v: Word, next: Word, n: nat)
    requires |table| == PAGES && n > 0 && Distinct(table, v, n) && next == U16(v + 1)
    ensures Distinct(table, next, n - 1)
    ensures forall i :: 0 <= i < n - 1 ==> Place(table, next, i) != Translate(table, v)
  {
    hide Translate, U16, Place;
    PlaceZero(table, v);
    forall i | 0 <= i < n - 1
      ensures Place(table, next, i) == Place(table, v, i + 1)
    {
      PlaceAhead(table, v, 1, i);
    }
  }

  /** What is written through a table is read back through it. */
  lemma {:induction false} WriteThenRead(mem: Memory, table: PageTable, v: Word, data: seq<Byte>)
    requires Fits(mem, table) && Distinct(table, v, |data|)
    ensures ReadThrough(WriteThrough(mem, table, v, data), table, v, |data|) == data
    decreases |data|
  {
    hide Translate, U16, Place, Distinct;
    if data != [] {
      TranslateInRange(mem, table, v);
      var one: Memory := mem[Translate(table, v) := data[0]];
      DistinctTail(table, v, U16(v + 1), |data|);
      WriteThenRead(one, table, U16(v + 1), data[1..]);
      WriteFrame(one, table, U16(v + 1), data[1..], Translate(table, v));
    }
  }

  /** Reading sees only the bytes it translates to. */
  lemma {:induction false} ReadFrame(mem: Memory, mem': Memory, table: PageTable, table': PageTable, v: Word, n: nat)
    requires Fits(mem, table) && Fits(mem', table')
    requires forall i :: 0 <= i < n ==>
               && Place(table', v, i) == Place(table, v, i) < |mem|
               && Place(table, v, i) < |mem'|
               && mem'[Place(table, v, i)] == mem[Place(table, v, i)]
    ensures ReadThrough(mem', table', v, n) == ReadThrough(mem, table, v, n)
    decreases n
  {
    hide Translate, U16, Place;
    if n > 0 {
      PlaceZero(table, v);
      PlaceZero(table', v);
      assert Place(table', v, 0) == Place(table, v, 0);
      var next := U16(v + 1);
      forall i | 0 <= i < n - 1
        ensures Place(table, next, i) == Place(table, v, i + 1)
        ensures Place(table', next, i) == Place(table', v, i + 1)
      {
        PlaceAhead(table, v, 1, i);
        PlaceAhead(table', v, 1, i);
      }
      ReadFrame(mem, mem', table, table', next, n - 1);
    }
  }

  // ---- Page by page ----

  /** The page around an address lies in any memory of this length. */
  lemma PageFits(mem: Memory, table: PageTable, v: Word)
    requires Fits(mem, table)
    ensures |table| == PAGES && Translate(table, v) - v % PAGE_SIZE + PAGE_SIZE <= |mem|
    ensures forall m: Memory :: |m| == |mem| ==> Fits(m, table)
  {
    TranslateInRange(mem, table, v);
  }

  lemma FullTable(mem: Memory, table: PageTable)
    requires Fits(mem, table)
    ensures |table| == PAGES
  {}

  /** Inside one page the bytes are adjacent in physical memory. */
  lemma NextInPage(table: PageTable, v: Word)
    requires |table| == PAGES && v % PAGE_SIZE + 1 < PAGE_SIZE
    ensures v + 1 < WORD && U16(v + 1) == v + 1 && (v + 1) % PAGE_SIZE == v % PAGE_SIZE + 1
    ensures Translate(table, v + 1) == Translate(table, v) + 1
  {}

  lemma {:induction false} WriteInPage(mem: Memory, table: PageTable, v: Word, data: seq<Byte>)
    requires Fits(mem, table) && v % PAGE_SIZE + |data| <= PAGE_SIZE
    ensures var t := Translate(table, v);
            t + |data| <= |mem| && WriteThrough(mem, table, v, data) == mem[..t] + data + mem[t + |data|..]
    decreases |data|
  {
    hide Translate, U16, Fits;
    PageFits(mem, table, v);
    var t := Translate(table, v);
    if data == [] {
      assert mem[..t] + data + mem[t..] == mem;
    } else {
      var one: Memory := mem[t := data[0]];
      if |data| == 1 {
        assert data[1..] == [];
        assert one == mem[..t] + data + mem[t + 1..];
      } else {
        NextInPage(table, v);
        PageFits(one, table, v);
        WriteInPage(one, table, v + 1, data[1..]);
        assert one[..t + 1] == mem[..t] + [data[0]];
        assert one[t + |data|..] == mem[t + |data|..];
        assert mem[..t] + [data[0]] + data[1..] == mem[..t] + data;
      }
    }
  }

  lemma ReadStep(mem: Memory, table: PageTable, v: Word, n: nat)
    requires Fits(mem, table) && n > 0
    ensures |table| == PAGES && Translate(table, v) < |mem|
    ensures ReadThrough(mem, table, v, n)
            == [mem[Translate(table, v)]] + ReadThrough(mem, table, U16(v + 1), n - 1)
  {
    hide Translate, U16;
    TranslateInRange(mem, table, v);
  }

  lemma {:induction false} ReadInPage(mem: Memory, table: PageTable, v: Word, n: nat)
    requires Fits(mem, table) && v % PAGE_SIZE + n <= PAGE_SIZE
    ensures var t := Translate(table, v);
            t + n <= |mem| && ReadThrough(mem, table, v, n) == mem[t..t + n]
    decreases n
  {
    hide Translate, U16, Fits, ReadThrough;
    TranslateInRange(mem, table, v);
    FullTable(mem, table);
    var t := Translate(table, v);
    if n > 0 {
      ReadStep(mem, table, v, n);
      if n > 1 {
        NextInPage(table, v);
        ReadInPage(mem, table, v + 1, n - 1);
      }
      assert mem[t..t + n] == [mem[t]] + mem[t + 1..t + n];
    }
  }

  /** `memcpy` into mapped physical memory. */
  method Memcpy(mem: array<Byte>, at: nat, data: seq<Byte>)
    requires at + |data| <= mem.Length
    modifies mem
    ensures mem[..] == old(mem[..])[..at] + data + old(mem[..])[at + |data|..]
  {
    ghost var before := mem[..];
    var i := 0;
    while i < |data|
      invariant 0 <= i <= |data|
      invariant forall x :: 0 <= x < mem.Length ==>
                  mem[x] == if at <= x < at + i then data[x - at] else before[x]
    {
      mem[at + i] := data[i];
      i := i + 1;
    }
  }

  /** `memcpy_to_userspace`: page-sized pieces do what byte by byte would. */
  method MemcpyToUserspace(mem: array<Byte>, table: PageTable, ubuff: Word, kbuff: seq<Byte>)
    requires Fits(mem[..], table)
    modifies mem
    ensures mem[..] == WriteThrough(old(mem[..]), table, ubuff, kbuff)
  {
    hide WriteThrough, Translate, U16, Fits;
    U16Word(ubuff);
    ghost var before := mem[..];
    var size, u, done := |kbuff|, ubuff, 0;
    WriteNothing(before, table, ubuff);
    assert kbuff[..0] == [];
    while size > 0
      invariant 0 <= size && 0 <= done && done + size == |kbuff| && u == U16(ubuff + done)
      invariant mem.Length == |before|
      invariant mem[..] == WriteThrough(before, table, ubuff, kbuff[..done])
      decreases size
    {
      var toCopy := Min(size, PAGE_SIZE - u % PAGE_SIZE);
      var piece := kbuff[done..done + toCopy];
      PageFits(before, table, u);
      assert Fits(mem[..], table);
      WriteInPage(mem[..], table, u, piece);
      WriteConcat(before, table, ubuff, kbuff[..done], piece);
      assert kbuff[..done] + piece == kbuff[..done + toCopy];
      Memcpy(mem, Translate(table, u), piece);
      size := size - toCopy;
      U16Twice(ubuff + done, toCopy);
      u := U16(u + toCopy);
      done := done + toCopy;
    }
    assert kbuff[..done] == kbuff;
  }

  lemma WriteNothing(mem: Memory, table: PageTable, v: Word)
    requires Fits(mem, table)
    ensures WriteThrough(mem, table, v, []) == mem
  {}

  /** `memcpy_from_userspace`, likewise. */
  method MemcpyFromUserspace(mem: array<Byte>, table: PageTable, ubuff: Word, size: nat) returns (kbuff: seq<Byte>)
    requires Fits(mem[..], table)
    ensures kbuff == ReadThrough(mem[..], table, ubuff, size)
  {
    hide ReadThrough, Translate, U16, Fits;
    U16Word(ubuff);
    var left, u := size, ubuff;
    kbuff := [];
    while left > 0
      invariant 0 <= left <= size && |kbuff| == size - left && u == U16(ubuff + |kbuff|)
      invariant kbuff == ReadThrough(mem[..], table, ubuff, size - left)
      decreases left
    {
      var toCopy := Min(left, PAGE_SIZE - u % PAGE_SIZE);
      ReadInPage(mem[..], table, u, toCopy);
      ReadConcat(mem[..], table, ubuff, size - left, toCopy);
      PageFits(mem[..], table, u);
      var from := Translate(table, u);
      U16Twice(ubuff + |kbuff|, toCopy);
      kbuff := kbuff + mem[from..from + toCopy];
      left := left - toCopy;
      u := U16(u + toCopy);
    }
  }
}
