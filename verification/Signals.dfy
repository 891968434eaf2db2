/**
 * Delivery of signals to user handlers: kernel/proc/signal.c and the tail of `int_sys_call` in
 * kernel/irq/interrupt.c. The interrupted state is saved as 84 bytes on the user's own stack.
 */
module Signals {
  import opened Machine
  import opened Virtual

  const STATE_SIZE: int := 84
  const SIGNAL_SIZE: int := 4
  const STACK_START: int := 0xf000

  /** `struct proc_state`. */
  datatype State = State(regs: seq<Word>, pc: Word, flags: Word, memPages: seq<Word>, progPages: seq<Word>)

  /** `struct signal`. */
  datatype Signal = Signal(kind: Word, value: Word)

  predicate Shaped(s: State) {
    |s.regs| == 8 && |s.memPages| == PAGES && |s.progPages| == PAGES
  }

  // ---- Layout in memory ----

  function WordBytes(w: Word): seq<Byte> {
    [w % 256, w / 256]
  }

  function Bytes(words: seq<Word>): (b: seq<Byte>)
    ensures |b| == 2 * |words|
  {
    if words == [] then [] else WordBytes(words[0]) + Bytes(words[1..])
  }

  function Pair(low: int, high: int): Word
    requires 0 <= low < 256 && 0 <= high < 256
  {
    low + 256 * high
  }

  function Words(bytes: seq<Byte>): (w: seq<Word>)
    requires |bytes| % 2 == 0
    ensures |w| == |bytes| / 2
  {
    if bytes == [] then [] else [Pair(bytes[0], bytes[1])] + Words(bytes[2..])
  }

  lemma {:induction false} WordsOfBytes(words: seq<Word>)
    ensures Words(Bytes(words)) == words
  {
    if words != [] {
      var b := Bytes(words);
      assert b[2..] == Bytes(words[1..]);
      WordsOfBytes(words[1..]);
    }
  }

  function Fields(s: State): seq<Word> {
    s.regs + [s.pc, s.flags] + s.memPages + s.progPages
  }

  function Encode(s: State): (b: seq<Byte>)
    requires Shaped(s)
    ensures |b| == STATE_SIZE
  {
    Bytes(Fields(s))
  }

  function Decode(b: seq<Byte>): (s: State)
    requires |b| == STATE_SIZE
    ensures Shaped(s)
  {
    var w := Words(b);
    State(w[..8], w[8], w[9], w[10..26], w[26..42])
  }

  /** The copy on the stack holds every word of the state. */
  lemma DecodeEncode(s: State)
    requires Shaped(s)
    ensures Decode(Encode(s)) == s
  {
    var w := Fields(s);
    WordsOfBytes(w);
    assert w[..8] == s.regs && w[10..26] == s.memPages && w[26..42] == s.progPages;
  }

  lemma {:induction false} BytesAt(words: seq<Word>, i: nat)
    requires i < |words|
    ensures WordAt(Bytes(words), 2 * i) == words[i]
  {
    if i > 0 {
      BytesAt(words[1..], i - 1);
    }
  }

  /** The little-endian word at an offset. */
  function WordAt(b: seq<Byte>, at: nat): int
    requires at + 1 < |b|
  {
    var low: int, high: int := b[at], b[at + 1];
    low + 256 * high
  }

  /** The layout of the frame: eight registers, program counter, flags, sixteen data and sixteen program pages. */
  lemma FrameLayout(s: State, i: nat)
    requires Shaped(s) && i < 16
    ensures |Encode(s)| == 84
    ensures i < 8 ==> WordAt(Encode(s), 2 * i) == s.regs[i]
    ensures WordAt(Encode(s), 16) == s.pc && WordAt(Encode(s), 18) == s.flags
    ensures WordAt(Encode(s), 20 + 2 * i) == s.memPages[i] && WordAt(Encode(s), 52 + 2 * i) == s.progPages[i]
  {
    hide Bytes, WordAt;
    var w := Fields(s);
    if i < 8 {
      BytesAt(w, i);
    }
    BytesAt(w, 8);
    BytesAt(w, 9);
    BytesAt(w, 10 + i);
    BytesAt(w, 26 + i);
    assert 2 * (10 + i) == 20 + 2 * i && 2 * (26 + i) == 52 + 2 * i;
  }

  /** A signal is its kind and, two bytes on, its value. */
  lemma SignalLayout(s: Signal)
    ensures |SignalBytes(s)| == 4 && WordAt(SignalBytes(s), 0) == s.kind && WordAt(SignalBytes(s), 2) == s.value
  {}

  function SignalBytes(s: Signal): (b: seq<Byte>)
    ensures |b| == SIGNAL_SIZE
  {
    WordBytes(s.kind) + WordBytes(s.value)
  }

  // ---- Entering and leaving a handler ----

  /** The stack pointer the handler starts with. */
  function EntrySp(sp: Word): Word {
    U16(sp - 4 - STATE_SIZE - SIGNAL_SIZE)
  }

  /** Where the frame starts below an interrupted stack pointer, and where a return looks for it. */
  function FrameAddress(sp: int): Word {
    U16(sp - 86)
  }

  function SignalAddress(sp: int): Word {
    U16(sp - 90)
  }

  function ReturnAddress(fp: int): Word {
    U16(fp + SIGNAL_SIZE + 2)
  }

  /** Room for the frame above the start of the stack page. */
  predicate StackRoom(s: State)
    requires Shaped(s)
  {
    s.regs[7] >= STACK_START + 4 + STATE_SIZE + SIGNAL_SIZE
  }

  /** `ASSERT(sp >= 0xf000u)` asks for that room, except that it also lets a wrapped pointer through. */
  lemma AssertIsRoom(s: State)
    requires Shaped(s)
    ensures EntrySp(s.regs[7]) >= STACK_START <==> StackRoom(s) || s.regs[7] < 4 + STATE_SIZE + SIGNAL_SIZE
  {}

  /** The address of byte `i` of the 88 that are pushed, signal first. */
  function PushedAt(sp: int, i: int): Word {
    U16(sp - 90 + i)
  }

  /** With room, and only then, all of them lie in the stack page below the interrupted pointer. */
  lemma RoomIff(s: State)
    requires Shaped(s)
    ensures StackRoom(s) <==>
            && s.regs[7] >= STACK_START + 2
            && forall i :: 0 <= i < SIGNAL_SIZE + STATE_SIZE ==> STACK_START + 2 <= PushedAt(s.regs[7], i) < s.regs[7]
  {
    var sp: int := s.regs[7];
    if !StackRoom(s) && sp >= STACK_START + 2 {
      assert PushedAt(sp, 0) == sp - 90;
    }
  }

  /** A pointer that passes the assertion although its frame wraps round to the first page. */
  lemma WrappedFrame(s: State)
    requires Shaped(s) && s.regs[7] == 0x10
    ensures EntrySp(s.regs[7]) == 0xffb4 && !StackRoom(s)
    ensures FrameAddress(s.regs[7]) == 0xffba && PushedAt(s.regs[7], 4) == 0xffba
    ensures PushedAt(s.regs[7], 4 + 69) == 0xffff && PushedAt(s.regs[7], 4 + 70) == 0
    ensures PushedAt(s.regs[7], 4 + 83) == 0xd
  {}

  /** User memory after the frame and the signal were pushed. */
  ghost function Pushed(mem: Memory, s: State, sig: Signal): (r: Memory)
    requires Shaped(s) && Fits(mem, s.memPages)
    ensures |r| == |mem|
  {
    var sp := U16(s.regs[7] - 4 - STATE_SIZE);
    var framed := WriteThrough(mem, s.memPages, U16(sp + 2), Encode(s));
    WriteThrough(framed, s.memPages, U16(EntrySp(s.regs[7]) + 2), SignalBytes(sig))
  }

  /** The state in which the handler starts. */
  function HandlerState(s: State, handler: Word): (r: State)
    requires Shaped(s)
    ensures Shaped(r) && r.memPages == s.memPages && r.progPages == s.progPages
  {
    var sp := EntrySp(s.regs[7]);
    s.(regs := [U16(sp + 2), 1, s.regs[2], s.regs[3], s.regs[4], sp, 0, sp], pc := handler)
  }

  /** Every register the handler starts with, on a stack with room; the frame lies above its stack pointer. */
  ghost predicate EntryRegisters(saved: State, r: State) {
    && Shaped(saved) && Shaped(r)
    && var sp: int := saved.regs[7];
    && r.regs[7] == r.regs[5] == sp - 92 && r.regs[0] == sp - 90
    && r.regs[1] == 1 && r.regs[6] == 0
    && r.regs[2] == saved.regs[2] && r.regs[3] == saved.regs[3] && r.regs[4] == saved.regs[4]
    && r.flags == saved.flags && r.memPages == saved.memPages && r.progPages == saved.progPages
    && forall i :: 0 <= i < 88 ==> r.regs[7] + 2 <= PushedAt(saved.regs[7], i) < saved.regs[7]
  }

  lemma HandlerStarts(saved: State, handler: Word)
    requires Shaped(saved) && StackRoom(saved)
    ensures EntryRegisters(saved, HandlerState(saved, handler)) && HandlerState(saved, handler).pc == handler
  {}

  /** The frame of `saved` is on the stack seen through `table`. */
  ghost predicate Framed(mem: Memory, table: PageTable, saved: State)
    requires Shaped(saved) && Fits(mem, table)
  {
    ReadThrough(mem, table, FrameAddress(saved.regs[7]), STATE_SIZE) == Encode(saved)
  }

  /** Physical address of the frame. */
  function FrameAt(table: PageTable, sp: Word): int
    requires |table| == PAGES
  {
    table[STACK_PAGE] * PAGE_SIZE + (sp - 86 - STACK_START)
  }

  lemma FrameInStackPage(table: PageTable, s: State)
    requires |table| == PAGES && Shaped(s) && StackRoom(s)
    ensures Translate(table, FrameAddress(s.regs[7])) == FrameAt(table, s.regs[7])
    ensures Translate(table, SignalAddress(s.regs[7])) == FrameAt(table, s.regs[7]) - 4
    ensures FrameAddress(s.regs[7]) % PAGE_SIZE + STATE_SIZE <= PAGE_SIZE
    ensures SignalAddress(s.regs[7]) % PAGE_SIZE + SIGNAL_SIZE <= PAGE_SIZE
    ensures U16(EntrySp(s.regs[7]) + 2) == SignalAddress(s.regs[7])
    ensures ReturnAddress(EntrySp(s.regs[7])) == FrameAddress(s.regs[7])
    ensures U16(U16(s.regs[7] - 4 - STATE_SIZE) + 2) == FrameAddress(s.regs[7])
  {}

  /** Pushing writes one 88-byte piece. */
  lemma PushedIsOnePiece(mem: Memory, s: State, sig: Signal)
    requires Shaped(s) && Fits(mem, s.memPages) && StackRoom(s)
    ensures var a := FrameAt(s.memPages, s.regs[7]);
            && 4 <= a && a + STATE_SIZE <= |mem|
            && Pushed(mem, s, sig) == mem[..a - 4] + SignalBytes(sig) + Encode(s) + mem[a + STATE_SIZE..]
  {
    hide WriteThrough, Translate, Encode, SignalBytes, U16, EntrySp, Fits;
    var a := FrameAt(s.memPages, s.regs[7]);
    FrameInStackPage(s.memPages, s);
    WriteInPage(mem, s.memPages, FrameAddress(s.regs[7]), Encode(s));
    var framed: Memory := WriteThrough(mem, s.memPages, FrameAddress(s.regs[7]), Encode(s));
    FitsBoth(mem, framed, s.memPages);
    WriteInPage(framed, s.memPages, SignalAddress(s.regs[7]), SignalBytes(sig));
    assert framed == mem[..a] + Encode(s) + mem[a + STATE_SIZE..];
    assert framed[..a - 4] == mem[..a - 4];
    assert framed[a..] == Encode(s) + mem[a + STATE_SIZE..];
    var r := Pushed(mem, s, sig);
    assert r == framed[..a - 4] + SignalBytes(sig) + framed[a..];
  }

  lemma FitsBoth(mem: Memory, mem': Memory, table: PageTable)
    requires Fits(mem, table) && |mem| == |mem'|
    ensures Fits(mem', table)
  {}

  /** The handler finds its signal where r0 points, and the frame behind it. */
  lemma EnterPushes(mem: Memory, s: State, sig: Signal, handler: Word)
    requires Shaped(s) && Fits(mem, s.memPages) && StackRoom(s)
    ensures Fits(Pushed(mem, s, sig), s.memPages) && Framed(Pushed(mem, s, sig), s.memPages, s)
    ensures ReadThrough(Pushed(mem, s, sig), s.memPages, HandlerState(s, handler).regs[0], SIGNAL_SIZE)
            == SignalBytes(sig)
  {
    hide ReadThrough, Translate, Encode, SignalBytes, U16, EntrySp, Pushed, Fits;
    var a := FrameAt(s.memPages, s.regs[7]);
    var mem' := Pushed(mem, s, sig);
    FitsBoth(mem, mem', s.memPages);
    PushedIsOnePiece(mem, s, sig);
    FrameInStackPage(s.memPages, s);
    ReadInPage(mem', s.memPages, FrameAddress(s.regs[7]), STATE_SIZE);
    ReadInPage(mem', s.memPages, SignalAddress(s.regs[7]), SIGNAL_SIZE);
    assert mem'[a - 4..a] == SignalBytes(sig);
    assert mem'[a..a + STATE_SIZE] == Encode(s);
  }

  /** Only the 88 bytes below the interrupted stack pointer's two-byte slot are written. */
  lemma EnterFrame(mem: Memory, s: State, sig: Signal, x: nat)
    requires Shaped(s) && Fits(mem, s.memPages) && StackRoom(s) && x < |mem|
    requires forall v: Word :: s.regs[7] - 90 <= v < s.regs[7] - 2 ==> Translate(s.memPages, v) != x
    ensures Pushed(mem, s, sig)[x] == mem[x]
  {
    hide Translate, Encode, SignalBytes, Pushed, Fits;
    var a := FrameAt(s.memPages, s.regs[7]);
    PushedIsOnePiece(mem, s, sig);
    if a - 4 <= x < a + STATE_SIZE {
      var v: Word := s.regs[7] - 86 + (x - a);
      StackTranslate(s.memPages, v);
      assert false;
    }
  }

  lemma StackTranslate(table: PageTable, v: Word)
    requires |table| == PAGES && v >= STACK_START
    ensures Translate(table, v) == table[STACK_PAGE] * PAGE_SIZE + (v - STACK_START)
  {}

  /** What `signal_handler_return` reads, for a frame inside one page. */
  ghost function Restored(mem: Memory, s: State): State
    requires Shaped(s) && Fits(mem, s.memPages)
  {
    Decode(ReadThrough(mem, s.memPages, ReturnAddress(s.regs[5]), STATE_SIZE))
  }

  /** The stack pointer that `ASSERT(sp == proc->syscall_state.regs[7])` expects. */
  function ReturnSp(s: State): Word
    requires Shaped(s)
  {
    U16(s.regs[5] + SIGNAL_SIZE + STATE_SIZE + 4)
  }

  /** Returning from the handler's own stack frame restores every word that was interrupted. */
  lemma ReturnRestores(mem: Memory, saved: State, s: State)
    requires Shaped(saved) && Shaped(s) && Fits(mem, s.memPages) && StackRoom(saved)
    requires Framed(mem, s.memPages, saved) && s.regs[5] == EntrySp(saved.regs[7])
    ensures Restored(mem, s) == saved
    ensures ReturnSp(s) == Restored(mem, s).regs[7]
  {
    hide ReadThrough, Translate, Encode, Decode, FrameAddress, ReturnAddress, Fits;
    FrameInStackPage(s.memPages, saved);
    DecodeEncode(saved);
  }

  /** A frame stays while its 84 bytes stay. */
  lemma FrameKept(mem: Memory, mem': Memory, table: PageTable, table': PageTable, saved: State)
    requires Shaped(saved) && StackRoom(saved)
    requires Fits(mem, table) && Fits(mem', table') && table'[STACK_PAGE] == table[STACK_PAGE]
    requires var a := FrameAt(table, saved.regs[7]);
             0 <= a && a + STATE_SIZE <= |mem| == |mem'| && mem'[a..a + STATE_SIZE] == mem[a..a + STATE_SIZE]
    ensures Framed(mem', table', saved) == Framed(mem, table, saved)
  {
    hide Translate, Encode, FrameAddress, ReadThrough;
    FrameInStackPage(table, saved);
    FrameInStackPage(table', saved);
    ReadInPage(mem, table, FrameAddress(saved.regs[7]), STATE_SIZE);
    ReadInPage(mem', table', FrameAddress(saved.regs[7]), STATE_SIZE);
  }

  /** The signal fields of `struct proc`, with the memory its pages lie in. */
  class Process {
    var procState: State
    var syscallState: State
    var hold: bool
    var sighandler: Word
    var queue: seq<Signal>
    var count: int
    const mem: array<Byte>

    ghost predicate Valid()
      reads this, mem
    {
      Shaped(procState) && Shaped(syscallState) && Fits(mem[..], syscallState.memPages)
    }

    constructor (s: State, m: array<Byte>)
      requires Shaped(s) && Fits(m[..], s.memPages)
      ensures Valid() && mem == m && procState == syscallState == s
      ensures !hold && sighandler == 0 && queue == [] && count == 0
    {
      procState, syscallState, hold, sighandler, queue, count, mem := s, s, false, 0, [], 0, m;
    }

    /** `signal_send`. */
    method Send(sig: Signal)
      modifies this`queue, this`count
      ensures queue == old(queue) + [sig] && count == old(count) + 1
    {
      queue := queue + [sig];
      count := count + 1;
    }

    /** `signal_handler_enter`; not `ok` when its assertion on the stack pointer fails. */
    method HandlerEnter(sig: Signal) returns (ok: bool)
      requires Valid() && procState == syscallState && sighandler != 0
      modifies this`hold, this`procState, mem
      ensures Valid() && hold
      ensures ok <==> EntrySp(old(procState).regs[7]) >= STACK_START
      ensures mem[..] == Pushed(old(mem[..]), old(procState), sig)
      ensures ok ==> procState == HandlerState(old(procState), sighandler)
      ensures StackRoom(old(procState)) ==>
                ok && EntryRegisters(old(procState), procState) && procState.pc == sighandler
    {
      hide WriteThrough, Encode, SignalBytes, U16, Fits, EntryRegisters;
      if StackRoom(procState) {
        HandlerStarts(procState, sighandler);
        AssertIsRoom(procState);
      }
      hold := true;
      var sp: int := procState.regs[7];
      sp := U16(sp - 4);
      sp := U16(sp - STATE_SIZE);
      ghost var r7: int := procState.regs[7];
      U16Twice(r7 - 4, -STATE_SIZE);
      MemcpyToUserspace(mem, syscallState.memPages, U16(sp + 2), Encode(procState));
      FitsBoth(old(mem[..]), mem[..], syscallState.memPages);
      sp := U16(sp - SIGNAL_SIZE);
      U16Twice(r7 - 4 - STATE_SIZE, -SIGNAL_SIZE);
      var sigptr: Word := U16(sp + 2);
      MemcpyToUserspace(mem, syscallState.memPages, sigptr, SignalBytes(sig));
      FitsBoth(old(mem[..]), mem[..], syscallState.memPages);
      ok := sp >= STACK_START;
      if ok {
        var r := procState.regs;
        procState := procState.(regs := [sigptr, 1, r[2], r[3], r[4], sp, 0, sp], pc := sighandler);
      }
    }

    /**
     * `signal_handler_return`, for a frame inside one page: a frame that straddles two would be read
     * through a table that the copy itself replaces.
     */
    method HandlerReturn() returns (ok: bool)
      requires Valid() && ReturnAddress(syscallState.regs[5]) % PAGE_SIZE + STATE_SIZE <= PAGE_SIZE
      modifies this`syscallState, this`hold
      ensures syscallState == Restored(mem[..], old(syscallState))
      ensures ok <==> ReturnSp(old(syscallState)) == syscallState.regs[7]
      ensures hold == (old(hold) && !ok)
    {
      hide ReadThrough, Decode, Fits, U16;
      var sp := U16(syscallState.regs[5] + SIGNAL_SIZE);
      U16Twice(syscallState.regs[5] + SIGNAL_SIZE, 2);
      U16Twice(syscallState.regs[5] + SIGNAL_SIZE, STATE_SIZE + 4);
      var bytes := MemcpyFromUserspace(mem, syscallState.memPages, U16(sp + 2), STATE_SIZE);
      syscallState := Decode(bytes);
      sp := U16(sp + STATE_SIZE + 4);
      ok := sp == syscallState.regs[7];
      if ok {
        hold := false;
      }
    }

    /** The way back to user mode in `int_sys_call`, for a process that is not dead. */
    method SyscallExit() returns (ok: bool)
      requires Valid()
      modifies this`procState, this`hold, this`queue, this`count, mem
      ensures ok ==> Valid()
      ensures queue == if old(queue != [] && !hold && sighandler != 0) && ok then old(queue)[1..] else old(queue)
      ensures old(queue == [] || hold || sighandler == 0) ==>
                ok && procState == syscallState && hold == old(hold) && count == old(count) && mem[..] == old(mem[..])
      ensures old(queue != [] && !hold && sighandler != 0) ==>
                && (ok <==> EntrySp(syscallState.regs[7]) >= STACK_START && old(count) > 0)
                && (ok ==> hold && count == old(count) - 1 && procState == HandlerState(syscallState, sighandler))
                && mem[..] == Pushed(old(mem[..]), syscallState, old(queue)[0])
    {
      hide Pushed, HandlerState, EntrySp, Fits;
      procState := syscallState;
      ok := true;
      if queue != [] && !hold && sighandler != 0 {
        ok := HandlerEnter(queue[0]);
        if ok && count > 0 {
          queue := queue[1..];
          count := count - 1;
        } else {
          ok := false;
        }
      }
    }
  }
}
