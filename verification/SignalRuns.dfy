/**
 * Whole runs of a process that receives signals: user code, the system calls about signals, and the
 * delivery at the end of every call. A handler may do what it likes as long as it leaves its frame alone
 * and returns with the frame pointer it was entered with.
 */
module SignalRuns {
  import opened Machine
  import opened Virtual
  import opened Signals
  import Pages

  /** `saved` is what the frame on the stack should hold while `hold` is set. */
  datatype Process = Process(
    user: State, hold: bool, handler: Word, queue: seq<Signal>, count: int, mem: Memory,
    saved: State, sent: seq<Signal>, taken: seq<Signal>)

  datatype Label =
    | User(regs: seq<Word>, pc: Word, flags: Word, mem: Memory)
    | Send(sig: Signal)
    | Call(result: Word)
    | PgMap(slot: nat, page: Word)
    | SigAction(handler: Word)
    | SigWait(buff: Word)
    | HandlerReturn

  /** The 84 bytes of the frame. */
  ghost predicate FrameBytesKept(p: Process, mem: Memory) {
    && |mem| == |p.mem| && |p.user.memPages| == PAGES && Shaped(p.saved)
    && var a := FrameAt(p.user.memPages, p.saved.regs[7]);
    && 0 <= a && a + STATE_SIZE <= |mem| && mem[a..a + STATE_SIZE] == p.mem[a..a + STATE_SIZE]
  }

  ghost predicate Memories(p: Process) {
    Shaped(p.user) && Fits(p.mem, p.user.memPages)
  }

  /** The frame is on the stack, and the handler's table has what the interrupted one had. */
  ghost predicate Held(p: Process)
    requires Memories(p)
  {
    && Shaped(p.saved) && StackRoom(p.saved) && Pages.MapsPage(p.saved.memPages[STACK_PAGE])
    && (forall s :: 0 <= s < PAGES && Pages.MapsPage(p.saved.memPages[s]) ==> p.user.memPages[s] == p.saved.memPages[s])
    && Fits(p.mem, p.saved.memPages) && Framed(p.mem, p.user.memPages, p.saved)
  }

  ghost predicate Inv(p: Process) {
    && Memories(p)
    && Pages.MapsPage(p.user.memPages[STACK_PAGE])
    && |p.queue| == p.count && p.sent == p.taken + p.queue
    && (p.hold ==> Held(p))
  }

  ghost predicate Init(p: Process) {
    && Memories(p) && Pages.MapsPage(p.user.memPages[STACK_PAGE])
    && !p.hold && p.handler == 0 && p.queue == [] && p.count == 0 && p.sent == [] && p.taken == []
  }

  function SetR0(s: State, r0: Word): (r: State)
    requires Shaped(s)
    ensures Shaped(r) && r.memPages == s.memPages
  {
    s.(regs := s.regs[0 := r0])
  }

  ghost predicate Enabled(p: Process, l: Label)
    requires Memories(p)
  {
    match l
    case User(regs, _, _, mem) => |regs| == 8 && |mem| == |p.mem| && (p.hold ==> FrameBytesKept(p, mem))
    case Send(_) => true
    case Call(_) => true
    case PgMap(slot, page) =>
      && slot < PAGES && !Pages.MapsPage(p.user.memPages[slot])
      && Fits(p.mem, p.user.memPages[slot := page])
    case SigAction(_) => true
    case SigWait(buff) =>
      && !(p.handler != 0 && !p.hold) && p.count > 0 && p.queue != []
      && (p.hold ==> FrameBytesKept(p, WriteThrough(p.mem, p.user.memPages, buff, SignalBytes(p.queue[0]))))
    case HandlerReturn => p.hold && Shaped(p.saved) && p.user.regs[5] == EntrySp(p.saved.regs[7])
  }

  /** The process when its system call has been served. */
  ghost function Served(p: Process, l: Label): Process
    requires Memories(p) && Enabled(p, l)
  {
    match l
    case User(regs, pc, flags, mem) => p.(user := p.user.(regs := regs, pc := pc, flags := flags), mem := mem)
    case Send(sig) => p.(queue := p.queue + [sig], count := p.count + 1, sent := p.sent + [sig])
    case Call(result) => p.(user := SetR0(p.user, result))
    case PgMap(slot, page) => p.(user := SetR0(p.user.(memPages := p.user.memPages[slot := page]), 0))
    case SigAction(handler) => p.(user := SetR0(p.user, p.handler), handler := handler)
    case SigWait(buff) =>
      p.(user := SetR0(p.user, 0),
         mem := WriteThrough(p.mem, p.user.memPages, buff, SignalBytes(p.queue[0])),
         queue := p.queue[1..], count := p.count - 1, taken := p.taken + [p.queue[0]])
    case HandlerReturn => p.(user := Restored(p.mem, p.user), hold := false)
  }

  predicate Delivers(p: Process) {
    p.queue != [] && !p.hold && p.handler != 0
  }

  /** The end of a system call, with a pending signal's handler entered. */
  ghost function Exit(p: Process): Process
    requires Memories(p)
  {
    if Delivers(p) then
      p.(user := HandlerState(p.user, p.handler), hold := true, mem := Pushed(p.mem, p.user, p.queue[0]),
         queue := p.queue[1..], count := p.count - 1, saved := p.user, taken := p.taken + [p.queue[0]])
    else
      p
  }

  predicate IsCall(l: Label) {
    !l.User? && !l.Send?
  }

  ghost predicate Step(p: Process, l: Label, q: Process) {
    && Memories(p) && Enabled(p, l)
    && if IsCall(l) then
         Memories(Served(p, l)) && (Delivers(Served(p, l)) ==> StackRoom(Served(p, l).user)) && q == Exit(Served(p, l))
       else
         q == Served(p, l)
  }

  ghost predicate Run(run: seq<Process>, labels: seq<Label>) {
    |run| == |labels| + 1 && forall i :: 0 <= i < |labels| ==> Step(run[i], labels[i], run[i + 1])
  }

  // ---- Every step keeps the invariant ----

  lemma UserInv(p: Process, l: Label)
    requires Inv(p) && Enabled(p, l) && l.User?
    ensures Inv(Served(p, l))
  {
    hide Framed, FrameAt, StackRoom;
    var q := Served(p, l);
    FitsBoth(p.mem, l.mem, p.user.memPages);
    if p.hold {
      FitsBoth(p.mem, l.mem, p.saved.memPages);
      FrameKept(p.mem, l.mem, p.user.memPages, q.user.memPages, p.saved);
    }
  }

  lemma WaitInv(p: Process, l: Label)
    requires Inv(p) && Enabled(p, l) && l.SigWait?
    ensures Inv(Served(p, l))
  {
    hide Framed, FrameAt, StackRoom, WriteThrough, SignalBytes;
    var q := Served(p, l);
    FitsBoth(p.mem, q.mem, p.user.memPages);
    if p.hold {
      FitsBoth(p.mem, q.mem, p.saved.memPages);
      FrameKept(p.mem, q.mem, p.user.memPages, q.user.memPages, p.saved);
    }
  }

  lemma MapInv(p: Process, l: Label)
    requires Inv(p) && Enabled(p, l) && l.PgMap?
    ensures Inv(Served(p, l))
  {
    hide Framed, StackRoom, Encode;
    var q := Served(p, l);
    if p.hold {
      FrameFits(p);
      FrameKept(p.mem, p.mem, p.user.memPages, q.user.memPages, p.saved);
    }
  }

  lemma FrameFits(p: Process)
    requires Inv(p) && p.hold
    ensures var a := FrameAt(p.user.memPages, p.saved.regs[7]); 0 <= a && a + STATE_SIZE <= |p.mem|
  {
    hide Framed, ReadThrough, Encode;
    FrameInStackPage(p.user.memPages, p.saved);
    ReadInPage(p.mem, p.user.memPages, FrameAddress(p.saved.regs[7]), STATE_SIZE);
  }

  /** The handler's return gives back exactly the interrupted state, and its assertion holds. */
  lemma ReturnInv(p: Process)
    requires Inv(p) && Enabled(p, HandlerReturn)
    ensures Restored(p.mem, p.user) == p.saved && ReturnSp(p.user) == p.saved.regs[7]
    ensures Inv(Served(p, HandlerReturn))
  {
    hide Restored, Framed, EntrySp, ReturnSp, StackRoom;
    ReturnRestores(p.mem, p.saved, p.user);
  }

  lemma PlainInv(p: Process, l: Label)
    requires Inv(p) && Enabled(p, l) && (l.Send? || l.Call? || l.SigAction?)
    ensures Inv(Served(p, l))
  {
    hide Framed, StackRoom, FrameAt, Fits, Restored, WriteThrough;
  }

  lemma ServedInv(p: Process, l: Label)
    requires Inv(p) && Enabled(p, l)
    ensures Inv(Served(p, l))
  {
    hide Inv, Served, Enabled;
    match l
    case User(_, _, _, _) => UserInv(p, l);
    case SigWait(_) => WaitInv(p, l);
    case PgMap(_, _) => MapInv(p, l);
    case HandlerReturn => ReturnInv(p);
    case _ => PlainInv(p, l);
  }

  /** Delivery starts from a queue whose count is positive and leaves one frame. */
  lemma ExitInv(p: Process)
    requires Inv(p) && (Delivers(p) ==> StackRoom(p.user))
    ensures Delivers(p) ==> p.count > 0
    ensures Inv(Exit(p))
  {
    hide Framed, StackRoom, Pushed, HandlerState;
    if Delivers(p) {
      EnterPushes(p.mem, p.user, p.queue[0], p.handler);
    }
  }

  lemma StepInv(p: Process, l: Label, q: Process)
    requires Inv(p) && Step(p, l, q)
    ensures Inv(q)
  {
    hide Inv, Enabled, Served, Exit, Delivers;
    ServedInv(p, l);
    if IsCall(l) {
      ExitInv(Served(p, l));
    }
  }

  lemma {:induction false} RunInv(run: seq<Process>, labels: seq<Label>, k: nat)
    requires Run(run, labels) && Init(run[0]) && k < |run|
    ensures Inv(run[k])
    decreases k
  {
    hide Step;
    if k > 0 {
      RunInv(run, labels, k - 1);
      StepInv(run[k - 1], labels[k - 1], run[k]);
    }
  }

  // ---- What holds of every run ----

  /** The queue and its semaphore count agree, and signals are taken in the order they were sent. */
  lemma TakenInOrder(run: seq<Process>, labels: seq<Label>, k: nat)
    requires Run(run, labels) && Init(run[0]) && k < |run|
    ensures run[k].taken <= run[k].sent && run[k].queue == run[k].sent[|run[k].taken|..]
    ensures run[k].count == |run[k].queue|
  {
    hide Run, Memories, Held;
    RunInv(run, labels, k);
  }

  /** The state the process goes back to once no handler is active. */
  function Resume(p: Process): State {
    if p.hold then p.saved else p.user
  }

  /** While a handler is active no step, not even its return into the next handler, changes that state. */
  lemma StepKeepsResume(p: Process, l: Label, q: Process)
    requires Inv(p) && p.hold && Step(p, l, q)
    ensures Resume(q) == Resume(p)
  {
    hide Held, Memories, Pushed, HandlerState, Restored, FrameBytesKept, WriteThrough, StackRoom;
    if l.HandlerReturn? {
      ReturnInv(p);
    }
  }

  /**
   * However many handlers run one after the other, the process resumes in exactly the state, registers,
   * program counter, flags and page tables alike, in which the first of them interrupted it.
   */
  lemma {:induction false} InterruptedStateSurvives(run: seq<Process>, labels: seq<Label>, a: nat, b: nat)
    requires Run(run, labels) && Init(run[0]) && a <= b < |run|
    requires forall i :: a <= i < b ==> run[i].hold
    ensures Resume(run[b]) == Resume(run[a])
    ensures a < b && !run[b].hold ==> run[b].user == run[a].saved
    decreases b - a
  {
    hide Step, Inv;
    if a < b {
      InterruptedStateSurvives(run, labels, a, b - 1);
      RunInv(run, labels, b - 1);
      StepKeepsResume(run[b - 1], labels[b - 1], run[b]);
    }
  }

  /** The handler has just been entered with signal `sig`. */
  ghost predicate EnteredWith(q: Process, sig: Signal) {
    && Memories(q) && Shaped(q.saved) && q.user.pc == q.handler && EntryRegisters(q.saved, q.user)
    && ReadThrough(q.mem, q.user.memPages, q.user.regs[0], 4) == SignalBytes(sig)
    && Framed(q.mem, q.user.memPages, q.saved)
  }

  /** On delivery the handler is given its own signal and the interrupted state is on the stack. */
  lemma HandlerGetsItsSignal(run: seq<Process>, labels: seq<Label>, k: nat)
    requires Run(run, labels) && Init(run[0]) && k < |labels|
    requires !run[k].hold && run[k + 1].hold
    ensures run[k + 1].taken != []
    ensures EnteredWith(run[k + 1], run[k + 1].taken[|run[k + 1].taken| - 1])
    ensures run[k + 1].taken <= run[k + 1].sent && run[k + 1].saved == Served(run[k], labels[k]).user
  {
    hide ReadThrough, Pushed, SignalBytes, Restored, WriteThrough, Framed, StackRoom, FrameBytesKept, EntryRegisters;
    RunInv(run, labels, k);
    RunInv(run, labels, k + 1);
    assert Step(run[k], labels[k], run[k + 1]);
    var s := Served(run[k], labels[k]);
    EnterPushes(s.mem, s.user, s.queue[0], s.handler);
    HandlerStarts(s.user, s.handler);
  }

  /** A handler that writes nothing above its entry stack pointer's slot keeps the frame, whatever else it does. */
  lemma WritingBelowKeepsFrame(p: Process, mem: Memory)
    requires Inv(p) && p.hold && |mem| == |p.mem|
    requires forall v: Word :: p.saved.regs[7] - 90 <= v ==>
               var x := Translate(p.user.memPages, v); x < |mem| && mem[x] == p.mem[x]
    ensures FrameBytesKept(p, mem)
  {
    hide Framed, Translate;
    FrameFits(p);
    var a := FrameAt(p.user.memPages, p.saved.regs[7]);
    forall x | a <= x < a + STATE_SIZE
      ensures mem[x] == p.mem[x]
    {
      var v: Word := p.saved.regs[7] - 86 + (x - a);
      StackTranslate(p.user.memPages, v);
    }
    assert mem[a..a + STATE_SIZE] == p.mem[a..a + STATE_SIZE];
  }

  /** And one that returns with the frame pointer it was entered with may return. */
  lemma KeptFramePointerReturns(p: Process, entry: State)
    requires Inv(p) && p.hold && EntryRegisters(p.saved, entry)
    ensures Enabled(p, HandlerReturn) <==> p.user.regs[5] == entry.regs[5]
  {
    hide Framed, Fits;
  }

  // ---- Mappings ----

  /** A mapping of the state the process goes back to is never lost. */
  lemma {:induction false} MappingStays(run: seq<Process>, labels: seq<Label>, a: nat, b: nat, slot: nat)
    requires Run(run, labels) && Init(run[0]) && a <= b < |run| && slot < |Resume(run[a]).memPages|
    requires Pages.MapsPage(Resume(run[a]).memPages[slot])
    ensures slot < |Resume(run[b]).memPages| && Resume(run[b]).memPages[slot] == Resume(run[a]).memPages[slot]
    decreases b - a
  {
    hide Step, Inv, Pages.MapsPage;
    if a < b {
      MappingStays(run, labels, a, b - 1, slot);
      RunInv(run, labels, b - 1);
      StepKeepsMapping(run[b - 1], labels[b - 1], run[b], slot);
    }
  }

  lemma StepKeepsMapping(p: Process, l: Label, q: Process, slot: nat)
    requires Inv(p) && Step(p, l, q) && slot < |Resume(p).memPages| && Pages.MapsPage(Resume(p).memPages[slot])
    ensures slot < |Resume(q).memPages| && Resume(q).memPages[slot] == Resume(p).memPages[slot]
  {
    hide Held, Pushed, HandlerState, Restored, FrameBytesKept, WriteThrough, StackRoom, Fits;
    if p.hold {
      StepKeepsResume(p, l, q);
    }
  }

  /** What SYS_PGMAP adds to that state: the page outside handlers, nothing inside. */
  lemma MapStep(p: Process, l: Label, q: Process)
    requires Inv(p) && Step(p, l, q) && l.PgMap? && Pages.MapsPage(l.page)
    ensures l.slot < PAGES == |Resume(q).memPages|
    ensures Resume(q).memPages[l.slot] == l.page <==> !p.hold
    ensures p.hold ==> !Pages.MapsPage(Resume(q).memPages[l.slot])
  {
    hide Pushed, HandlerState, Restored, FrameBytesKept, WriteThrough, StackRoom, Fits, Framed;
    if p.hold {
      StepKeepsResume(p, l, q);
      assert !Pages.MapsPage(p.saved.memPages[l.slot]);
    }
  }

  /**
   * A page mapped by SYS_PGMAP is in the table at the next moment without an active handler if and only if
   * it was not mapped by a handler: a handler's mappings go with its return. A mapping made outside a
   * handler is there at every later such moment.
   */
  lemma MappingSurvivesIff(run: seq<Process>, labels: seq<Label>, a: nat, b: nat)
    requires Run(run, labels) && Init(run[0]) && a < b < |run|
    requires labels[a].PgMap? && Pages.MapsPage(labels[a].page)
    requires !run[b].hold && forall i :: a < i < b ==> run[i].hold
    ensures labels[a].slot < |run[b].user.memPages|
    ensures run[b].user.memPages[labels[a].slot] == labels[a].page <==> !run[a].hold
    ensures run[a].hold ==> !Pages.MapsPage(run[b].user.memPages[labels[a].slot])
    ensures !run[a].hold ==>
              forall c :: b <= c < |run| && !run[c].hold ==>
                labels[a].slot < |run[c].user.memPages| && run[c].user.memPages[labels[a].slot] == labels[a].page
  {
    hide Step, Inv, Pages.MapsPage;
    RunInv(run, labels, a);
    MapStep(run[a], labels[a], run[a + 1]);
    InterruptedStateSurvives(run, labels, a + 1, b);
    if !run[a].hold {
      forall c | b <= c < |run| && !run[c].hold
        ensures labels[a].slot < |run[c].user.memPages| && run[c].user.memPages[labels[a].slot] == labels[a].page
      {
        MappingStays(run, labels, a + 1, c, labels[a].slot);
      }
    }
  }

  /** One step of a run under construction. */
  lemma Go(p: Process, l: Label) returns (q: Process)
    requires Inv(p) && Enabled(p, l)
    requires IsCall(l) && Delivers(Served(p, l)) ==> StackRoom(Served(p, l).user)
    ensures Step(p, l, q) && Inv(q)
    ensures q == if IsCall(l) && Memories(Served(p, l)) then Exit(Served(p, l)) else Served(p, l)
  {
    hide Enabled, Delivers, Exit, Served, Held, StackRoom;
    ServedInv(p, l);
    q := if IsCall(l) then Exit(Served(p, l)) else Served(p, l);
    StepInv(p, l, q);
  }

  /** A process with only a stack page, in a memory of `n` pages. */
  ghost function Fresh(n: nat): Process {
    var tables: seq<Word> := seq(PAGES, i => if i == STACK_PAGE then Pages.FIRST_PAGE else Pages.UNMAPPED);
    var regs: seq<Word> := [0, 0, 0, 0, 0, 0xfffe, 0, 0xfffe];
    var s := State(regs, 0, 0, tables, seq(PAGES, _ => Pages.UNMAPPED));
    Process(s, false, 0, [], 0, seq(n * PAGE_SIZE, _ => 0), s, [], [])
  }

  /** A handler maps page 0x213 at slot 3, returns, and slot 3 is unmapped. */
  lemma HandlerLosesItsPage() returns (run: seq<Process>, labels: seq<Label>)
    ensures Run(run, labels) && Init(run[0]) && |labels| == 5
    ensures labels[3] == PgMap(3, 0x213) && run[3].hold && Memories(run[4]) && run[4].user.memPages[3] == 0x213
    ensures !run[5].hold && Memories(run[5]) && run[5].user.memPages[3] == Pages.UNMAPPED
  {
    hide Pushed, Restored, WriteThrough, ReadThrough, Framed, Encode, Held, FrameBytesKept, Fits;
    var p0 := Fresh(0x214);
    FreshFits(0x214);
    var p1 := Go(p0, SigAction(4));
    var p2 := Go(p1, Send(Signal(1, 1)));
    var p3 := Go(p2, Call(0));
    MappedFits(p3.mem, p3.user.memPages, 3, 0x213);
    var p4 := Go(p3, PgMap(3, 0x213));
    assert p4.saved == p2.user.(regs := p2.user.regs[0 := 0]);
    ReturnInv(p4);
    var p5 := Go(p4, HandlerReturn);
    run := [p0, p1, p2, p3, p4, p5];
    labels := [SigAction(4), Send(Signal(1, 1)), Call(0), PgMap(3, 0x213), HandlerReturn];
  }

  lemma FreshFits(n: nat)
    requires n >= 0x214
    ensures Init(Fresh(n)) && Inv(Fresh(n))
  {}

  lemma MappedFits(mem: Memory, table: seq<Word>, slot: nat, page: Word)
    requires |table| == PAGES && Fits(mem, table) && slot < PAGES && (page + 1) * PAGE_SIZE <= |mem|
    ensures Fits(mem, table[slot := page])
  {
    var t := table[slot := page];
    forall p | p in t
      ensures (p + 1) * PAGE_SIZE <= |mem|
    {
      var i :| 0 <= i < PAGES && t[i] == p;
      assert i != slot ==> table[i] in table;
    }
  }
}
