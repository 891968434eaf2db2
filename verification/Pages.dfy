/**
 * Who owns which physical page: the page counters and tables of kernel/proc/sched.c, the loader's
 * allocation in kernel/proc/elf.c, SYS_PGMAP and SYS_SIGHDLRRET in kernel/sys/sysd.c, and the exchange of
 * tables around a system call in kernel/irq/interrupt.c.
 */
module Pages {
  import opened Machine
  import opened Sched
  import opened Virtual

  const KERNEL_PAGE: int := 0x200
  const FIRST_PAGE: int := 0x211
  const FIRST_PROG_PAGE: int := 0x11
  const PROG_REGION: int := 0x1000
  const UNMAPPED: int := 0xff
  const KERNEL_STACK: int := 16
  /** A program entry covers two pages of the byte-addressed space. */
  const PROG_SLOTS: int := 8
  /** The data page behind the first half of the first program page handed out. */
  const FIRST_WINDOW: int := PROG_REGION + 2 * FIRST_PROG_PAGE

  datatype Kind = KernelThread | UserProcess

  /** The paging part of `struct proc_state`. */
  datatype Tables = Tables(mem: seq<nat>, prog: seq<nat>)

  /**
   * The paging part of `struct proc`. `own` and `call` are the tables in `proc_state` and
   * `syscall_state`. `swapped` records that the kernel has put its own table into `proc_state`, and
   * `frames` which tables it has pushed on the user's stack with a signal.
   */
  datatype Process = Process(
    kind: Kind, status: ProcState, swapped: bool, own: Tables, call: Tables, kstack: nat, frames: set<Tables>)

  /** A slot of a process's table, or its kernel stack. */
  datatype Slot = Slot(i: nat, slot: nat)

  /** `owner` and `progOwner` record where each page handed out so far went. */
  datatype World = World(procs: seq<Process>, nextPage: nat, nextProg: nat, owner: seq<Slot>, progOwner: seq<Slot>)

  datatype Label =
    | MakeKernelThread
    | InitUserThread
    | LoadData(i: nat, slot: nat)
    | LoadProg(i: nat, slot: nat)
    | Start(i: nat)
    | SyscallEntry(i: nat)
    | MapPageZero(i: nat, page: nat)
    | Block(i: nat)
    | Unblock(i: nat)
    | PgMap(i: nat, slot: nat)
    | SignalReturn(i: nat, tables: Tables)   // SYS_SIGHDLRRET: tables read from the user's stack
    | SyscallExit(i: nat, deliver: bool)     // with the entry of a signal handler, or without
    | Exit(i: nat)                           // SYS_EXIT
    | Segfault(i: nat)

  // ---- Tables ----

  function KernelTable(stack: nat): (t: seq<nat>)
    ensures |t| == PAGES
  {
    seq(PAGES, s => if s == 0 then 0 else if s == STACK_PAGE then stack else KERNEL_PAGE + s)
  }

  function KernelProg(): (t: seq<nat>)
    ensures |t| == PAGES
  {
    seq(PAGES, s => s)
  }

  function Blank(): (t: seq<nat>)
    ensures |t| == PAGES && forall s :: 0 <= s < PAGES ==> t[s] == UNMAPPED
  {
    seq(PAGES, _ => UNMAPPED)
  }

  /** Neither the entry of a new table nor the illegal page. */
  predicate MapsPage(page: nat) {
    page != UNMAPPED && page != 0
  }

  /** The tables under which the process's own code runs. */
  function UserTables(p: Process): Tables {
    if p.swapped then p.call else p.own
  }

  /** `get_proc_addr_page` for an existing process. */
  function AddrPage(p: Process, slot: nat): nat
    requires |p.own.mem| == |p.call.mem| == PAGES && slot < PAGES
  {
    if p.status == Syscall || p.status == SyscallBlocked then p.call.mem[slot] else p.own.mem[slot]
  }

  predicate Sized(t: Tables) {
    |t.mem| == PAGES && |t.prog| == PAGES
  }

  predicate Shaped(p: Process) {
    && Sized(p.own) && Sized(p.call)
    && (p.kind == KernelThread ==> p.status == Runnable || p.status == Blocked)
    && (p.kind == UserProcess ==>
          && p.status != Blocked
          && (p.status == Syscall || p.status == SyscallBlocked ==> p.swapped)
          && (p.status == Runnable || p.status == Unloaded ==> !p.swapped)
          && (p.swapped ==> p.own.mem[STACK_PAGE] == p.kstack))
  }

  // ---- Steps ----

  predicate IsUser(w: World, i: nat, status: ProcState) {
    && i < |w.procs| && w.procs[i].kind == UserProcess && w.procs[i].status == status
    && Sized(w.procs[i].own) && Sized(w.procs[i].call)
  }

  predicate Enabled(w: World, l: Label) {
    match l
    case MakeKernelThread => true
    case InitUserThread => true
    case LoadData(i, slot) => slot < PAGES && IsUser(w, i, Unloaded)
    case LoadProg(i, slot) => slot < PROG_SLOTS && IsUser(w, i, Unloaded)
    case Start(i) => IsUser(w, i, Unloaded)
    case SyscallEntry(i) => IsUser(w, i, Runnable)
    case MapPageZero(i, _) =>
      && i < |w.procs| && Sized(w.procs[i].own)
      && (w.procs[i].kind == KernelThread || w.procs[i].status == Syscall)
    case Block(i) =>
      i < |w.procs| && w.procs[i].status == (if w.procs[i].kind == KernelThread then Runnable else Syscall)
    case Unblock(i) => i < |w.procs| && (w.procs[i].status == Blocked || w.procs[i].status == SyscallBlocked)
    case PgMap(i, slot) => slot < PAGES && IsUser(w, i, Syscall)
    case SignalReturn(i, tables) => IsUser(w, i, Syscall) && Sized(tables)
    case SyscallExit(i, _) => IsUser(w, i, Syscall)
    case Exit(i) => IsUser(w, i, Syscall)
    case Segfault(i) => IsUser(w, i, Runnable)
  }

  function SetProc(w: World, i: nat, p: Process): World
    requires i < |w.procs|
  {
    w.(procs := w.procs[i := p])
  }

  /** Hand the next data page to a place. */
  function HandOut(w: World, place: Slot): World {
    w.(nextPage := w.nextPage + 1, owner := w.owner + [place])
  }

  function Mem(t: Tables, slot: nat, page: nat): Tables
    requires slot < |t.mem|
  {
    t.(mem := t.mem[slot := page])
  }

  function Apply(w: World, l: Label): World
    requires Enabled(w, l)
  {
    match l
    case MakeKernelThread =>
      var p := Process(KernelThread, Runnable, false, Tables(KernelTable(w.nextPage), KernelProg()),
                       Tables(Blank(), Blank()), 0, {});
      HandOut(w, Slot(|w.procs|, STACK_PAGE)).(procs := w.procs + [p])
    case InitUserThread =>
      var p := Process(UserProcess, Unloaded, false, Tables(Blank()[STACK_PAGE := w.nextPage], Blank()),
                       Tables(Blank(), Blank()), w.nextPage + 1, {});
      var n := |w.procs|;
      HandOut(HandOut(w, Slot(n, STACK_PAGE)), Slot(n, KERNEL_STACK)).(procs := w.procs + [p])
    case LoadData(i, slot) =>
      var p := w.procs[i];
      if p.own.mem[slot] == UNMAPPED then
        SetProc(HandOut(w, Slot(i, slot)), i, p.(own := Mem(p.own, slot, w.nextPage)))
      else w
    case LoadProg(i, slot) =>
      var p := w.procs[i];
      if p.own.prog[slot] == UNMAPPED then
        SetProc(w, i, p.(own := p.own.(prog := p.own.prog[slot := w.nextProg])))
        .(nextProg := w.nextProg + 1, progOwner := w.progOwner + [Slot(i, slot)])
      else w
    case Start(i) => SetProc(w, i, w.procs[i].(status := Runnable))
    case SyscallEntry(i) =>
      var p := w.procs[i];
      SetProc(w, i, p.(status := Syscall, swapped := true, call := p.own,
                       own := Tables(KernelTable(p.kstack), KernelProg())))
    case MapPageZero(i, page) => SetProc(w, i, w.procs[i].(own := Mem(w.procs[i].own, 0, page)))
    case Block(i) =>
      var p := w.procs[i];
      SetProc(w, i, p.(status := if p.status == Syscall then SyscallBlocked else Blocked))
    case Unblock(i) =>
      var p := w.procs[i];
      SetProc(w, i, p.(status := if p.status == SyscallBlocked then Syscall else Runnable))
    case PgMap(i, slot) =>
      var p := w.procs[i];
      if !MapsPage(p.call.mem[slot]) then
        SetProc(HandOut(w, Slot(i, slot)), i, p.(call := Mem(p.call, slot, w.nextPage)))
      else w
    case SignalReturn(i, tables) => SetProc(w, i, w.procs[i].(call := tables))
    case SyscallExit(i, deliver) =>
      var p := w.procs[i];
      SetProc(w, i, p.(status := Runnable, swapped := false, own := p.call,
                       frames := if deliver then p.frames + {p.call} else p.frames))
    case Exit(i) => SetProc(w, i, w.procs[i].(status := Dead))
    case Segfault(i) => SetProc(w, i, w.procs[i].(status := Dead))
  }

  predicate Init(w: World) {
    && w.procs == [] && w.nextPage == FIRST_PAGE && w.nextProg == FIRST_PROG_PAGE
    && w.owner == [] && w.progOwner == []
  }

  /** Worlds joined by enabled steps. */
  ghost predicate Steps(run: seq<World>, labels: seq<Label>) {
    && |run| == |labels| + 1
    && forall i :: 0 <= i < |labels| ==>
         Enabled(run[i], labels[i]) && run[i + 1] == Apply(run[i], labels[i])
  }

  ghost predicate Run(run: seq<World>, labels: seq<Label>) {
    Steps(run, labels) && Init(run[0])
  }

  /** A handler returns with tables that the kernel pushed for this process, */
  predicate Saved(w: World, l: Label) {
    l.SignalReturn? ==> l.i < |w.procs| && l.tables in w.procs[l.i].frames
  }

  /** or at least with data pages that were handed to this process. */
  predicate Tame(w: World, l: Label) {
    l.SignalReturn? ==> Owned(w, l.i, l.tables, OfProcess)
  }

  ghost predicate HonestRun(run: seq<World>, labels: seq<Label>) {
    Run(run, labels) && forall i :: 0 <= i < |labels| ==> Saved(run[i], labels[i])
  }

  ghost predicate TameRun(run: seq<World>, labels: seq<Label>) {
    Run(run, labels) && forall i :: 0 <= i < |labels| ==> Tame(run[i], labels[i])
  }

  // ---- Ownership ----

  /** How much is known of the entries of user tables: nothing, the process, or the very slot they belong to. */
  datatype Mode = Anything | OfProcess | OfSlot

  predicate Owns(owner: seq<Slot>, i: nat, s: nat, page: nat) {
    FIRST_PAGE <= page < FIRST_PAGE + |owner| && owner[page - FIRST_PAGE] == Slot(i, s)
  }

  /** The page was handed to process `i`, and not as its kernel stack. */
  predicate HandedTo(owner: seq<Slot>, i: nat, page: nat) {
    && FIRST_PAGE <= page < FIRST_PAGE + |owner|
    && owner[page - FIRST_PAGE].i == i && owner[page - FIRST_PAGE].slot < KERNEL_STACK
  }

  predicate OwnsProg(owner: seq<Slot>, i: nat, s: nat, page: nat) {
    FIRST_PROG_PAGE <= page < FIRST_PROG_PAGE + |owner| && owner[page - FIRST_PROG_PAGE] == Slot(i, s)
  }

  predicate Owned(w: World, i: nat, t: Tables, mode: Mode) {
    && Sized(t)
    && (mode == OfProcess ==> forall s :: 0 <= s < PAGES && MapsPage(t.mem[s]) ==> HandedTo(w.owner, i, t.mem[s]))
    && (mode == OfSlot ==>
          && MapsPage(t.mem[STACK_PAGE])
          && (forall s :: 0 <= s < PAGES && MapsPage(t.mem[s]) ==> Owns(w.owner, i, s, t.mem[s]))
          && (forall s :: 0 <= s < PAGES ==> t.prog[s] == UNMAPPED || OwnsProg(w.progOwner, i, s, t.prog[s])))
  }

  /** Owned tables, kernel stack and frames. */
  predicate ProcInv(w: World, i: nat, p: Process, mode: Mode) {
    && Shaped(p)
    && (p.kind == KernelThread ==> Owns(w.owner, i, STACK_PAGE, p.own.mem[STACK_PAGE]))
    && (p.kind == UserProcess ==>
          && Owns(w.owner, i, KERNEL_STACK, p.kstack)
          && Owned(w, i, UserTables(p), mode)
          && forall f <- p.frames :: Owned(w, i, f, mode))
  }

  /** What was handed out as a kernel stack or to a kernel thread is still just that. */
  predicate OwnerInv(w: World, x: nat)
    requires x < |w.owner|
  {
    var o := w.owner[x];
    && o.i < |w.procs| && o.slot <= KERNEL_STACK
    && var p := w.procs[o.i];
    && (o.slot == KERNEL_STACK ==> p.kind == UserProcess && p.kstack == FIRST_PAGE + x)
    && (p.kind == KernelThread ==>
          o.slot == STACK_PAGE && |p.own.mem| == PAGES && p.own.mem[STACK_PAGE] == FIRST_PAGE + x)
  }

  predicate Inv(w: World, mode: Mode) {
    && w.nextPage == FIRST_PAGE + |w.owner| && w.nextProg == FIRST_PROG_PAGE + |w.progOwner|
    && (forall i :: 0 <= i < |w.procs| ==> ProcInv(w, i, w.procs[i], mode))
    && (forall x :: 0 <= x < |w.owner| ==> OwnerInv(w, x))
  }

  /** What a step must promise to keep it. */
  predicate Allowed(w: World, l: Label, mode: Mode) {
    match mode
    case Anything => true
    case OfProcess => Tame(w, l)
    case OfSlot => Saved(w, l)
  }

  /** More pages handed out later take nothing away. */
  lemma OwnedStays(w: World, w': World, i: nat, t: Tables, mode: Mode)
    requires Owned(w, i, t, mode) && w.owner <= w'.owner && w.progOwner <= w'.progOwner
    ensures Owned(w', i, t, mode)
  {}

  lemma ProcInvStays(w: World, w': World, i: nat, p: Process, mode: Mode)
    requires ProcInv(w, i, p, mode) && w.owner <= w'.owner && w.progOwner <= w'.progOwner
    ensures ProcInv(w', i, p, mode)
  {
    hide Owned, Shaped;
    if p.kind == UserProcess {
      OwnedStays(w, w', i, UserTables(p), mode);
      forall f | f in p.frames
        ensures Owned(w', i, f, mode)
      {
        OwnedStays(w, w', i, f, mode);
      }
    }
  }

  /** One process changes, or one is added. */
  lemma OneProcInv(w: World, w': World, i: nat, mode: Mode)
    requires Inv(w, mode) && w.owner <= w'.owner && w.progOwner <= w'.progOwner
    requires w'.nextPage == FIRST_PAGE + |w'.owner| && w'.nextProg == FIRST_PROG_PAGE + |w'.progOwner|
    requires i <= |w.procs| && |w'.procs| == Max(|w.procs|, i + 1)
    requires forall j :: 0 <= j < |w.procs| && j != i ==> w'.procs[j] == w.procs[j]
    requires ProcInv(w', i, w'.procs[i], mode)
    requires i < |w.procs| ==> SameStacks(w.procs[i], w'.procs[i])
    requires forall x :: |w.owner| <= x < |w'.owner| ==> OwnerInv(w', x)
    ensures Inv(w', mode)
  {
    hide ProcInv;
    forall j | 0 <= j < |w'.procs|
      ensures ProcInv(w', j, w'.procs[j], mode)
    {
      if j != i {
        ProcInvStays(w, w', j, w.procs[j], mode);
      }
    }
    forall x | 0 <= x < |w'.owner|
      ensures OwnerInv(w', x)
    {
      if x < |w.owner| {
        assert OwnerInv(w, x);
      }
    }
  }

  predicate SameStacks(p: Process, q: Process) {
    && q.kind == p.kind && q.kstack == p.kstack
    && (p.kind == KernelThread && |p.own.mem| == PAGES ==>
          |q.own.mem| == PAGES && q.own.mem[STACK_PAGE] == p.own.mem[STACK_PAGE])
  }

  /** Steps that hand out a page of either kind. */
  lemma GrowingStep(w: World, l: Label, mode: Mode)
    requires Inv(w, mode) && Enabled(w, l) && (l.LoadData? || l.LoadProg? || l.PgMap?)
    ensures Inv(Apply(w, l), mode)
  {
    var w' := Apply(w, l);
    var p := w.procs[l.i];
    assert ProcInv(w, l.i, p, mode);
    ProcInvStays(w, w', l.i, p, mode);
    OneProcInv(w, w', l.i, mode);
  }

  lemma NewProcessStep(w: World, l: Label, mode: Mode)
    requires Inv(w, mode) && Enabled(w, l) && (l.MakeKernelThread? || l.InitUserThread?)
    ensures Inv(Apply(w, l), mode)
  {
    OneProcInv(w, Apply(w, l), |w.procs|, mode);
  }

  lemma OtherStep(w: World, l: Label, mode: Mode)
    requires Inv(w, mode) && Enabled(w, l) && Allowed(w, l, mode)
    requires !(l.MakeKernelThread? || l.InitUserThread? || l.LoadData? || l.LoadProg? || l.PgMap?)
    ensures Inv(Apply(w, l), mode)
  {
    hide Owned, Owns;
    var w' := Apply(w, l);
    assert ProcInv(w, l.i, w.procs[l.i], mode);
    forall f: Tables
      ensures Owned(w', l.i, f, mode) == Owned(w, l.i, f, mode)
    {
      OwnedSame(w, w', l.i, f, mode);
    }
    if l.SignalReturn? {
      AllowedIsOwned(w, l, mode);
    }
    OneProcInv(w, w', l.i, mode);
  }

  lemma AllowedIsOwned(w: World, l: Label, mode: Mode)
    requires Inv(w, mode) && Enabled(w, l) && Allowed(w, l, mode) && l.SignalReturn?
    ensures Owned(w, l.i, l.tables, mode)
  {
    assert ProcInv(w, l.i, w.procs[l.i], mode);
  }

  lemma OwnedSame(w: World, w': World, i: nat, t: Tables, mode: Mode)
    requires w.owner == w'.owner && w.progOwner == w'.progOwner
    ensures Owned(w', i, t, mode) == Owned(w, i, t, mode)
  {}

  lemma StepInv(w: World, l: Label, mode: Mode)
    requires Inv(w, mode) && Enabled(w, l) && Allowed(w, l, mode)
    ensures Inv(Apply(w, l), mode)
  {
    hide Inv, Enabled, Apply, Allowed;
    match l
    case MakeKernelThread => NewProcessStep(w, l, mode);
    case InitUserThread => NewProcessStep(w, l, mode);
    case LoadData(_, _) => GrowingStep(w, l, mode);
    case LoadProg(_, _) => GrowingStep(w, l, mode);
    case PgMap(_, _) => GrowingStep(w, l, mode);
    case _ => OtherStep(w, l, mode);
  }

  lemma {:induction false} StepsInv(run: seq<World>, labels: seq<Label>, k: nat, mode: Mode)
    requires Steps(run, labels) && Inv(run[0], mode) && k < |run|
    requires forall i :: 0 <= i < |labels| ==> Allowed(run[i], labels[i], mode)
    ensures Inv(run[k], mode)
    decreases k
  {
    hide Apply, Enabled, Allowed, Inv;
    if k > 0 {
      StepsInv(run, labels, k - 1, mode);
      StepInv(run[k - 1], labels[k - 1], mode);
    }
  }

  lemma RunInv(run: seq<World>, labels: seq<Label>, k: nat)
    requires HonestRun(run, labels) && k < |run|
    ensures Inv(run[k], OfSlot)
  {
    hide Apply, Enabled, Saved;
    StepsInv(run, labels, k, OfSlot);
  }

  lemma TameRunInv(run: seq<World>, labels: seq<Label>, k: nat)
    requires TameRun(run, labels) && k < |run|
    ensures Inv(run[k], OfProcess)
  {
    hide Apply, Enabled, Tame;
    StepsInv(run, labels, k, OfProcess);
  }

  // ---- One holder for every page ----

  /** What a process holds in one of its slots or as a kernel stack. */
  function Page(p: Process, s: nat): nat
    requires Shaped(p) && s <= KERNEL_STACK
  {
    match p.kind
    case KernelThread => if s == STACK_PAGE then p.own.mem[STACK_PAGE] else UNMAPPED
    case UserProcess => if s == KERNEL_STACK then p.kstack else UserTables(p).mem[s]
  }

  /**
   * When handlers return with the tables the kernel saved, no page is held in two places: neither in two
   * slots of one process or of two, nor in a slot and as a stack, nor as the stack of two.
   */
  lemma OneHolder(run: seq<World>, labels: seq<Label>, k: nat, i: nat, s: nat, j: nat, t: nat)
    requires HonestRun(run, labels) && k < |run| && i < |run[k].procs| && j < |run[k].procs|
    requires s <= KERNEL_STACK && t <= KERNEL_STACK && (i != j || s != t)
    ensures Shaped(run[k].procs[i]) && Shaped(run[k].procs[j])
    ensures MapsPage(Page(run[k].procs[i], s)) ==> Page(run[k].procs[i], s) != Page(run[k].procs[j], t)
  {
    hide Apply, Enabled, Run, UserTables, Saved;
    RunInv(run, labels, k);
    var w := run[k];
    assert ProcInv(w, i, w.procs[i], OfSlot) && ProcInv(w, j, w.procs[j], OfSlot);
  }

  /** So two addresses, of one process or of two, never lead to the same byte. */
  lemma OneHolderOfByte(run: seq<World>, labels: seq<Label>, k: nat, i: nat, v: Word, j: nat, u: Word)
    requires HonestRun(run, labels) && k < |run| && i < |run[k].procs| && j < |run[k].procs| && (i != j || v != u)
    requires run[k].procs[i].kind == UserProcess && run[k].procs[j].kind == UserProcess
    ensures Sized(UserTables(run[k].procs[i])) && Sized(UserTables(run[k].procs[j]))
    ensures MapsPage(UserTables(run[k].procs[i]).mem[v / PAGE_SIZE]) ==>
              Translate(UserTables(run[k].procs[i]).mem, v) != Translate(UserTables(run[k].procs[j]).mem, u)
  {
    hide Apply, Enabled, Run, UserTables, Saved, Translate;
    RunInv(run, labels, k);
    var w := run[k];
    assert ProcInv(w, i, w.procs[i], OfSlot) && ProcInv(w, j, w.procs[j], OfSlot);
    var a, b := UserTables(w.procs[i]).mem, UserTables(w.procs[j]).mem;
    if i != j || v / PAGE_SIZE != u / PAGE_SIZE {
      OneHolder(run, labels, k, i, v / PAGE_SIZE, j, u / PAGE_SIZE);
    }
    if MapsPage(a[v / PAGE_SIZE]) {
      DifferentBytes(a, v, b, u);
    }
  }

  lemma DifferentBytes(a: PageTable, v: Word, b: PageTable, u: Word)
    requires |a| == PAGES && |b| == PAGES && (a[v / PAGE_SIZE] != b[u / PAGE_SIZE] || v % PAGE_SIZE != u % PAGE_SIZE)
    ensures Translate(a, v) != Translate(b, u)
  {}

  function Boot(): World {
    World([], FIRST_PAGE, FIRST_PROG_PAGE, [], [])
  }

  /** A run goes on with one more enabled step. */
  lemma Next(run: seq<World>, labels: seq<Label>, l: Label) returns (run': seq<World>, labels': seq<Label>)
    requires Steps(run, labels) && Enabled(run[|labels|], l)
    ensures Steps(run', labels') && labels' == labels + [l] && run' == run + [Apply(run[|labels|], l)]
  {
    run', labels' := run + [Apply(run[|labels|], l)], labels + [l];
  }

  // ---- Translating a user's addresses ----

  /** Dead with the kernel's table in place. */
  predicate Exited(w: World, i: nat) {
    i < |w.procs| && w.procs[i].status == Dead && w.procs[i].swapped
  }

  lemma ExitStep(w: World, l: Label, i: nat)
    requires Inv(w, Anything) && Enabled(w, l)
    ensures Exited(Apply(w, l), i) <==> Exited(w, i) || l == Exit(i)
  {
    assert i < |w.procs| ==> ProcInv(w, i, w.procs[i], Anything);
  }

  /** A process gets there exactly by SYS_EXIT. */
  lemma {:induction false} ExitedIff(run: seq<World>, labels: seq<Label>, k: nat, i: nat)
    requires Run(run, labels) && k < |run|
    ensures Exited(run[k], i) <==> Exit(i) in labels[..k]
    decreases k
  {
    if k > 0 {
      hide Exited, Apply, Enabled;
      ExitedIff(run, labels, k - 1, i);
      StepsInv(run, labels, k - 1, Anything);
      ExitStep(run[k - 1], labels[k - 1], i);
      assert labels[..k] == labels[..k - 1] + [labels[k - 1]];
    }
  }

  /**
   * Kernel code translates a user's buffer through the user's own table unless the user has called
   * SYS_EXIT; a user killed by a segmentation fault keeps its table.
   */
  lemma AddrPageIsOwnIff(run: seq<World>, labels: seq<Label>, k: nat, i: nat)
    requires TameRun(run, labels) && k < |run| && i < |run[k].procs| && run[k].procs[i].kind == UserProcess
    ensures Shaped(run[k].procs[i])
    ensures (forall slot :: 0 <= slot < PAGES ==>
               AddrPage(run[k].procs[i], slot) == UserTables(run[k].procs[i]).mem[slot])
            <==> Exit(i) !in labels[..k]
  {
    hide Apply, Enabled, Run, Tame;
    TameRunInv(run, labels, k);
    ExitedIff(run, labels, k, i);
    var p := run[k].procs[i];
    assert ProcInv(run[k], i, p, OfProcess);
    if p.status == Dead && p.swapped {
      assert AddrPage(p, STACK_PAGE) != UserTables(p).mem[STACK_PAGE];
    }
  }

  /** The two ways to die: after a fault the process is translated through its own table, */
  lemma KilledByFault() returns (run: seq<World>, labels: seq<Label>)
    ensures HonestRun(run, labels) && labels == [InitUserThread, Start(0), Segfault(0)]
    ensures |run[3].procs| == 1 && run[3].procs[0].status == Dead && Shaped(run[3].procs[0])
    ensures AddrPage(run[3].procs[0], STACK_PAGE) == FIRST_PAGE == UserTables(run[3].procs[0]).mem[STACK_PAGE]
  {
    run, labels := [Boot()], [];
    run, labels := Next(run, labels, InitUserThread);
    run, labels := Next(run, labels, Start(0));
    run, labels := Next(run, labels, Segfault(0));
  }

  /** after SYS_EXIT through the kernel's. */
  lemma KilledByExit() returns (run: seq<World>, labels: seq<Label>)
    ensures HonestRun(run, labels) && labels == [InitUserThread, Start(0), SyscallEntry(0), Exit(0)]
    ensures |run[4].procs| == 1 && run[4].procs[0].status == Dead && Shaped(run[4].procs[0])
    ensures AddrPage(run[4].procs[0], STACK_PAGE) == FIRST_PAGE + 1
    ensures UserTables(run[4].procs[0]).mem[STACK_PAGE] == FIRST_PAGE
  {
    run, labels := [Boot()], [];
    run, labels := Next(run, labels, InitUserThread);
    run, labels := Next(run, labels, Start(0));
    run, labels := Next(run, labels, SyscallEntry(0));
    run, labels := Next(run, labels, Exit(0));
  }

  // ---- Program pages ----

  /** The data page through which program page `p` is written (`phys_page_to_load`). */
  function AliasPage(p: nat, half: nat): nat
    requires half < 2
  {
    2 * p + half + PROG_REGION
  }

  /**
   * Program pages are never shared, each of their halves has its own data page, and those stay clear of
   * every data page as long as the page counter has not passed the first of them.
   */
  lemma ProgramsAreSeparate(run: seq<World>, labels: seq<Label>, k: nat, i: nat, s: nat, a: nat, j: nat, t: nat, b: nat)
    requires HonestRun(run, labels) && k < |run| && i < |run[k].procs| && j < |run[k].procs|
    requires s < PAGES && t < PAGES && a < 2 && b < 2
    requires run[k].procs[i].kind == UserProcess && run[k].procs[j].kind == UserProcess
    ensures Sized(UserTables(run[k].procs[i])) && Sized(UserTables(run[k].procs[j]))
    ensures UserTables(run[k].procs[i]).prog[s] != UNMAPPED ==>
              var window := AliasPage(UserTables(run[k].procs[i]).prog[s], a);
              && ((i, s, a) != (j, t, b) ==> window != AliasPage(UserTables(run[k].procs[j]).prog[t], b))
              && (run[k].nextPage <= 0x1022 ==> window != UserTables(run[k].procs[j]).mem[t])
  {
    hide Apply, Enabled, Run, UserTables, Saved;
    RunInv(run, labels, k);
    var w := run[k];
    assert ProcInv(w, i, w.procs[i], OfSlot) && ProcInv(w, j, w.procs[j], OfSlot);
  }

  /** A data page handed out so far is also the window of a program page handed out so far. */
  ghost predicate WindowsMeet(w: World) {
    exists p: nat, half: nat ::
      half < 2 && FIRST_PROG_PAGE <= p < w.nextProg && FIRST_PAGE <= AliasPage(p, half) < w.nextPage
  }

  /** They meet exactly when data page 0x1022 and a program page have been handed out. */
  lemma WindowsMeetIff(run: seq<World>, labels: seq<Label>, k: nat)
    requires Run(run, labels) && k < |run|
    ensures WindowsMeet(run[k]) <==> run[k].nextPage > 0x1022 && Allocations(run, labels, k) > 0
  {
    hide Run, Allocations;
    ProgCounter(run, labels, k);
    var w := run[k];
    if w.nextPage > FIRST_WINDOW && w.nextProg > FIRST_PROG_PAGE {
      assert AliasPage(FIRST_PROG_PAGE, 0) == FIRST_WINDOW;
    }
  }

  predicate AllocatesProg(w: World, l: Label) {
    l.LoadProg? && Enabled(w, l) && w.procs[l.i].own.prog[l.slot] == UNMAPPED
  }

  /** How many of the first `k` steps took a program page. */
  ghost function Allocations(run: seq<World>, labels: seq<Label>, k: nat): nat
    requires |run| == |labels| + 1 && k <= |labels|
  {
    if k == 0 then 0
    else Allocations(run, labels, k - 1) + if AllocatesProg(run[k - 1], labels[k - 1]) then 1 else 0
  }

  lemma {:induction false} ProgCounter(run: seq<World>, labels: seq<Label>, k: nat)
    requires Run(run, labels) && k < |run|
    ensures run[k].nextProg == FIRST_PROG_PAGE + Allocations(run, labels, k)
    decreases k
  {
    if k > 0 {
      ProgCounter(run, labels, k - 1);
      assert run[k] == Apply(run[k - 1], labels[k - 1]);
    }
  }

  /**
   * Over every run: the page an allocation takes is the 0xff that means "unmapped" exactly at the 239th
   * allocation. The 238 before it, and all after it, leave their slot mapped.
   */
  lemma SentinelIsThe239th(run: seq<World>, labels: seq<Label>, k: nat)
    requires Run(run, labels) && k < |labels| && AllocatesProg(run[k], labels[k])
    ensures labels[k].i < |run[k + 1].procs| && labels[k].slot < |run[k + 1].procs[labels[k].i].own.prog|
    ensures run[k + 1].procs[labels[k].i].own.prog[labels[k].slot] == FIRST_PROG_PAGE + Allocations(run, labels, k)
    ensures run[k + 1].procs[labels[k].i].own.prog[labels[k].slot] == UNMAPPED <==> Allocations(run, labels, k) == 238
  {
    ProgCounter(run, labels, k);
    assert run[k + 1] == Apply(run[k], labels[k]);
  }

  /**
   * What then happens: loading the other half of the same slot takes another page, and the half loaded
   * before it is in no window of the slot any more.
   */
  lemma SentinelPageIsLost(w: World, i: nat, slot: nat)
    requires Enabled(w, LoadProg(i, slot)) && AllocatesProg(w, LoadProg(i, slot)) && w.nextProg == UNMAPPED
    ensures var w1 := Apply(w, LoadProg(i, slot));
            && AllocatesProg(w1, LoadProg(i, slot))
            && var w2 := Apply(w1, LoadProg(i, slot));
            && w2.procs[i].own.prog[slot] == UNMAPPED + 1
            && forall a, b :: 0 <= a < 2 && 0 <= b < 2 ==>
                 AliasPage(w2.procs[i].own.prog[slot], a) != AliasPage(w1.procs[i].own.prog[slot], b)
  {}

  /** A run of `n` processes that each load one program page. */
  lemma {:induction false} LoadMany(n: nat) returns (run: seq<World>, labels: seq<Label>)
    ensures HonestRun(run, labels) && Allocations(run, labels, |labels|) == n && |run[|labels|].procs| == n
  {
    if n == 0 {
      run, labels := [Boot()], [];
    } else {
      var r, ls := LoadMany(n - 1);
      var r1, l1 := Next(r, ls, InitUserThread);
      AllocationsPrefix(r, ls, r1, l1, |ls|);
      run, labels := Next(r1, l1, LoadProg(n - 1, 0));
      AllocationsPrefix(r1, l1, run, labels, |l1|);
      assert r1[|ls|] == r[|ls|] && run[|l1|] == r1[|l1|];
      assert AllocatesProg(run[|l1|], labels[|l1|]);
      assert !AllocatesProg(r1[|ls|], l1[|ls|]);
    }
  }

  lemma {:induction false} AllocationsPrefix(run: seq<World>, labels: seq<Label>, run': seq<World>, labels': seq<Label>,
                                             k: nat)
    requires |run| == |labels| + 1 && |run'| == |labels'| + 1 && k <= |labels|
    requires run <= run' && labels <= labels'
    ensures Allocations(run', labels', k) == Allocations(run, labels, k)
  {
    if k > 0 {
      AllocationsPrefix(run, labels, run', labels', k - 1);
    }
  }

  /** The case is reached: a run after which a slot that has just been loaded counts as unmapped. */
  lemma SentinelIsReached() returns (run: seq<World>, labels: seq<Label>, k: nat)
    ensures HonestRun(run, labels) && k < |labels| && AllocatesProg(run[k], labels[k])
    ensures labels[k].i < |run[k + 1].procs| && labels[k].slot < |run[k + 1].procs[labels[k].i].own.prog|
    ensures run[k + 1].procs[labels[k].i].own.prog[labels[k].slot] == UNMAPPED
  {
    hide Allocations;
    var r, ls := LoadMany(238);
    var r1, l1 := Next(r, ls, InitUserThread);
    run, labels := Next(r1, l1, LoadProg(238, 0));
    k := |l1|;
    AllocationsPrefix(r, ls, run, labels, |ls|);
    ProgCounter(run, labels, |ls|);
    assert run[|ls|] == r[|ls|];
  }

  /** SYS_PGMAP gives out a page that nothing owned. */
  lemma MappedPageIsNew(run: seq<World>, labels: seq<Label>, k: nat, j: nat, s: nat)
    requires HonestRun(run, labels) && k < |labels| && labels[k].PgMap? && run[k + 1] != run[k]
    requires j < |run[k].procs| && run[k].procs[j].kind == UserProcess && s < PAGES
    ensures labels[k].i < |run[k + 1].procs| && labels[k].slot < |UserTables(run[k + 1].procs[labels[k].i]).mem|
    ensures Sized(UserTables(run[k].procs[j]))
    ensures var page := UserTables(run[k + 1].procs[labels[k].i]).mem[labels[k].slot];
            && page == run[k].nextPage && page != UserTables(run[k].procs[j]).mem[s] && page != run[k].procs[j].kstack
            && forall f <- run[k].procs[j].frames :: Sized(f) && page != f.mem[s]
  {
    RunInv(run, labels, k);
    var w := run[k];
    assert run[k + 1] == Apply(w, labels[k]);
    assert ProcInv(w, j, w.procs[j], OfSlot) && ProcInv(w, labels[k].i, w.procs[labels[k].i], OfSlot);
  }
}
