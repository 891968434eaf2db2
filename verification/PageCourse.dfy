/**
 * What the steps of a run alone say about pages: the state each process is in, which page each table entry
 * was given and when, which tables were pushed with signals, and the table the kernel runs under.
 */
module PageCourse {
  import opened Machine
  import opened Sched
  import opened Virtual
  import opened Pages

  // ---- Processes and their states ----

  /** The processes made, in order. */
  function Made(labels: seq<Label>): seq<Kind> {
    if labels == [] then []
    else
      Made(labels[..|labels| - 1]) +
      match labels[|labels| - 1]
      case MakeKernelThread => [KernelThread]
      case InitUserThread => [UserProcess]
      case _ => []
  }

  /** What a step makes of the state of process `i`. */
  function StatusAfter(kind: Kind, status: ProcState, l: Label, i: nat): ProcState {
    match l
    case Start(j) => if j == i then Runnable else status
    case SyscallEntry(j) => if j == i then Syscall else status
    case Block(j) => if j != i then status else if kind == KernelThread then Blocked else SyscallBlocked
    case Unblock(j) => if j != i then status else if kind == KernelThread then Runnable else Syscall
    case SyscallExit(j, _) => if j == i then Runnable else status
    case Exit(j) => if j == i then Dead else status
    case Segfault(j) => if j == i then Dead else status
    case _ => status
  }

  function StatusBy(labels: seq<Label>, i: nat): ProcState
    requires i < |Made(labels)|
  {
    var before := labels[..|labels| - 1];
    if i == |Made(before)| then
      if Made(labels)[i] == KernelThread then Runnable else Unloaded
    else
      StatusAfter(Made(before)[i], StatusBy(before, i), labels[|labels| - 1], i)
  }

  lemma StepOf(run: seq<World>, labels: seq<Label>, k: nat)
    requires Run(run, labels) && k < |labels|
    ensures |run| == |labels| + 1 && Inv(run[k], Anything)
    ensures Enabled(run[k], labels[k]) && run[k + 1] == Apply(run[k], labels[k])
  {
    hide Enabled, Apply;
    StepsInv(run, labels, k, Anything);
  }

  lemma StepStatus(w: World, l: Label, i: nat)
    requires Inv(w, Anything) && Enabled(w, l) && i < |w.procs|
    ensures var w' := Apply(w, l);
            && i < |w'.procs| && w'.procs[i].kind == w.procs[i].kind
            && w'.procs[i].status == StatusAfter(w.procs[i].kind, w.procs[i].status, l, i)
  {
    ShapedAll(w);
    hide Inv, KernelTable, KernelProg, Blank;
    assert Shaped(w.procs[i]);
  }

  lemma StepMakes(w: World, l: Label)
    requires Enabled(w, l)
    ensures var n, w' := |w.procs|, Apply(w, l);
            match l
            case MakeKernelThread =>
              |w'.procs| == n + 1 && w'.procs[n].kind == KernelThread && w'.procs[n].status == Runnable
            case InitUserThread =>
              |w'.procs| == n + 1 && w'.procs[n].kind == UserProcess && w'.procs[n].status == Unloaded
            case _ => |w'.procs| == n
  {
    hide KernelTable, KernelProg, Blank;
  }

  /** Over every run the processes are those made, each in the state its last step put it in. */
  lemma {:induction false} StatusLaw(run: seq<World>, labels: seq<Label>, k: nat)
    requires Run(run, labels) && k < |run|
    ensures |run[k].procs| == |Made(labels[..k])|
    ensures forall i :: 0 <= i < |run[k].procs| ==>
              && run[k].procs[i].kind == Made(labels[..k])[i]
              && run[k].procs[i].status == StatusBy(labels[..k], i)
  {
    if k > 0 {
      hide Inv, Apply, Enabled, StatusAfter;
      StatusLaw(run, labels, k - 1);
      StepOf(run, labels, k - 1);
      assert labels[..k][..k - 1] == labels[..k - 1];
      var w, l := run[k - 1], labels[k - 1];
      StepMakes(w, l);
      forall i | 0 <= i < |run[k].procs|
        ensures run[k].procs[i].kind == Made(labels[..k])[i] && run[k].procs[i].status == StatusBy(labels[..k], i)
      {
        if i < |w.procs| {
          StepStatus(w, l, i);
        }
      }
    }
  }

  lemma ShapedAll(w: World)
    requires Inv(w, Anything)
    ensures forall i :: 0 <= i < |w.procs| ==> Shaped(w.procs[i])
  {}

  /** A process blocks and wakes in place, where `semaphore_down` can run: in a kernel thread or a system call. */
  lemma BlockAndWake(w: World, i: nat)
    requires Inv(w, Anything) && i < |w.procs|
    ensures Enabled(w, Block(i)) <==>
            w.procs[i].status == Syscall || (w.procs[i].kind == KernelThread && w.procs[i].status == Runnable)
    ensures Enabled(w, Block(i)) ==>
              Enabled(Apply(w, Block(i)), Unblock(i)) && Apply(Apply(w, Block(i)), Unblock(i)) == w
  {
    ShapedAll(w);
    hide Inv;
    assert Shaped(w.procs[i]);
    assert w.procs[i := w.procs[i]] == w.procs;
  }

  /** At any time a kernel thread can be made. It is ready to run in the kernel and to go to sleep there. */
  lemma ThreadRuns(w: World, page: nat)
    requires Inv(w, Anything)
    ensures Enabled(w, MakeKernelThread)
    ensures var n, v := |w.procs|, Apply(w, MakeKernelThread);
            && Inv(v, Anything) && Enabled(v, MapPageZero(n, page)) && Enabled(v, Block(n))
            && Inv(Apply(v, MapPageZero(n, page)), Anything)
  {
    hide Inv, Apply, Enabled;
    NewThread(w, page);
    StepInv(w, MakeKernelThread, Anything);
    StepInv(Apply(w, MakeKernelThread), MapPageZero(|w.procs|, page), Anything);
  }

  lemma NewThread(w: World, page: nat)
    ensures Enabled(w, MakeKernelThread)
    ensures var n, v := |w.procs|, Apply(w, MakeKernelThread);
            Enabled(v, MapPageZero(n, page)) && Enabled(v, Block(n))
  {
    hide KernelProg, Blank;
  }

  // ---- The pages of a process ----

  /** How many data pages a step hands out: a stack, two stacks, or a page for an entry that had none. */
  function Takes(w: World, l: Label): nat {
    match l
    case MakeKernelThread => 1
    case InitUserThread => 2
    case LoadData(i, slot) =>
      if i < |w.procs| && slot < |w.procs[i].own.mem| && w.procs[i].own.mem[slot] == 0xff then 1 else 0
    case PgMap(i, slot) =>
      if i < |w.procs| && slot < |w.procs[i].call.mem| && w.procs[i].call.mem[slot] in {0, 0xff} then 1 else 0
    case _ => 0
  }

  ghost function Handed(run: seq<World>, labels: seq<Label>, k: nat): nat
    requires |run| == |labels| + 1 && k <= |labels|
  {
    if k == 0 then 0 else Handed(run, labels, k - 1) + Takes(run[k - 1], labels[k - 1])
  }

  /** Data pages are numbered from 0x211 in the order they are handed out. */
  lemma {:induction false} PageCounter(run: seq<World>, labels: seq<Label>, k: nat)
    requires Run(run, labels) && k < |run|
    ensures run[k].nextPage == 0x211 + Handed(run, labels, k)
  {
    if k > 0 {
      hide Inv, KernelTable, KernelProg, Blank;
      PageCounter(run, labels, k - 1);
      StepOf(run, labels, k - 1);
    }
  }

  /** A kernel thread on the given stack, or a user process with an empty table, its stack and its kernel stack. */
  predicate IsNew(p: Process, l: Label, page: nat) {
    && p.frames == {} && !p.swapped
    && if l.MakeKernelThread? then
      |p.own.mem| == 16 && p.own.mem[15] == page
    else
      && |p.own.mem| == 16 && |p.own.prog| == 16 && p.kstack == page + 1
      && p.own.mem[15] == page && (forall s :: 0 <= s < 15 ==> p.own.mem[s] == 0xff)
      && (forall s :: 0 <= s < 16 ==> p.own.prog[s] == 0xff)
  }

  lemma StepNew(w: World, l: Label)
    requires l in {MakeKernelThread, InitUserThread} && Enabled(w, l)
    ensures |Apply(w, l).procs| == |w.procs| + 1 && IsNew(Apply(w, l).procs[|w.procs|], l, w.nextPage)
  {}

  /** A new process gets the next page for its stack and, if it is a user's, the one after for its kernel stack. */
  lemma NewProcess(run: seq<World>, labels: seq<Label>, k: nat)
    requires Run(run, labels) && k < |labels| && labels[k] in {MakeKernelThread, InitUserThread}
    ensures |run| == |labels| + 1 && |run[k + 1].procs| == |run[k].procs| + 1
    ensures IsNew(run[k + 1].procs[|run[k].procs|], labels[k], 0x211 + Handed(run, labels, k))
  {
    hide Inv, Apply, Enabled, IsNew, Handed;
    StepOf(run, labels, k);
    PageCounter(run, labels, k);
    StepNew(run[k], labels[k]);
  }

  /**
   * What a step makes of a process's tables: an entry without a page gets the next one when it is loaded or
   * mapped, a handler's return replaces them, and nothing else changes them.
   */
  function TablesAfter(t: Tables, l: Label, i: nat, page: nat, prog: nat): Tables {
    match l
    case LoadData(j, slot) =>
      if j == i && slot < |t.mem| && t.mem[slot] == 0xff then t.(mem := t.mem[slot := page]) else t
    case LoadProg(j, slot) =>
      if j == i && slot < |t.prog| && t.prog[slot] == 0xff then t.(prog := t.prog[slot := prog]) else t
    case PgMap(j, slot) =>
      if j == i && slot < |t.mem| && t.mem[slot] in {0, 0xff} then t.(mem := t.mem[slot := page]) else t
    case SignalReturn(j, tables) => if j == i then tables else t
    case _ => t
  }

  lemma StepTables(w: World, l: Label, i: nat)
    requires Inv(w, Anything) && Enabled(w, l) && i < |w.procs| && w.procs[i].kind == UserProcess
    ensures var w' := Apply(w, l);
            && i < |w'.procs| && w'.procs[i].kstack == w.procs[i].kstack
            && UserTables(w'.procs[i]) == TablesAfter(UserTables(w.procs[i]), l, i, w.nextPage, w.nextProg)
  {
    ShapedAll(w);
    hide Inv, KernelTable, KernelProg, Blank;
    assert Shaped(w.procs[i]);
  }

  lemma TablesLaw(run: seq<World>, labels: seq<Label>, k: nat, i: nat)
    requires Run(run, labels) && k < |labels| && i < |run[k].procs| && run[k].procs[i].kind == UserProcess
    ensures |run| == |labels| + 1
    ensures i < |run[k + 1].procs| && run[k + 1].procs[i].kstack == run[k].procs[i].kstack
    ensures UserTables(run[k + 1].procs[i])
            == TablesAfter(UserTables(run[k].procs[i]), labels[k], i,
                           0x211 + Handed(run, labels, k), 0x11 + Allocations(run, labels, k))
  {
    hide Inv, Apply, Enabled, TablesAfter, Handed, Allocations;
    StepOf(run, labels, k);
    PageCounter(run, labels, k);
    ProgCounter(run, labels, k);
    StepTables(run[k], labels[k], i);
  }

  // ---- The tables pushed with signals ----

  /** Process `i` got a signal at step `m`, when its tables were `t`. */
  ghost predicate PushedAt(run: seq<World>, labels: seq<Label>, m: nat, i: nat, t: Tables) {
    && m < |labels| && m < |run| && labels[m] == SyscallExit(i, true)
    && i < |run[m].procs| && t == UserTables(run[m].procs[i])
  }

  lemma StepFrames(w: World, l: Label, i: nat)
    requires Inv(w, Anything) && Enabled(w, l) && i < |w.procs|
    ensures i < |Apply(w, l).procs|
    ensures Apply(w, l).procs[i].frames
            == w.procs[i].frames + if l == SyscallExit(i, true) then {UserTables(w.procs[i])} else {}
  {
    ShapedAll(w);
    hide Inv, KernelTable, KernelProg, Blank;
    assert Shaped(w.procs[i]);
  }

  /** The frames of a process hold the tables it had each time a signal was delivered. */
  lemma {:induction false} FramesLaw(run: seq<World>, labels: seq<Label>, k: nat, i: nat, t: Tables)
    requires Run(run, labels) && k < |run| && i < |run[k].procs|
    ensures t in run[k].procs[i].frames <==> exists m :: 0 <= m < k && PushedAt(run, labels, m, i, t)
    decreases k
  {
    if k > 0 {
      hide Inv, Apply, Enabled;
      StepOf(run, labels, k - 1);
      var w, l := run[k - 1], labels[k - 1];
      StepMakes(w, l);
      if i < |w.procs| {
        FramesLaw(run, labels, k - 1, i, t);
        StepFrames(w, l, i);
        assert PushedAt(run, labels, k - 1, i, t) <==> l == SyscallExit(i, true) && t == UserTables(w.procs[i]);
      } else {
        NoneBefore(run, labels, k, i, t);
        StepNew(w, l);
      }
    }
  }

  lemma NoneBefore(run: seq<World>, labels: seq<Label>, k: nat, i: nat, t: Tables)
    requires Run(run, labels) && 0 < k < |run| && i >= |run[k - 1].procs|
    ensures !exists m :: 0 <= m < k && PushedAt(run, labels, m, i, t)
  {
    hide Inv, Apply;
    forall m | 0 <= m < k
      ensures i >= |run[m].procs|
    {
      ProcsGrow(run, labels, m, k - 1);
    }
  }

  lemma {:induction false} ProcsGrow(run: seq<World>, labels: seq<Label>, m: nat, k: nat)
    requires Run(run, labels) && m <= k < |run|
    ensures |run[m].procs| <= |run[k].procs|
    decreases k
  {
    hide Inv, KernelTable, KernelProg, Blank;
    if m < k {
      ProcsGrow(run, labels, m, k - 1);
      StepOf(run, labels, k - 1);
    }
  }

  // ---- The kernel's table ----

  /** What the kernel last mapped to page zero since it began to run for process `i`. */
  function ZeroPageBy(labels: seq<Label>, i: nat): nat {
    if labels == [] then 0
    else
      var before := labels[..|labels| - 1];
      match labels[|labels| - 1]
      case MapPageZero(j, page) => if j == i then page else ZeroPageBy(before, i)
      case SyscallEntry(j) => if j == i then 0 else ZeroPageBy(before, i)
      case MakeKernelThread => if i == |Made(before)| then 0 else ZeroPageBy(before, i)
      case _ => ZeroPageBy(before, i)
  }

  /** The kernel's own pages, a page zero of its choice, and on top the stack it uses for this process. */
  predicate KernelView(t: Tables, zero: nat, stack: nat) {
    && |t.mem| == 16 && |t.prog| == 16 && t.mem[0] == zero && t.mem[15] == stack
    && (forall s :: 1 <= s < 15 ==> t.mem[s] == 0x200 + s)
    && (forall s :: 0 <= s < 16 ==> t.prog[s] == s)
  }

  /** The table of a kernel thread, and of a user process from its system call until it returns. */
  predicate InKernel(p: Process, zero: nat) {
    && Sized(p.own)
    && (p.kind == KernelThread || p.swapped ==>
          KernelView(p.own, zero, if p.kind == KernelThread then p.own.mem[15] else p.kstack))
  }

  lemma StepKernel(w: World, l: Label, i: nat, zero: nat)
    requires Inv(w, Anything) && Enabled(w, l) && i < |w.procs| && InKernel(w.procs[i], zero)
    ensures i < |Apply(w, l).procs|
    ensures InKernel(Apply(w, l).procs[i],
                     if l.MapPageZero? && l.i == i then l.page else if l == SyscallEntry(i) then 0 else zero)
  {
    ShapedAll(w);
    hide Inv, Blank;
    assert Shaped(w.procs[i]);
  }

  lemma NewKernel(w: World, l: Label)
    requires Enabled(w, l) && |Apply(w, l).procs| > |w.procs|
    ensures InKernel(Apply(w, l).procs[|w.procs|], 0)
  {}

  lemma {:induction false} KernelTableLaw(run: seq<World>, labels: seq<Label>, k: nat, i: nat)
    requires Run(run, labels) && k < |run| && i < |run[k].procs|
    ensures InKernel(run[k].procs[i], ZeroPageBy(labels[..k], i))
    decreases k
  {
    if k > 0 {
      hide Inv, Apply, Enabled, InKernel;
      StepOf(run, labels, k - 1);
      StatusLaw(run, labels, k - 1);
      assert labels[..k][..k - 1] == labels[..k - 1];
      var w, l := run[k - 1], labels[k - 1];
      StepMakes(w, l);
      if i < |w.procs| {
        KernelTableLaw(run, labels, k - 1, i);
        StepKernel(w, l, i, ZeroPageBy(labels[..k - 1], i));
      } else {
        NewKernel(w, l);
      }
    }
  }
}
