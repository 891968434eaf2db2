/**
 * Counting semaphores (kernel/libk/con/semaphore.c) together with the scheduler that wakes their
 * waiters (kernel/proc/sched.c). `semaphore_up` wakes nobody: a waiter resumes because the scheduler
 * polls its semaphore. The model interleaves the micro-steps of `semaphore_down` of any number of
 * processes with timer switches, interrupts, syscall entry and exit, and `semaphore_up` calls.
 */
module SemaphoreProtocol {
  import opened Machine
  import opened Sched

  /** The next instruction of a process that is inside `semaphore_down`. */
  datatype Where =
    | Mask      // int_disable on entry
    | Test      // read the count
    | SetState  // enter a blocked state
    | SetSema   // publish the semaphore waited for
    | Unmask    // int_enable at the head of the wait loop
    | Yield     // give up the CPU
    | Remask    // int_disable after waking
    | Retest    // the loop condition
    | Take      // subtract one
    | Leave     // int_enable on exit

  /** `fromSyscall` remembers the mode the process was in when it called. */
  datatype Point = Outside | In(here: Where, sema: nat, fromSyscall: bool)

  predicate Masked(here: Where) {
    here in {Test, SetState, SetSema, Unmask, Retest, Take, Leave}
  }

  predicate Waiting(pt: Point) {
    pt.In? && pt.here in {Unmask, Yield, Remask, Retest}
  }

  /**
   * `current` is `None` while the idle task runs. A `binary` semaphore is only raised with
   * `semaphore_binary_up`.
   */
  datatype Kernel = Kernel(
    table: Table,
    at: seq<Point>,
    cursor: int,
    current: Option<nat>,
    interruptsOn: bool,
    binary: seq<bool>)

  datatype Label =
    | Call(s: nat)            // the current process calls semaphore_down(s)
    | Micro(ticks: nat)       // it executes its next instruction; `ticks` matters to a yield
    | Raise(s: nat)           // semaphore_up or semaphore_binary_up, from a process or an interrupt
    | Timer(ticks: nat)       // a timer interrupt, or any interrupt of the idle task
    | EnterSyscall
    | LeaveSyscall(deliver: bool)   // with or without entering a signal handler
    | Exit
    | SetAlarm(alarm: nat)
    | Start(i: nat)           // a loaded program becomes runnable

  ghost predicate Shaped(k: Kernel) {
    && WellFormed(k.table) && Cursor(k.cursor, |k.table.procs|)
    && |k.at| == |k.table.procs|
    && |k.binary| == |k.table.counts|
    && (k.current.Some? ==> k.current.value < |k.at|)
    && (forall pt <- k.at :: pt.In? ==> pt.sema < |k.table.counts|)
    && (forall p <- k.table.procs :: p.signalSema < |k.binary| && !k.binary[p.signalSema])
  }

  predicate IsRunning(p: Proc) {
    p.state in {Runnable, Syscall}
  }

  /** Process `i`, its point and the interrupt flag change, nothing else. */
  function Local(k: Kernel, i: nat, p: Proc, pt: Point, interruptsOn: bool): Kernel
    requires i < |k.table.procs| && i < |k.at|
  {
    k.(table := Table(k.table.procs[i := p], k.table.counts), at := k.at[i := pt], interruptsOn := interruptsOn)
  }

  /** The signal semaphore of the current process. */
  ghost function OwnSignals(k: Kernel): (s: nat)
    requires Shaped(k) && k.current.Some?
    ensures s < |k.table.counts|
  {
    assert k.table.procs[k.current.value] in k.table.procs;
    k.table.procs[k.current.value].signalSema
  }

  // ---- Steps ----

  ghost predicate Enabled(k: Kernel, l: Label)
    requires Shaped(k)
  {
    match l
    case Call(s) =>
      && k.current.Some? && k.at[k.current.value] == Outside && IsRunning(k.table.procs[k.current.value])
      && s < |k.table.counts|
      && forall j :: 0 <= j < |k.at| && j != k.current.value ==> k.table.procs[j].signalSema != s
    case Micro(ticks) =>
      && k.current.Some? && k.at[k.current.value].In?
      && (k.at[k.current.value].here == Yield ==> Terminates(k.table, k.cursor, ticks))
    case Raise(s) => k.interruptsOn && s < |k.table.counts|
    case Timer(ticks) => k.interruptsOn && Terminates(k.table, k.cursor, ticks)
    case EnterSyscall =>
      k.current.Some? && k.at[k.current.value] == Outside && k.table.procs[k.current.value].state == Runnable
    case LeaveSyscall(deliver) =>
      && k.current.Some? && k.at[k.current.value] == Outside && k.table.procs[k.current.value].state == Syscall
      && (deliver ==> k.table.counts[OwnSignals(k)] > 0)
    case Exit =>
      k.current.Some? && k.at[k.current.value] == Outside && IsRunning(k.table.procs[k.current.value])
    case SetAlarm(_) => k.current.Some? && k.at[k.current.value] == Outside
    case Start(i) => i < |k.at| && k.table.procs[i].state == Unloaded
  }

  /** `sched_pick_next` and the switch to its choice, which turns interrupts on. */
  ghost function Switch(k: Kernel, ticks: nat): Kernel
    requires Shaped(k)
  {
    PickEffect(k.table, k.cursor, ticks);
    var c := Pick(k.table, k.cursor, ticks);
    k.(table := c.table, cursor := c.cursor, current := c.current, interruptsOn := true)
  }

  ghost function Apply(k: Kernel, l: Label): Kernel
    requires Shaped(k) && Enabled(k, l)
  {
    match l
    case Call(s) =>
      var p := k.table.procs[k.current.value];
      Local(k, k.current.value, p, In(Mask, s, p.state == Syscall), k.interruptsOn)
    case Micro(ticks) => Instruction(k, ticks)
    case Raise(s) => Raised(k, s)
    case Timer(ticks) => Switch(k, ticks)
    case EnterSyscall =>
      Local(k, k.current.value, k.table.procs[k.current.value].(state := Syscall), Outside, k.interruptsOn)
    case LeaveSyscall(deliver) =>
      var n := Local(k, k.current.value, k.table.procs[k.current.value].(state := Runnable), Outside, k.interruptsOn);
      if deliver then Delivered(n, OwnSignals(k)) else n
    case Exit =>
      Local(k, k.current.value, k.table.procs[k.current.value].(state := Dead), Outside, k.interruptsOn)
    case SetAlarm(alarm) =>
      Local(k, k.current.value, k.table.procs[k.current.value].(alarmTicks := alarm), Outside, k.interruptsOn)
    case Start(i) =>
      Local(k, i, k.table.procs[i].(state := Runnable), k.at[i], k.interruptsOn)
  }

  /** The end of `int_sys_call` takes one from the signal semaphore without `semaphore_down`. */
  function Delivered(k: Kernel, s: nat): Kernel
    requires s < |k.table.counts|
  {
    k.(table := k.table.(counts := k.table.counts[s := k.table.counts[s] - 1]))
  }

  /** `semaphore_up`, or the compare-and-swap of `semaphore_binary_up`. */
  ghost function Raised(k: Kernel, s: nat): Kernel
    requires Shaped(k) && s < |k.table.counts|
  {
    if k.binary[s] && k.table.counts[s] != 0 then
      k
    else
      k.(table := k.table.(counts := k.table.counts[s := k.table.counts[s] + 1]))
  }

  /** One instruction of `semaphore_down`. */
  ghost function Instruction(k: Kernel, ticks: nat): Kernel
    requires Shaped(k) && k.current.Some? && k.at[k.current.value].In?
  {
    var c := k.current.value;
    var pt := k.at[c];
    var count := k.table.counts[pt.sema];
    match pt.here
    case Yield =>
      PointKeepsShape(k, c, pt.(here := Remask), k.table.counts);
      Switch(k.(at := k.at[c := pt.(here := Remask)]), ticks)
    case Take =>
      k.(table := Table(k.table.procs, k.table.counts[pt.sema := count - 1]),
         at := k.at[c := pt.(here := Leave)])
    case _ =>
      Local(k, c, ProcAfter(k.table.procs[c], pt), PointAfter(pt, count), InterruptsAfter(pt.here, k.interruptsOn))
  }

  /** The instructions that touch only the process itself: what they do to its record, */
  function ProcAfter(p: Proc, pt: Point): Proc
    requires pt.In?
  {
    match pt.here
    case SetState => p.(state := if p.state == Syscall then SyscallBlocked else Blocked)
    case SetSema => p.(semaBlocked := Some(pt.sema))
    case _ => p
  }

  /** where they lead when the semaphore's count is `count`, */
  function PointAfter(pt: Point, count: int): Point
    requires pt.In? && pt.here !in {Yield, Take}
  {
    match pt.here
    case Mask => pt.(here := Test)
    case Test => pt.(here := if count == 0 then SetState else Take)
    case SetState => pt.(here := SetSema)
    case SetSema => pt.(here := Unmask)
    case Unmask => pt.(here := Yield)
    case Remask => pt.(here := Retest)
    case Retest => pt.(here := if count == 0 then Unmask else Take)
    case Leave => Outside
  }

  /** and what they do to the interrupt flag. */
  function InterruptsAfter(here: Where, interruptsOn: bool): bool {
    match here
    case Mask => false
    case Remask => false
    case Unmask => true
    case Leave => true
    case _ => interruptsOn
  }

  /** Counts and points may change without disturbing the shape. */
  lemma PointKeepsShape(k: Kernel, c: nat, pt: Point, counts: seq<int>)
    requires Shaped(k) && c < |k.at| && |counts| == |k.table.counts|
    requires pt.In? ==> pt.sema < |k.table.counts|
    ensures Shaped(k.(table := Table(k.table.procs, counts), at := k.at[c := pt]))
  {
    var n := k.(table := Table(k.table.procs, counts), at := k.at[c := pt]);
    assert WellFormed(n.table);
    forall q | q in n.at && q.In?
      ensures q.sema < |n.table.counts|
    {
      var j :| 0 <= j < |n.at| && n.at[j] == q;
      assert j == c || k.at[j] in k.at;
    }
  }

  // ---- Invariant ----

  /** The running and the blocked state of a mode. */
  function RunningIn(fromSyscall: bool): ProcState {
    if fromSyscall then Syscall else Runnable
  }

  function BlockedIn(fromSyscall: bool): ProcState {
    if fromSyscall then SyscallBlocked else Blocked
  }

  /** How a process's scheduler state must agree with where it is in `semaphore_down`. */
  predicate Coherent(p: Proc, pt: Point, isCurrent: bool) {
    if pt == Outside then
      p.state !in {Blocked, SyscallBlocked} && p.semaBlocked == None
    else
      var runs := p.state == RunningIn(pt.fromSyscall) && p.semaBlocked == None;
      match pt.here
      case SetSema => p.state == BlockedIn(pt.fromSyscall) && p.semaBlocked == None
      case Unmask => runs || (p.state == BlockedIn(pt.fromSyscall) && p.semaBlocked == Some(pt.sema))
      case Yield => runs || (p.state == BlockedIn(pt.fromSyscall) && p.semaBlocked == Some(pt.sema))
      case Remask =>
        runs || (!isCurrent && p.state == BlockedIn(pt.fromSyscall) && p.semaBlocked == Some(pt.sema))
      case _ => runs
  }

  /** Only the owner of a signal semaphore waits for it. */
  predicate OwnSema(procs: seq<Proc>, i: nat, pt: Point)
    requires i < |procs|
  {
    pt.In? ==> forall j :: 0 <= j < |procs| && j != i ==> procs[j].signalSema != pt.sema
  }

  ghost predicate ProcInv(k: Kernel, i: nat)
    requires Shaped(k) && i < |k.at|
  {
    && Coherent(k.table.procs[i], k.at[i], k.current == Some(i))
    && OwnSema(k.table.procs, i, k.at[i])
    && (k.at[i].In? && Masked(k.at[i].here) ==> k.current == Some(i) && !k.interruptsOn)
    && (k.at[i].In? && k.at[i].here == Take ==> k.table.counts[k.at[i].sema] > 0)
  }

  ghost predicate CountInv(k: Kernel, s: nat)
    requires Shaped(k) && s < |k.table.counts|
  {
    && k.table.counts[s] >= 0
    && (k.binary[s] ==> k.table.counts[s] <= 1)
  }

  ghost predicate Inv(k: Kernel) {
    && Shaped(k)
    && (!k.interruptsOn ==>
          k.current.Some? && k.at[k.current.value].In? && Masked(k.at[k.current.value].here))
    && (forall i :: 0 <= i < |k.at| ==> ProcInv(k, i))
    && (forall s :: 0 <= s < |k.table.counts| ==> CountInv(k, s))
  }

  /** Boot: nobody is inside an operation and interrupts are on. */
  ghost predicate Init(k: Kernel) {
    && Shaped(k) && k.interruptsOn && k.current == None
    && (forall i :: 0 <= i < |k.at| ==>
          k.at[i] == Outside && k.table.procs[i].state in {Runnable, Unloaded} && k.table.procs[i].semaBlocked == None)
    && (forall s :: 0 <= s < |k.binary| ==> k.table.counts[s] >= 0 && (k.binary[s] ==> k.table.counts[s] <= 1))
  }

  lemma InitInv(k: Kernel)
    requires Init(k)
    ensures Inv(k)
  {}

  // ---- What a scheduler pass does to the parts the protocol relies on ----

  ghost predicate AlarmsOnly(t: Table, r: Table)
    requires WellFormed(t)
  {
    && |r.procs| == |t.procs| && |r.counts| == |t.counts|
    && (forall i :: 0 <= i < |t.procs| ==> r.procs[i].(alarmTicks := t.procs[i].alarmTicks) == t.procs[i])
    && (forall s :: 0 <= s < |t.counts| ==> r.counts[s] >= t.counts[s])
    && (forall s :: 0 <= s < |t.counts| && (forall p <- t.procs :: p.signalSema != s) ==> r.counts[s] == t.counts[s])
  }

  lemma FireIsAlarmsOnly(t: Table, i: nat, ticks: nat)
    requires WellFormed(t) && i < |t.procs|
    ensures AlarmsOnly(t, FireAlarm(t, i, ticks))
  {}

  lemma AlarmsOnlyTransitive(t: Table, u: Table, v: Table)
    requires WellFormed(t) && WellFormed(u) && AlarmsOnly(t, u) && AlarmsOnly(u, v)
    ensures AlarmsOnly(t, v)
  {
    hide WellFormed;
    forall s | 0 <= s < |t.counts| && (forall p <- t.procs :: p.signalSema != s)
      ensures v.counts[s] == t.counts[s]
    {
      forall p | p in u.procs
        ensures p.signalSema != s
      {
        var j :| 0 <= j < |u.procs| && u.procs[j] == p;
        assert t.procs[j] in t.procs;
      }
    }
  }

  lemma {:induction false} PassedIsAlarmsOnly(t: Table, cursor: int, k: nat, ticks: nat)
    requires WellFormed(t) && Cursor(cursor, |t.procs|)
    ensures AlarmsOnly(t, Passed(t, cursor, k, ticks))
  {
    hide FireAlarm, WellFormed, Position;
    if k > 0 {
      hide Passed, AlarmsOnly;
      PassedIsAlarmsOnly(t, cursor, k - 1, ticks);
      PassedStep(t, cursor, k, ticks);
      var before := Passed(t, cursor, k - 1, ticks);
      FireIsAlarmsOnly(before, Position(cursor, k, |t.procs|), ticks);
      AlarmsOnlyTransitive(t, before, Passed(t, cursor, k, ticks));
    }
  }

  /** The table a choice leaves: alarms apart, only the chosen process changes, by unblocking. */
  lemma PickFacts(t: Table, cursor: int, ticks: nat) returns (passed: Table)
    requires WellFormed(t) && Cursor(cursor, |t.procs|)
    ensures WellFormed(passed) && AlarmsOnly(t, passed)
    ensures var c := Pick(t, cursor, ticks);
            && Cursor(c.cursor, |t.procs|)
            && c.table.counts == passed.counts
            && (c.current == None ==> c.table.procs == passed.procs)
            && (c.current.Some? ==>
                  var i := c.current.value;
                  && i < |t.procs| && Eligible(t, i, ticks)
                  && c.table.procs == passed.procs[i := Unblock(passed.procs[i])])
  {
    hide Eligible, WellFormed, Position, Passed, AlarmsOnly;
    SearchFindsFirst(t, cursor, 1, ticks);
    match Search(t, cursor, 1, ticks)
    case Some(k) =>
      passed := Passed(t, cursor, k, ticks);
      PassedIsAlarmsOnly(t, cursor, k, ticks);
    case None =>
      passed := Passed(t, cursor, |t.procs|, ticks);
      PassedIsAlarmsOnly(t, cursor, |t.procs|, ticks);
  }

  // ---- Every step keeps the invariant ----

  /** What holds of every process at the moment the scheduler is called. */
  ghost predicate Switchable(k: Kernel) {
    && Shaped(k)
    && (forall i :: 0 <= i < |k.at| ==>
          && Coherent(k.table.procs[i], k.at[i], false)
          && OwnSema(k.table.procs, i, k.at[i])
          && !(k.at[i].In? && Masked(k.at[i].here)))
    && (forall s :: 0 <= s < |k.table.counts| ==> CountInv(k, s))
  }

  lemma SwitchedShape(k: Kernel, ticks: nat, passed: Table)
    requires Shaped(k) && WellFormed(passed) && AlarmsOnly(k.table, passed)
    requires var c := Pick(k.table, k.cursor, ticks);
             && Cursor(c.cursor, |k.table.procs|)
             && c.table.counts == passed.counts
             && (c.current == None ==> c.table.procs == passed.procs)
             && (c.current.Some? ==>
                   && c.current.value < |k.table.procs|
                   && c.table.procs == passed.procs[c.current.value := Unblock(passed.procs[c.current.value])])
    ensures Shaped(Switch(k, ticks))
  {
    hide Pick, Cursor, WellFormed, Unblock;
    var c := Pick(k.table, k.cursor, ticks);
    var n := Switch(k, ticks);
    if c.current.Some? {
      UnblockKeepsWellFormed(passed, c.current.value);
    }
    assert n.table == Table(c.table.procs, passed.counts);
    forall p | p in n.table.procs
      ensures p.signalSema < |n.binary| && !n.binary[p.signalSema]
    {
      var j :| 0 <= j < |n.table.procs| && n.table.procs[j] == p;
      assert k.table.procs[j] in k.table.procs;
    }
  }

  lemma UnblockKeepsWellFormed(t: Table, i: nat)
    requires WellFormed(t) && i < |t.procs|
    ensures WellFormed(Table(t.procs[i := Unblock(t.procs[i])], t.counts))
    ensures Unblock(t.procs[i]).signalSema == t.procs[i].signalSema
  {
    var r := t.procs[i := Unblock(t.procs[i])];
    forall p | p in r
      ensures p.signalSema < |t.counts|
      ensures p.semaBlocked.Some? ==> p.semaBlocked.value < |t.counts|
    {
      var j :| 0 <= j < |r| && r[j] == p;
      assert t.procs[j] in t.procs;
    }
  }

  lemma SwitchInv(k: Kernel, ticks: nat)
    requires Switchable(k)
    ensures Inv(Switch(k, ticks))
  {
    hide Pick, Cursor, WellFormed, OwnSema;
    var c := Pick(k.table, k.cursor, ticks);
    var passed := PickFacts(k.table, k.cursor, ticks);
    SwitchedShape(k, ticks, passed);
    var n := Switch(k, ticks);
    forall i | 0 <= i < |n.at|
      ensures ProcInv(n, i)
    {
      SwitchedProc(k, ticks, passed, i);
    }
    forall s | 0 <= s < |n.table.counts|
      ensures CountInv(n, s)
    {
      assert CountInv(k, s);
      if k.binary[s] {
        forall p | p in k.table.procs
          ensures p.signalSema != s
        {
        }
      }
    }
  }

  lemma SwitchedProc(k: Kernel, ticks: nat, passed: Table, i: nat)
    requires Switchable(k) && WellFormed(passed) && AlarmsOnly(k.table, passed) && i < |k.at|
    requires var c := Pick(k.table, k.cursor, ticks);
             && (c.current == None ==> c.table.procs == passed.procs)
             && (c.current.Some? ==>
                   && c.current.value < |k.table.procs|
                   && Eligible(k.table, c.current.value, ticks)
                   && c.table.procs == passed.procs[c.current.value := Unblock(passed.procs[c.current.value])])
    requires Shaped(Switch(k, ticks))
    ensures ProcInv(Switch(k, ticks), i)
  {
    hide Pick, Cursor, WellFormed, Eligible, OwnSema, Coherent, Unblock;
    var n := Switch(k, ticks);
    assert OwnSema(k.table.procs, i, k.at[i]);
    forall j | 0 <= j < |k.at|
      ensures n.table.procs[j].signalSema == k.table.procs[j].signalSema
    {
      UnblockKeepsSignalSema(passed.procs[j]);
      assert passed.procs[j].signalSema == k.table.procs[j].signalSema;
    }
    OwnSemaCarries(k.table.procs, n.table.procs, i, n.at[i]);
    CoherentAfterPass(k.table.procs[i], passed.procs[i], k.at[i]);
    if n.current == Some(i) {
      EligibleStates(k.table, i, ticks);
    }
  }

  lemma UnblockKeepsSignalSema(p: Proc)
    ensures Unblock(p).signalSema == p.signalSema
  {}

  /** A passed process stays coherent, and a chosen one is coherent as the current process. */
  lemma CoherentAfterPass(p: Proc, q: Proc, pt: Point)
    requires Coherent(p, pt, false) && q.(alarmTicks := p.alarmTicks) == p
    requires !(pt.In? && Masked(pt.here))
    ensures Coherent(q, pt, false)
    ensures p.state in {Runnable, Syscall, Blocked, SyscallBlocked} ==> Coherent(Unblock(q), pt, true)
  {}

  lemma OwnSemaCarries(procs: seq<Proc>, procs': seq<Proc>, i: nat, pt: Point)
    requires i < |procs| == |procs'| && OwnSema(procs, i, pt)
    requires forall j :: 0 <= j < |procs| ==> procs'[j].signalSema == procs[j].signalSema
    ensures OwnSema(procs', i, pt)
  {}

  lemma EligibleStates(t: Table, i: nat, ticks: nat)
    requires WellFormed(t) && i < |t.procs| && Eligible(t, i, ticks)
    ensures t.procs[i].state in {Runnable, Syscall, Blocked, SyscallBlocked}
  {
    FireKeepsWellFormed(t, i, ticks);
  }

  /** One process changes; what holds of the others carries over. */
  lemma LocalInv(k: Kernel, c: nat, p: Proc, pt: Point, on: bool)
    requires Inv(k) && c < |k.at| && p.signalSema == k.table.procs[c].signalSema
    requires Shaped(Local(k, c, p, pt, on))
    requires k.current == Some(c) || on == k.interruptsOn
    requires !on && k.current == Some(c) ==> pt.In? && Masked(pt.here)
    requires ProcInv(Local(k, c, p, pt, on), c)
    ensures Inv(Local(k, c, p, pt, on))
  {
    hide WellFormed, Cursor;
    var n := Local(k, c, p, pt, on);
    forall i | 0 <= i < |n.at|
      ensures ProcInv(n, i)
    {
      assert ProcInv(k, i);
    }
    forall s | 0 <= s < |n.table.counts|
      ensures CountInv(n, s)
    {
      assert CountInv(k, s);
    }
  }

  lemma ChangeKeepsWellFormed(t: Table, c: nat, p: Proc)
    requires WellFormed(t) && c < |t.procs| && p.signalSema == t.procs[c].signalSema
    requires p.semaBlocked == None || p.semaBlocked == t.procs[c].semaBlocked
             || (p.semaBlocked.value < |t.counts|
                 && forall j :: 0 <= j < |t.procs| && j != c ==> t.procs[j].signalSema != p.semaBlocked.value)
    ensures WellFormed(Table(t.procs[c := p], t.counts))
  {
    var r := t.procs[c := p];
    assert t.procs[c] in t.procs;
    forall q | q in r
      ensures q.signalSema < |t.counts|
      ensures q.semaBlocked.Some? ==> q.semaBlocked.value < |t.counts|
    {
      var j :| 0 <= j < |r| && r[j] == q;
      assert t.procs[j] in t.procs;
    }
  }

  lemma ChangeKeepsShape(k: Kernel, c: nat, p: Proc, pt: Point, on: bool)
    requires Shaped(k) && c < |k.at| && p.signalSema == k.table.procs[c].signalSema
    requires p.semaBlocked == None || p.semaBlocked == k.table.procs[c].semaBlocked
             || (p.semaBlocked.value < |k.table.counts|
                 && forall j :: 0 <= j < |k.at| && j != c ==> k.table.procs[j].signalSema != p.semaBlocked.value)
    requires pt.In? ==> pt.sema < |k.table.counts|
    ensures Shaped(Local(k, c, p, pt, on))
  {
    hide WellFormed, Cursor;
    ChangeKeepsWellFormed(k.table, c, p);
    var n := Local(k, c, p, pt, on);
    assert k.table.procs[c] in k.table.procs;
    forall q | q in n.table.procs
      ensures q.signalSema < |n.binary| && !n.binary[q.signalSema]
    {
      var j :| 0 <= j < |n.table.procs| && n.table.procs[j] == q;
      assert k.table.procs[j] in k.table.procs;
    }
    forall q | q in n.at && q.In?
      ensures q.sema < |n.table.counts|
    {
      var j :| 0 <= j < |n.at| && n.at[j] == q;
      assert k.at[j] in k.at || j == c;
    }
  }

  /** The instructions that touch only the calling process. */
  lemma PlainInstructionInv(k: Kernel, ticks: nat)
    requires Inv(k) && k.current.Some? && k.at[k.current.value].In?
    requires k.at[k.current.value].here !in {Yield, Take}
    ensures Inv(Instruction(k, ticks))
  {
    hide WellFormed, Cursor, Switch, Pick;
    var c := k.current.value;
    var pt := k.at[c];
    assert ProcInv(k, c) && pt in k.at && CountInv(k, pt.sema);
    var p' := ProcAfter(k.table.procs[c], pt);
    var pt' := PointAfter(pt, k.table.counts[pt.sema]);
    var on := InterruptsAfter(pt.here, k.interruptsOn);
    ChangeKeepsShape(k, c, p', pt', on);
    assert OwnSema(Local(k, c, p', pt', on).table.procs, c, pt');
    LocalInv(k, c, p', pt', on);
  }

  lemma TakeInv(k: Kernel, ticks: nat)
    requires Inv(k) && k.current.Some? && k.at[k.current.value].In?
    requires k.at[k.current.value].here == Take
    ensures Inv(Instruction(k, ticks))
  {
    hide WellFormed, Cursor;
    var c := k.current.value;
    var n := Instruction(k, ticks);
    assert ProcInv(k, c);
    PointKeepsShape(k, c, n.at[c], n.table.counts);
    forall i | 0 <= i < |n.at|
      ensures ProcInv(n, i)
    {
      assert ProcInv(k, i);
    }
    forall r | 0 <= r < |n.table.counts|
      ensures CountInv(n, r)
    {
      assert CountInv(k, r);
    }
  }

  lemma YieldInv(k: Kernel, ticks: nat)
    requires Inv(k) && k.current.Some? && k.at[k.current.value].In?
    requires k.at[k.current.value].here == Yield
    ensures Inv(Instruction(k, ticks))
  {
    hide WellFormed, Cursor, Switch;
    var c := k.current.value;
    var y := k.(at := k.at[c := k.at[c].(here := Remask)]);
    assert k.at[c] in k.at;
    PointKeepsShape(k, c, y.at[c], k.table.counts);
    assert ProcInv(k, c);
    forall i | 0 <= i < |y.at|
      ensures Coherent(y.table.procs[i], y.at[i], false)
      ensures OwnSema(y.table.procs, i, y.at[i])
      ensures !(y.at[i].In? && Masked(y.at[i].here))
    {
      assert ProcInv(k, i);
    }
    forall s | 0 <= s < |y.table.counts|
      ensures CountInv(y, s)
    {
      assert CountInv(k, s);
    }
    SwitchInv(y, ticks);
  }

  lemma TimerInv(k: Kernel, ticks: nat)
    requires Inv(k) && k.interruptsOn
    ensures Inv(Switch(k, ticks))
  {
    hide WellFormed, Cursor, Switch;
    forall i | 0 <= i < |k.at|
      ensures Coherent(k.table.procs[i], k.at[i], false)
      ensures OwnSema(k.table.procs, i, k.at[i])
      ensures !(k.at[i].In? && Masked(k.at[i].here))
    {
      assert ProcInv(k, i);
    }
    SwitchInv(k, ticks);
  }

  lemma RaiseInv(k: Kernel, s: nat)
    requires Inv(k) && k.interruptsOn && s < |k.table.counts|
    ensures Inv(Raised(k, s))
  {
    hide WellFormed;
    var n := Raised(k, s);
    assert k.at[0] in k.at && k.at[0 := k.at[0]] == k.at;
    PointKeepsShape(k, 0, k.at[0], n.table.counts);
    forall i | 0 <= i < |n.at|
      ensures ProcInv(n, i)
    {
      assert ProcInv(k, i);
    }
    forall r | 0 <= r < |n.table.counts|
      ensures CountInv(n, r)
    {
      assert CountInv(k, r);
    }
  }

  /** Steps of the current process outside `semaphore_down`, or into it. */
  lemma OutsideInv(k: Kernel, l: Label)
    requires Inv(k) && Enabled(k, l)
    requires l.Call? || l.EnterSyscall? || l == LeaveSyscall(false) || l.Exit? || l.SetAlarm?
    ensures Inv(Apply(k, l))
  {
    hide WellFormed, Cursor, Pick, Instruction, Raised;
    var c := k.current.value;
    var n := Apply(k, l);
    assert ProcInv(k, c);
    ChangeKeepsShape(k, c, n.table.procs[c], n.at[c], k.interruptsOn);
    assert n == Local(k, c, n.table.procs[c], n.at[c], k.interruptsOn);
    assert OwnSema(n.table.procs, c, n.at[c]);
    LocalInv(k, c, n.table.procs[c], n.at[c], k.interruptsOn);
  }

  /** Delivery takes from a positive count for which nobody else waits. */
  lemma DeliverInv(k: Kernel)
    requires Inv(k) && Enabled(k, LeaveSyscall(true))
    ensures Inv(Apply(k, LeaveSyscall(true)))
  {
    hide WellFormed, Cursor, Pick, Instruction, Raised;
    OutsideInv(k, LeaveSyscall(false));
    var c, s := k.current.value, OwnSignals(k);
    var m := Apply(k, LeaveSyscall(false));
    var n := Apply(k, LeaveSyscall(true));
    assert m.at[c := m.at[c]] == m.at;
    PointKeepsShape(m, c, m.at[c], n.table.counts);
    forall i | 0 <= i < |n.at|
      ensures ProcInv(n, i)
    {
      assert ProcInv(m, i);
    }
    forall r | 0 <= r < |n.table.counts|
      ensures CountInv(n, r)
    {
      assert CountInv(m, r);
    }
  }

  lemma StartInv(k: Kernel, i: nat)
    requires Inv(k) && Enabled(k, Start(i))
    ensures Inv(Apply(k, Start(i)))
  {
    hide WellFormed, Cursor, Pick, Instruction, Raised;
    var n := Apply(k, Start(i));
    assert ProcInv(k, i);
    ChangeKeepsShape(k, i, n.table.procs[i], n.at[i], k.interruptsOn);
    assert OwnSema(n.table.procs, i, n.at[i]);
    LocalInv(k, i, n.table.procs[i], n.at[i], k.interruptsOn);
  }

  lemma StepInv(k: Kernel, l: Label)
    requires Inv(k) && Enabled(k, l)
    ensures Inv(Apply(k, l))
  {
    hide WellFormed, Cursor, Pick, Instruction, Raised, Switch;
    match l
    case Micro(ticks) =>
      var here := k.at[k.current.value].here;
      if here == Yield {
        YieldInv(k, ticks);
      } else if here == Take {
        TakeInv(k, ticks);
      } else {
        PlainInstructionInv(k, ticks);
      }
    case Raise(s) => RaiseInv(k, s);
    case Timer(ticks) => TimerInv(k, ticks);
    case Start(i) => StartInv(k, i);
    case LeaveSyscall(deliver) =>
      if deliver {
        DeliverInv(k);
      } else {
        OutsideInv(k, l);
      }
    case _ => OutsideInv(k, l);
  }
}
