/** A run after which `sched_pick_next` (kernel/proc/sched.c) does not return. */
module SchedulerHang {
  import opened Machine
  import opened Sched
  import opened SemaphoreProtocol
  import opened SemaphoreRuns

  /** A kernel thread, such as a driver waiting for a request on semaphore 2, and one user process. */
  function Pair(thread: Proc, pt: Point, user: ProcState, cursor: int, current: Option<nat>, on: bool): Kernel {
    Kernel(Table([thread, Proc(user, None, 0, 1)], [0, 0, 0]), [pt, Outside], cursor, current, on,
           [false, false, false])
  }

  predicate DriverThread(thread: Proc, pt: Point) {
    && thread.signalSema == 0 && thread.alarmTicks == 0
    && (thread.semaBlocked == None || thread.semaBlocked == Some(2)) && (pt.In? ==> pt.sema == 2)
  }

  lemma PairIsShaped(thread: Proc, pt: Point, user: ProcState, cursor: int, current: Option<nat>, on: bool)
    requires DriverThread(thread, pt) && -1 <= cursor < 2 && (current.Some? ==> current.value < 2)
    ensures Shaped(Pair(thread, pt, user, cursor, current, on))
  {
    var k := Pair(thread, pt, user, cursor, current, on);
    assert forall i :: 0 <= i < 2 ==>
      k.table.procs[i].semaBlocked != Some(0) && k.table.procs[i].semaBlocked != Some(1);
  }

  /** The process after the cursor is runnable and is chosen. */
  lemma PairSwitch(thread: Proc, pt: Point, cursor: int, current: Option<nat>, on: bool)
    requires DriverThread(thread, pt) && -1 <= cursor < 1 && (current.Some? ==> current.value < 2)
    requires cursor == -1 ==> thread.state == Runnable
    ensures Shaped(Pair(thread, pt, Runnable, cursor, current, on))
    ensures Terminates(Pair(thread, pt, Runnable, cursor, current, on).table, cursor, 0)
    ensures Switch(Pair(thread, pt, Runnable, cursor, current, on), 0)
            == Pair(thread, pt, Runnable, cursor + 1, Some(cursor + 1), true)
  {
    hide Shaped;
    PairIsShaped(thread, pt, Runnable, cursor, current, on);
    var k := Pair(thread, pt, Runnable, cursor, current, on);
    ShapedTable(k);
    var t, c := k.table, cursor + 1;
    PositionIsCyclic(cursor, 1, 2);
    NothingFires(t, cursor);
    assert Runs(t, c) && Eligible(t, c, 0);
    assert Search(t, cursor, 1, 0) == Some(1);
    assert t.procs[c := Unblock(t.procs[c])] == t.procs;
  }

  lemma ShapedTable(k: Kernel)
    requires Shaped(k)
    ensures WellFormed(k.table) && Cursor(k.cursor, |k.table.procs|)
  {}

  lemma NothingFires(t: Table, cursor: int)
    requires WellFormed(t) && Cursor(cursor, |t.procs|) && forall p <- t.procs :: p.alarmTicks == 0
    ensures forall i :: 0 <= i < |t.procs| ==> FireAlarm(t, i, 0) == t
    ensures Passed(t, cursor, 1, 0) == t
  {
    hide WellFormed, Position;
    PassedStep(t, cursor, 1, 0);
    assert Passed(t, cursor, 0, 0) == t;
  }

  /** An instruction of the thread's `semaphore_down`, as long as it finds the count at zero. */
  lemma PairInstruction(thread: Proc, pt: Point, on: bool)
    requires DriverThread(thread, pt) && pt.In? && pt.here !in {Yield, Take}
    ensures var k := Pair(thread, pt, Runnable, 0, Some(0), on);
            && Shaped(k) && Enabled(k, Micro(0))
            && Apply(k, Micro(0))
               == Pair(ProcAfter(thread, pt), PointAfter(pt, 0), Runnable, 0, Some(0), InterruptsAfter(pt.here, on))
  {
    hide Shaped, Switch, Terminates;
    PairIsShaped(thread, pt, Runnable, 0, Some(0), on);
  }

  /** The driver thread from start to sleep: its state, its point and the interrupt flag. */
  function Asleep(step: nat): (Proc, Point, bool) {
    var awake := Proc(Runnable, None, 0, 0);
    match step
    case 0 => (awake, In(Mask, 2, false), true)
    case 1 => (awake, In(Test, 2, false), false)
    case 2 => (awake, In(SetState, 2, false), false)
    case 3 => (awake.(state := Blocked), In(SetSema, 2, false), false)
    case 4 => (awake.(state := Blocked, semaBlocked := Some(2)), In(Unmask, 2, false), false)
    case _ => (awake.(state := Blocked, semaBlocked := Some(2)), In(Yield, 2, false), true)
  }

  function AsleepAt(step: nat): Kernel {
    Pair(Asleep(step).0, Asleep(step).1, Runnable, 0, Some(0), Asleep(step).2)
  }

  lemma FallsAsleep(step: nat)
    requires step < 5
    ensures Shaped(AsleepAt(step)) && Enabled(AsleepAt(step), Micro(0))
    ensures Apply(AsleepAt(step), Micro(0)) == AsleepAt(step + 1)
  {
    hide Shaped, Enabled, Apply;
    PairInstruction(Asleep(step).0, Asleep(step).1, Asleep(step).2);
  }

  /** The user's part: it runs, enters SYS_EXIT and is dead. */
  function UserAt(user: ProcState): Kernel {
    Pair(Asleep(5).0, In(Remask, 2, false), user, 1, Some(1), true)
  }

  lemma UserExits()
    ensures Shaped(UserAt(Runnable)) && Enabled(UserAt(Runnable), EnterSyscall)
    ensures Apply(UserAt(Runnable), EnterSyscall) == UserAt(Syscall)
    ensures Shaped(UserAt(Syscall)) && Enabled(UserAt(Syscall), Exit)
    ensures Apply(UserAt(Syscall), Exit) == UserAt(Dead)
  {
    hide Shaped, Switch, Instruction, Raised, Terminates;
    PairIsShaped(Asleep(5).0, In(Remask, 2, false), Runnable, 1, Some(1), true);
    PairIsShaped(Asleep(5).0, In(Remask, 2, false), Syscall, 1, Some(1), true);
  }

  lemma ThreadYields()
    ensures Shaped(AsleepAt(5)) && Enabled(AsleepAt(5), Micro(0)) && Apply(AsleepAt(5), Micro(0)) == UserAt(Runnable)
  {
    hide Shaped, Terminates, Switch;
    PairIsShaped(Asleep(5).0, Asleep(5).1, Runnable, 0, Some(0), true);
    PairSwitch(Asleep(5).0, In(Remask, 2, false), 0, Some(0), true);
    PairSwitch(Asleep(5).0, In(Yield, 2, false), 0, Some(0), true);
    var k := AsleepAt(5);
    assert k.(at := k.at[0 := In(Remask, 2, false)])
        == Pair(Asleep(5).0, In(Remask, 2, false), Runnable, 0, Some(0), true);
  }

  lemma ThreadStarts()
    ensures var k := Pair(Proc(Runnable, None, 0, 0), Outside, Runnable, -1, None, true);
            var n := Pair(Proc(Runnable, None, 0, 0), Outside, Runnable, 0, Some(0), true);
            && Shaped(k) && Init(k) && Enabled(k, Timer(0)) && Apply(k, Timer(0)) == n
            && Shaped(n) && Enabled(n, Call(2)) && Apply(n, Call(2)) == AsleepAt(0)
  {
    hide Shaped, Terminates, Switch, Instruction, Raised;
    PairSwitch(Proc(Runnable, None, 0, 0), Outside, -1, None, true);
    PairIsShaped(Proc(Runnable, None, 0, 0), Outside, Runnable, 0, Some(0), true);
  }

  /** A scan that no iteration ends: the thread waits on a zero count and the cursor is on a dead process. */
  lemma DeadScanSpins(ticks: nat)
    ensures var t := UserAt(Dead).table;
            && WellFormed(t) && Cursor(1, |t.procs|) && !Terminates(t, 1, ticks)
            && forall k: nat :: k > 0 ==> !Stops(t, 1, k, ticks)
  {
    hide Stops, Shaped;
    PairIsShaped(Asleep(5).0, In(Remask, 2, false), Dead, 1, Some(1), true);
    ShapedTable(UserAt(Dead));
    var t := UserAt(Dead).table;
    assert !Eligible(t, 0, ticks) && !Eligible(t, 1, ticks);
    ScanTerminatesIff(t, 1, ticks);
  }

  lemma FirstState(k: Kernel)
    requires Init(k)
    ensures Run([k], [])
  {}

  lemma Extend(run: seq<Kernel>, labels: seq<Label>, l: Label, k: Kernel)
    returns (run': seq<Kernel>, labels': seq<Label>)
    requires |run| == |labels| + 1 && Run(run, labels)
    requires Shaped(run[|labels|]) && Enabled(run[|labels|], l) && k == Apply(run[|labels|], l)
    ensures run' == run + [k] && labels' == labels + [l] && Run(run', labels')
  {
    hide Enabled, Apply, Shaped, Init;
    run', labels' := run + [k], labels + [l];
  }

  /**
   * A driver thread goes to sleep, the only user process exits, and no call of the scheduler returns any
   * more, whatever the time.
   */
  lemma SchedulerCanHang() returns (run: seq<Kernel>, labels: seq<Label>)
    ensures Run(run, labels) && |labels| == 10
    ensures WellFormed(run[10].table) && Cursor(run[10].cursor, |run[10].table.procs|)
    ensures forall ticks: nat :: !Terminates(run[10].table, run[10].cursor, ticks)
    ensures forall ticks: nat, k: nat :: k > 0 ==> !Stops(run[10].table, run[10].cursor, k, ticks)
  {
    hide Enabled, Apply, Terminates, Stops, WellFormed, Cursor, Shaped, Run, Init, Asleep;
    var k0 := Pair(Proc(Runnable, None, 0, 0), Outside, Runnable, -1, None, true);
    var k1 := Pair(Proc(Runnable, None, 0, 0), Outside, Runnable, 0, Some(0), true);
    ThreadStarts();
    FirstState(k0);
    run, labels := Extend([k0], [], Timer(0), k1);
    run, labels := Extend(run, labels, Call(2), AsleepAt(0));
    var i := 0;
    while i < 5
      invariant 0 <= i <= 5 && |run| == |labels| + 1 && |labels| == 2 + i
      invariant Run(run, labels) && run[2 + i] == AsleepAt(i)
    {
      FallsAsleep(i);
      run, labels := Extend(run, labels, Micro(0), AsleepAt(i + 1));
      i := i + 1;
    }
    ThreadYields();
    run, labels := Extend(run, labels, Micro(0), UserAt(Runnable));
    UserExits();
    run, labels := Extend(run, labels, EnterSyscall, UserAt(Syscall));
    run, labels := Extend(run, labels, Exit, UserAt(Dead));
    DeadScanSpins(0);
    assert run[10].table == UserAt(Dead).table && run[10].cursor == 1;
    forall ticks: nat
      ensures !Terminates(run[10].table, run[10].cursor, ticks)
    {
      DeadScanSpins(ticks);
    }
    forall ticks: nat, k: nat | k > 0
      ensures !Stops(run[10].table, run[10].cursor, k, ticks)
    {
      DeadScanSpins(ticks);
    }
  }
}
