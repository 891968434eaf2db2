/**
 * The course of single processes through the kernel of SemaphoreProtocol: which call a process is in, what
 * `semaphore_down` does from call to return, and what a process's mode and alarm are told by.
 */
module SemaphoreCourse {
  import opened Machine
  import opened Sched
  import opened SemaphoreProtocol
  import opened SemaphoreRuns

  // ---- One call from beginning to end ----

  /** Kernels joined by enabled steps. */
  ghost predicate Steps(run: seq<Kernel>, labels: seq<Label>) {
    && |run| == |labels| + 1
    && forall i :: 0 <= i < |labels| ==>
         Shaped(run[i]) && Enabled(run[i], labels[i]) && run[i + 1] == Apply(run[i], labels[i])
  }

  /** Kernel `k` with process `c` at another point, in another state and with another interrupt flag. */
  function At(k: Kernel, c: nat, p: Proc, pt: Point, on: bool): Kernel
    requires c < |k.at| && c < |k.table.procs|
  {
    k.(table := k.table.(procs := k.table.procs[c := p]), at := k.at[c := pt], interruptsOn := on)
  }

  function Minus(k: Kernel, s: nat): Kernel
    requires s < |k.table.counts|
  {
    k.(table := k.table.(counts := k.table.counts[s := k.table.counts[s] - 1]))
  }

  /** A process that is inside `semaphore_down(s)`, or about to call it, and may block on it. */
  ghost predicate Caller(k: Kernel, c: nat, s: nat) {
    && Shaped(k) && k.current == Some(c) && s < |k.table.counts|
    && forall j :: 0 <= j < |k.table.procs| && j != c ==> k.table.procs[j].signalSema != s
  }

  predicate Fitting(k: Kernel, c: nat, p: Proc, s: nat) {
    && c < |k.table.procs| && p.signalSema == k.table.procs[c].signalSema
    && (p.semaBlocked == None || p.semaBlocked == Some(s))
  }

  lemma AtIsShaped(k: Kernel, c: nat, s: nat, p: Proc, pt: Point, on: bool)
    requires Caller(k, c, s) && Fitting(k, c, p, s) && (pt.In? ==> pt.sema == s)
    ensures Shaped(At(k, c, p, pt, on))
  {
    hide WellFormed, Cursor, Shaped;
    ShapedLengths(k);
    ChangeKeepsShape(k, c, p, pt, on);
    assert Local(k, c, p, pt, on) == At(k, c, p, pt, on);
  }

  lemma ShapedLengths(k: Kernel)
    requires Shaped(k)
    ensures |k.at| == |k.table.procs| && (k.current.Some? ==> k.current.value < |k.at|)
  {}

  /** One instruction that touches only the process itself. */
  lemma Instructs(k: Kernel, c: nat, s: nat, p: Proc, pt: Point, on: bool)
    requires Caller(k, c, s) && Fitting(k, c, p, s) && pt.In? && pt.sema == s && pt.here !in {Yield, Take}
    ensures var now := At(k, c, p, pt, on);
            && Shaped(now) && Enabled(now, Micro(0))
            && Apply(now, Micro(0))
               == At(k, c, ProcAfter(p, pt), PointAfter(pt, k.table.counts[s]), InterruptsAfter(pt.here, on))
  {
    hide WellFormed, Cursor, Shaped, Switch, Terminates;
    ShapedLengths(k);
    AtIsShaped(k, c, s, p, pt, on);
  }

  lemma Takes(k: Kernel, c: nat, s: nat, p: Proc, pt: Point)
    requires Caller(k, c, s) && Fitting(k, c, p, s) && pt.In? && pt.sema == s && pt.here == Take
    ensures var now := At(k, c, p, pt, false);
            && Shaped(now) && Enabled(now, Micro(0))
            && Caller(Minus(k, s), c, s) && Fitting(Minus(k, s), c, p, s)
            && Apply(now, Micro(0)) == At(Minus(k, s), c, p, pt.(here := Leave), false)
  {
    hide WellFormed, Cursor, Switch, Terminates;
    AtIsShaped(k, c, s, p, pt, false);
    PointKeepsShape(k, c, k.at[c], Minus(k, s).table.counts);
    assert k.at[c := k.at[c]] == k.at;
  }

  /** The current process is outside and calls `semaphore_down(s)`. */
  ghost predicate Calls(k: Kernel, c: nat, s: nat) {
    Inv(k) && Caller(k, c, s) && k.interruptsOn && Enabled(k, Call(s))
  }

  lemma Enters(k: Kernel, c: nat, s: nat)
    requires Calls(k, c, s)
    ensures c < |k.at| == |k.table.procs|
    ensures var p := k.table.procs[c];
            && Fitting(k, c, p, s) && p.semaBlocked == None && p.state == RunningIn(p.state == Syscall)
            && Apply(k, Call(s)) == At(k, c, p, In(Mask, s, p.state == Syscall), true)
            && At(k, c, p, Outside, true) == k
  {
    hide WellFormed, Cursor, Switch, Terminates;
    assert ProcInv(k, c);
    assert k.at[c := Outside] == k.at;
  }

  /** With a positive count the call returns after four instructions: the count is one less and that is all. */
  lemma DownTakesOne(k: Kernel, c: nat, s: nat) returns (run: seq<Kernel>)
    requires Calls(k, c, s) && k.table.counts[s] > 0
    ensures Steps(run, [Call(s), Micro(0), Micro(0), Micro(0), Micro(0)]) && run[0] == k && run[5] == Minus(k, s)
  {
    hide Inv, Enabled, Apply, Shaped, Fitting;
    Enters(k, c, s);
    var p := k.table.procs[c];
    var pt := In(Mask, s, p.state == Syscall);
    Instructs(k, c, s, p, pt, true);
    Instructs(k, c, s, p, pt.(here := Test), false);
    Takes(k, c, s, p, pt.(here := Take));
    Instructs(Minus(k, s), c, s, p, pt.(here := Leave), false);
    run := [k, At(k, c, p, pt, true), At(k, c, p, pt.(here := Test), false), At(k, c, p, pt.(here := Take), false),
            At(Minus(k, s), c, p, pt.(here := Leave), false), At(Minus(k, s), c, p, Outside, true)];
    assert Minus(At(k, c, p, Outside, true), s) == At(Minus(k, s), c, p, Outside, true);
  }

  /** At zero the caller is blocked in its own mode, has published the semaphore and is about to yield. */
  lemma DownSleeps(k: Kernel, c: nat, s: nat) returns (run: seq<Kernel>)
    requires Calls(k, c, s) && k.table.counts[s] == 0
    ensures Steps(run, [Call(s), Micro(0), Micro(0), Micro(0), Micro(0), Micro(0)]) && run[0] == k
    ensures var p := k.table.procs[c];
            var m := p.state == Syscall;
            run[6] == At(k, c, p.(state := BlockedIn(m), semaBlocked := Some(s)), In(Yield, s, m), true)
  {
    hide Inv, Enabled, Apply, Shaped;
    Enters(k, c, s);
    var p := k.table.procs[c];
    var pt := In(Mask, s, p.state == Syscall);
    var b := p.(state := BlockedIn(p.state == Syscall));
    var w := b.(semaBlocked := Some(s));
    Instructs(k, c, s, p, pt, true);
    Instructs(k, c, s, p, pt.(here := Test), false);
    Instructs(k, c, s, p, pt.(here := SetState), false);
    Instructs(k, c, s, b, pt.(here := SetSema), false);
    Instructs(k, c, s, w, pt.(here := Unmask), false);
    run := [k, At(k, c, p, pt, true), At(k, c, p, pt.(here := Test), false), At(k, c, p, pt.(here := SetState), false),
            At(k, c, b, pt.(here := SetSema), false), At(k, c, w, pt.(here := Unmask), false),
            At(k, c, w, pt.(here := Yield), true)];
  }

  /** A process that was resumed, before its second look at the count. */
  ghost predicate Resumed(k: Kernel, c: nat, s: nat) {
    && Caller(k, c, s) && k.interruptsOn && c < |k.at| && k.at[c].In? && k.at[c].here == Remask && k.at[c].sema == s
    && k.table.procs[c].semaBlocked == None
  }

  lemma ResumedFacts(k: Kernel, c: nat, s: nat)
    requires Resumed(k, c, s)
    ensures Fitting(k, c, k.table.procs[c], s) && At(k, c, k.table.procs[c], k.at[c], true) == k
  {
    assert k.at[c := k.at[c]] == k.at && k.table.procs[c := k.table.procs[c]] == k.table.procs;
  }

  /** It returns if the count is still positive, one less then, */
  lemma WakerTakesOne(k: Kernel, c: nat, s: nat) returns (run: seq<Kernel>)
    requires Resumed(k, c, s) && k.table.counts[s] > 0
    ensures Steps(run, [Micro(0), Micro(0), Micro(0), Micro(0)]) && run[0] == k
    ensures run[4] == At(Minus(k, s), c, k.table.procs[c], Outside, true)
  {
    hide Enabled, Apply, Shaped, Fitting;
    ResumedFacts(k, c, s);
    var p, pt := k.table.procs[c], k.at[c];
    Instructs(k, c, s, p, pt, true);
    Instructs(k, c, s, p, pt.(here := Retest), false);
    Takes(k, c, s, p, pt.(here := Take));
    Instructs(Minus(k, s), c, s, p, pt.(here := Leave), false);
    run := [k, At(k, c, p, pt.(here := Retest), false), At(k, c, p, pt.(here := Take), false),
            At(Minus(k, s), c, p, pt.(here := Leave), false), At(Minus(k, s), c, p, Outside, true)];
  }

  /** and goes back to the head of the wait loop, in its running state, if somebody was faster. */
  lemma WakerYieldsAgain(k: Kernel, c: nat, s: nat) returns (run: seq<Kernel>)
    requires Resumed(k, c, s) && k.table.counts[s] == 0
    ensures Steps(run, [Micro(0), Micro(0), Micro(0)]) && run[0] == k
    ensures run[3] == At(k, c, k.table.procs[c], k.at[c].(here := Yield), true)
  {
    hide Enabled, Apply, Shaped, Fitting;
    ResumedFacts(k, c, s);
    var p, pt := k.table.procs[c], k.at[c];
    Instructs(k, c, s, p, pt, true);
    Instructs(k, c, s, p, pt.(here := Retest), false);
    Instructs(k, c, s, p, pt.(here := Unmask), false);
    run := [k, At(k, c, p, pt.(here := Retest), false), At(k, c, p, pt.(here := Unmask), false),
            At(k, c, p, pt.(here := Yield), true)];
  }

  /**
   * A system call of the running process ends where it began, and a signal can be delivered at its end exactly
   * when one is pending.
   */
  lemma SyscallReturns(k: Kernel, c: nat, deliver: bool)
    requires Inv(k) && k.current == Some(c) && c < |k.at| && c < |k.table.procs|
    requires k.at[c] == Outside && k.table.procs[c].state == Runnable
    ensures Enabled(k, EnterSyscall) && Shaped(Apply(k, EnterSyscall))
    ensures var s, inside := k.table.procs[c].signalSema, Apply(k, EnterSyscall);
            && s < |k.table.counts|
            && (Enabled(inside, LeaveSyscall(deliver)) <==> (deliver ==> k.table.counts[s] > 0))
            && (Enabled(inside, LeaveSyscall(deliver)) ==>
                  Apply(inside, LeaveSyscall(deliver)) == if deliver then Minus(k, s) else k)
  {
    hide WellFormed, Cursor, Switch, Terminates;
    var p := k.table.procs[c];
    assert p in k.table.procs;
    ChangeKeepsShape(k, c, p.(state := Syscall), Outside, k.interruptsOn);
    assert k.table.procs[c := p] == k.table.procs && k.at[c := Outside] == k.at;
  }

  // ---- Which call a process is in ----

  /** The semaphore and the mode of the last call of process `p`. */
  ghost function LastCall(run: seq<Kernel>, labels: seq<Label>, i: nat, p: nat): Option<(nat, bool)>
    requires i <= |labels| && i <= |run|
  {
    if i == 0 then None
    else
      var k, l := run[i - 1], labels[i - 1];
      if l.Call? && k.current == Some(p) && p < |k.table.procs|
      then Some((l.s, k.table.procs[p].state == Syscall))
      else LastCall(run, labels, i - 1, p)
  }

  /** A process inside `semaphore_down` is there for its last call, and remembers the mode it called in. */
  lemma {:induction false} DownIsOfItsCall(run: seq<Kernel>, labels: seq<Label>, i: nat, p: nat)
    requires Run(run, labels) && i < |run| && p < |run[i].at| && run[i].at[p].In?
    ensures LastCall(run, labels, i, p) == Some((run[i].at[p].sema, run[i].at[p].fromSyscall))
  {
    hide Enabled, Apply;
    if i > 0 {
      RunInv(run, labels, i - 1);
      PointStep(run[i - 1], labels[i - 1], p);
      if run[i - 1].at[p].In? {
        DownIsOfItsCall(run, labels, i - 1, p);
      }
    }
  }

  lemma PointStep(k: Kernel, l: Label, p: nat)
    requires Inv(k) && Enabled(k, l) && p < |Apply(k, l).at| && Apply(k, l).at[p].In?
    ensures p < |k.at| == |k.table.procs|
    ensures var pt, q := Apply(k, l).at[p], k.at[p];
            if l.Call? && k.current == Some(p)
            then pt.sema == l.s && pt.fromSyscall == (k.table.procs[p].state == Syscall)
            else q.In? && pt.sema == q.sema && pt.fromSyscall == q.fromSyscall
  {
    hide WellFormed, Cursor, Pick;
    if l.Micro? {
      assert k.at[k.current.value] in k.at;
      PointKeepsShape(k, k.current.value, k.at[k.current.value].(here := Remask), k.table.counts);
    }
  }

  // ---- Mode and alarm of a process ----

  datatype Mode = NotLoaded | InProgram | InKernel | Gone

  function ModeOf(state: ProcState): Mode {
    match state
    case Unloaded => NotLoaded
    case Runnable => InProgram
    case Blocked => InProgram
    case Syscall => InKernel
    case SyscallBlocked => InKernel
    case Dead => Gone
  }

  /** What the steps of process `p` so far make of its mode. */
  ghost function ModeAfter(run: seq<Kernel>, labels: seq<Label>, i: nat, p: nat): Mode
    requires i <= |labels| && i < |run| && p < |run[0].table.procs|
  {
    if i == 0 then ModeOf(run[0].table.procs[p].state)
    else
      var own := run[i - 1].current == Some(p);
      match labels[i - 1]
      case Start(j) => if j == p then InProgram else ModeAfter(run, labels, i - 1, p)
      case EnterSyscall => if own then InKernel else ModeAfter(run, labels, i - 1, p)
      case LeaveSyscall(_) => if own then InProgram else ModeAfter(run, labels, i - 1, p)
      case Exit => if own then Gone else ModeAfter(run, labels, i - 1, p)
      case _ => ModeAfter(run, labels, i - 1, p)
  }

  /** The mode of a process is told by its last change of mode: no blocking and no wakeup ever changes it. */
  lemma {:induction false} ModeLaw(run: seq<Kernel>, labels: seq<Label>, i: nat, p: nat)
    requires Run(run, labels) && i < |run| && p < |run[0].table.procs|
    ensures p < |run[i].table.procs| && ModeOf(run[i].table.procs[p].state) == ModeAfter(run, labels, i, p)
  {
    hide Enabled, Apply, ModeOf;
    if i > 0 {
      ModeLaw(run, labels, i - 1, p);
      RunInv(run, labels, i - 1);
      ModeStep(run[i - 1], labels[i - 1], p);
    }
  }

  lemma ModeStep(k: Kernel, l: Label, p: nat)
    requires Inv(k) && Enabled(k, l) && p < |k.table.procs|
    ensures p < |Apply(k, l).table.procs|
    ensures var mode, own := ModeOf(Apply(k, l).table.procs[p].state), k.current == Some(p);
            match l
            case Start(j) => mode == if j == p then InProgram else ModeOf(k.table.procs[p].state)
            case EnterSyscall => mode == if own then InKernel else ModeOf(k.table.procs[p].state)
            case LeaveSyscall(_) => mode == if own then InProgram else ModeOf(k.table.procs[p].state)
            case Exit => mode == if own then Gone else ModeOf(k.table.procs[p].state)
            case _ => mode == ModeOf(k.table.procs[p].state)
  {
    hide WellFormed, Cursor, Pick;
    if Schedules(k, l) {
      ScheduleStep(k, l);
      PickEffect(k.table, k.cursor, l.ticks);
    } else if l.Micro? {
      assert ProcInv(k, k.current.value);
    }
  }

  /** The step is a scan that gets as far as process `p` and finds its alarm elapsed. */
  ghost predicate Clears(k: Kernel, l: Label, p: nat) {
    && Shaped(k) && p < |k.table.procs| && Schedules(k, l)
    && Distance(k.cursor, p, |k.table.procs|) <= Reach(k.table, k.cursor, l.ticks)
    && Elapsed(k.table.procs[p], l.ticks)
  }

  /** What has become of the alarm of process `p`: set by the process, cleared by a call that found it elapsed. */
  ghost function AlarmAfter(run: seq<Kernel>, labels: seq<Label>, i: nat, p: nat): nat
    requires i <= |labels| && i < |run| && p < |run[0].table.procs|
  {
    if i == 0 then run[0].table.procs[p].alarmTicks
    else if labels[i - 1].SetAlarm? && run[i - 1].current == Some(p) then labels[i - 1].alarm
    else if Clears(run[i - 1], labels[i - 1], p) then 0
    else AlarmAfter(run, labels, i - 1, p)
  }

  lemma {:induction false} AlarmLaw(run: seq<Kernel>, labels: seq<Label>, i: nat, p: nat)
    requires Run(run, labels) && i < |run| && p < |run[0].table.procs|
    ensures p < |run[i].table.procs| && run[i].table.procs[p].alarmTicks == AlarmAfter(run, labels, i, p)
  {
    hide Enabled, Apply, Clears;
    if i > 0 {
      AlarmLaw(run, labels, i - 1, p);
      RunInv(run, labels, i - 1);
      AlarmStep(run[i - 1], labels[i - 1], p);
    }
  }

  lemma AlarmStep(k: Kernel, l: Label, p: nat)
    requires Inv(k) && Enabled(k, l) && p < |k.table.procs|
    ensures p < |Apply(k, l).table.procs|
    ensures Apply(k, l).table.procs[p].alarmTicks
            == if l.SetAlarm? && k.current == Some(p) then l.alarm
               else if Clears(k, l, p) then 0
               else k.table.procs[p].alarmTicks
  {
    hide WellFormed, Cursor, Pick, Reach, Elapsed;
    if Schedules(k, l) {
      ScheduleStep(k, l);
      PickAlarms(k.table, k.cursor, l.ticks, p);
    }
  }
}
