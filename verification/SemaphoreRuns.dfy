/** Whole runs of semaphores and scheduler: what holds in every interleaving of any number of processes. */
module SemaphoreRuns {
  import opened Machine
  import opened Sched
  import opened SemaphoreProtocol

  /** A run of the kernel: any number of processes, any interleaving. */
  ghost predicate Run(run: seq<Kernel>, labels: seq<Label>) {
    && |run| == |labels| + 1 && Init(run[0])
    && forall i :: 0 <= i < |labels| && Shaped(run[i]) ==>
         Enabled(run[i], labels[i]) && run[i + 1] == Apply(run[i], labels[i])
  }

  lemma {:induction false} RunInv(run: seq<Kernel>, labels: seq<Label>, i: nat)
    requires Run(run, labels) && i < |run|
    ensures Inv(run[i])
  {
    hide Enabled, Apply;
    if i == 0 {
      InitInv(run[0]);
    } else {
      RunInv(run, labels, i - 1);
      StepInv(run[i - 1], labels[i - 1]);
    }
  }

  /**
   * No lost wakeup: in every reachable state a process inside the wait loop whose semaphore is
   * positive would be chosen by a scheduler visit, whenever that happens, and would resume in the
   * mode it blocked in.
   */
  lemma NoLostWakeup(run: seq<Kernel>, labels: seq<Label>, i: nat, p: nat, ticks: nat)
    requires Run(run, labels) && i < |run| && p < |run[i].at|
    requires Waiting(run[i].at[p])
    ensures Shaped(run[i])
    ensures run[i].at[p].sema < |run[i].table.counts|
    ensures run[i].table.counts[run[i].at[p].sema] > 0 ==>
              && Eligible(run[i].table, p, ticks)
              && Unblock(run[i].table.procs[p]).state == RunningIn(run[i].at[p].fromSyscall)
  {
    RunInv(run, labels, i);
    var k := run[i];
    assert ProcInv(k, p);
    assert k.at[p] in k.at;
    if k.table.counts[k.at[p].sema] > 0 {
      PositiveIsEligible(k.table, p, ticks);
    }
  }

  lemma PositiveIsEligible(t: Table, i: nat, ticks: nat)
    requires WellFormed(t) && i < |t.procs| && Runs(t, i)
    ensures Eligible(t, i, ticks)
  {
    FireKeepsWellFormed(t, i, ticks);
    FireIsAlarmsOnly(t, i, ticks);
  }

  /** A process that has got past the wait loop runs in the mode it called in, blocked on nothing. */
  lemma DownReturnsInMode(run: seq<Kernel>, labels: seq<Label>, i: nat, p: nat)
    requires Run(run, labels) && i < |run| && p < |run[i].at|
    requires run[i].at[p].In? && run[i].at[p].here in {Take, Leave}
    ensures Shaped(run[i])
    ensures run[i].table.procs[p].state == RunningIn(run[i].at[p].fromSyscall)
    ensures run[i].table.procs[p].semaBlocked == None
    ensures run[i].current == Some(p) && !run[i].interruptsOn
  {
    RunInv(run, labels, i);
    assert ProcInv(run[i], p);
  }

  // ---- What steps do to the counts, told from their labels ----

  /** The step calls `sched_pick_next`. */
  predicate Schedules(k: Kernel, l: Label) {
    || l.Timer?
    || (l.Micro? && k.current.Some? && k.current.value < |k.at|
        && k.at[k.current.value].In? && k.at[k.current.value].here == Yield)
  }

  /** A `semaphore_up`, or a `semaphore_binary_up` that finds zero; */
  ghost function RaisedBy(k: Kernel, l: Label, s: nat): nat
    requires Shaped(k) && s < |k.table.counts|
  {
    if l == Raise(s) && (!k.binary[s] || k.table.counts[s] == 0) then 1 else 0
  }

  /** alarms that a scheduler call finds elapsed; */
  ghost function FiredBy(k: Kernel, l: Label, s: nat): nat
    requires Shaped(k)
  {
    if Schedules(k, l)
    then |ElapsedFor(k.table, k.cursor, Max(0, Reach(k.table, k.cursor, l.ticks)), l.ticks, s)|
    else 0
  }

  /** the one subtraction of a `semaphore_down`; */
  ghost function TakenBy(k: Kernel, l: Label, s: nat): nat
    requires Shaped(k)
  {
    if l.Micro? && k.current.Some? && k.at[k.current.value].In?
       && k.at[k.current.value].here == Take && k.at[k.current.value].sema == s then 1 else 0
  }

  /** and a signal handed to its handler. */
  ghost function DeliveredBy(k: Kernel, l: Label, s: nat): nat
    requires Shaped(k)
  {
    if l == LeaveSyscall(true) && k.current.Some? && OwnSignals(k) == s then 1 else 0
  }

  /**
   * Seen from outside, `semaphore_down` is one atomic step. Every step of the kernel changes a count by just
   * what its label says, and takes from it only when it is positive.
   */
  lemma StepRefinesCounter(k: Kernel, l: Label, s: nat)
    requires Inv(k) && Enabled(k, l) && s < |k.table.counts|
    ensures |Apply(k, l).table.counts| == |k.table.counts|
    ensures Apply(k, l).table.counts[s]
            == k.table.counts[s] + RaisedBy(k, l, s) + FiredBy(k, l, s) - TakenBy(k, l, s) - DeliveredBy(k, l, s)
    ensures TakenBy(k, l, s) + DeliveredBy(k, l, s) > 0 ==> k.table.counts[s] > 0
  {
    hide WellFormed, Cursor, Pick, Reach, ElapsedFor;
    if Schedules(k, l) {
      ScheduleStep(k, l);
      PickCounts(k.table, k.cursor, l.ticks, s);
    } else if l.Micro? {
      assert ProcInv(k, k.current.value);
    }
  }

  /** Raising a counting semaphore adds one, raising a binary one leaves it at one; no other count changes. */
  lemma RaiseAddsOne(k: Kernel, s: nat)
    requires Inv(k) && Enabled(k, Raise(s))
    ensures Apply(k, Raise(s))
            == k.(table := Table(k.table.procs, k.table.counts[s := if k.binary[s] then 1 else k.table.counts[s] + 1]))
  {
    assert CountInv(k, s);
    assert k.binary[s] && k.table.counts[s] == 1 ==> k.table.counts[s := 1] == k.table.counts;
  }

  /** The sums over the first `i` steps. */
  ghost function Raises(run: seq<Kernel>, labels: seq<Label>, i: nat, s: nat): nat
    requires Tracks(run, labels, s) && i < |run|
  {
    if i == 0 then 0 else Raises(run, labels, i - 1, s) + RaisedBy(run[i - 1], labels[i - 1], s)
  }

  ghost function Alarms(run: seq<Kernel>, labels: seq<Label>, i: nat, s: nat): nat
    requires Tracks(run, labels, s) && i < |run|
  {
    if i == 0 then 0 else Alarms(run, labels, i - 1, s) + FiredBy(run[i - 1], labels[i - 1], s)
  }

  ghost function Downs(run: seq<Kernel>, labels: seq<Label>, i: nat, s: nat): nat
    requires Tracks(run, labels, s) && i < |run|
  {
    if i == 0 then 0 else Downs(run, labels, i - 1, s) + TakenBy(run[i - 1], labels[i - 1], s)
  }

  ghost function Deliveries(run: seq<Kernel>, labels: seq<Label>, i: nat, s: nat): nat
    requires Tracks(run, labels, s) && i < |run|
  {
    if i == 0 then 0 else Deliveries(run, labels, i - 1, s) + DeliveredBy(run[i - 1], labels[i - 1], s)
  }

  ghost predicate Tracks(run: seq<Kernel>, labels: seq<Label>, s: nat) {
    |run| == |labels| + 1 && forall i :: 0 <= i < |run| ==> Shaped(run[i]) && s < |run[i].table.counts|
  }

  lemma {:induction false} CountsStay(run: seq<Kernel>, labels: seq<Label>, i: nat)
    requires Run(run, labels) && i < |run|
    ensures Shaped(run[i]) && |run[i].table.counts| == |run[0].table.counts|
  {
    hide Enabled, Apply;
    RunInv(run, labels, i);
    if i > 0 {
      SomeCount(run, labels);
      CountsStay(run, labels, i - 1);
      RunInv(run, labels, i - 1);
      StepRefinesCounter(run[i - 1], labels[i - 1], 0);
    }
  }

  /** Every process has a signal semaphore, so there is a count. */
  lemma SomeCount(run: seq<Kernel>, labels: seq<Label>)
    requires Run(run, labels)
    ensures |run[0].table.counts| > 0
  {
    assert run[0].table.procs[0] in run[0].table.procs;
  }

  /**
   * Over every run a count is the first count, plus the ups that took effect, plus the alarms that elapsed,
   * minus the downs that were completed, minus the signals that were delivered; and it is never negative.
   */
  lemma {:induction false} CountLaw(run: seq<Kernel>, labels: seq<Label>, i: nat, s: nat)
    requires Run(run, labels) && i < |run| && s < |run[0].table.counts|
    ensures Tracks(run, labels, s)
    ensures run[i].table.counts[s]
            == run[0].table.counts[s] + Raises(run, labels, i, s) + Alarms(run, labels, i, s)
               - Downs(run, labels, i, s) - Deliveries(run, labels, i, s)
    ensures run[i].table.counts[s] >= 0
    ensures run[i].binary[s] ==> run[i].table.counts[s] < 2
    decreases i
  {
    hide Enabled, Apply, RaisedBy, FiredBy, TakenBy, DeliveredBy;
    forall j | 0 <= j < |run|
      ensures Shaped(run[j]) && s < |run[j].table.counts|
    {
      CountsStay(run, labels, j);
    }
    RunInv(run, labels, i);
    assert CountInv(run[i], s);
    if i > 0 {
      CountLaw(run, labels, i - 1, s);
      RunInv(run, labels, i - 1);
      StepRefinesCounter(run[i - 1], labels[i - 1], s);
    }
  }

  // ---- A waiter is resumed ----

  lemma ScheduleStep(k: Kernel, l: Label)
    requires Inv(k) && Enabled(k, l)
    ensures |Apply(k, l).at| == |k.at|
    ensures Schedules(k, l) ==>
              Apply(k, l).cursor == Pick(k.table, k.cursor, l.ticks).cursor
              && Apply(k, l).current == Pick(k.table, k.cursor, l.ticks).current
    ensures Schedules(k, l) ==> Apply(k, l).table == Pick(k.table, k.cursor, l.ticks).table
    ensures !Schedules(k, l) ==> Apply(k, l).cursor == k.cursor && Apply(k, l).current == k.current
  {
    hide WellFormed, Cursor, Pick;
    if l.Micro? {
      var c := k.current.value;
      assert k.at[c] in k.at;
      PointKeepsShape(k, c, k.at[c].(here := Remask), k.table.counts);
    }
  }

  /** `calls` lists, in order, consecutive scheduler calls of a run. */
  ghost predicate ConsecutiveCalls(run: seq<Kernel>, labels: seq<Label>, calls: seq<nat>)
    requires |run| == |labels| + 1
  {
    && (forall j :: 0 <= j < |calls| ==> calls[j] < |labels| && Schedules(run[calls[j]], labels[calls[j]]))
    && (forall j :: 0 < j < |calls| ==>
          && calls[j - 1] < calls[j]
          && forall i :: calls[j - 1] < i < calls[j] && i < |labels| ==> !Schedules(run[i], labels[i]))
  }

  lemma {:induction false} CursorHolds(run: seq<Kernel>, labels: seq<Label>, i: nat, j: nat)
    requires Run(run, labels) && i <= j < |run|
    requires forall m :: i <= m < j ==> !Schedules(run[m], labels[m])
    ensures run[j].cursor == run[i].cursor
    decreases j - i
  {
    hide Enabled, Apply, Schedules;
    if i < j {
      CursorHolds(run, labels, i, j - 1);
      RunInv(run, labels, j - 1);
      ScheduleStep(run[j - 1], labels[j - 1]);
    }
  }

  lemma {:induction false} ProcessesStay(run: seq<Kernel>, labels: seq<Label>, i: nat)
    requires Run(run, labels) && i < |run|
    ensures |run[i].at| == |run[0].at|
  {
    hide Enabled, Apply, Schedules;
    if i > 0 {
      ProcessesStay(run, labels, i - 1);
      RunInv(run, labels, i - 1);
      ScheduleStep(run[i - 1], labels[i - 1]);
    }
  }

  /** The process waits at a positive count. */
  ghost predicate ReadyWaiter(k: Kernel, p: nat) {
    && p < |k.at| && Waiting(k.at[p])
    && k.at[p].sema < |k.table.counts| && k.table.counts[k.at[p].sema] > 0
  }

  /** What the scheduler finds at each of the calls. */
  ghost function CallTables(run: seq<Kernel>, calls: seq<nat>): (ts: seq<Table>)
    requires forall j :: 0 <= j < |calls| ==> calls[j] < |run|
    ensures |ts| == |calls| && forall j :: 0 <= j < |calls| ==> ts[j] == run[calls[j]].table
  {
    seq(|calls|, j requires 0 <= j < |calls| => run[calls[j]].table)
  }

  ghost function CallTicks(labels: seq<Label>, calls: seq<nat>): (ticks: seq<nat>)
    requires forall j :: 0 <= j < |calls| ==>
               calls[j] < |labels| && (labels[calls[j]].Timer? || labels[calls[j]].Micro?)
    ensures |ticks| == |calls| && forall j :: 0 <= j < |calls| ==> ticks[j] == labels[calls[j]].ticks
  {
    seq(|calls|, j requires 0 <= j < |calls| => labels[calls[j]].ticks)
  }

  /** The cursor before each call, and after the last. */
  ghost function CallCursors(run: seq<Kernel>, calls: seq<nat>): (cursors: seq<int>)
    requires calls != [] && forall j :: 0 <= j < |calls| ==> calls[j] + 1 < |run|
    ensures |cursors| == |calls| + 1 && cursors[|calls|] == run[calls[|calls| - 1] + 1].cursor
    ensures forall j :: 0 <= j < |calls| ==> cursors[j] == run[calls[j]].cursor
  {
    seq(|calls|, j requires 0 <= j < |calls| => run[calls[j]].cursor) + [run[calls[|calls| - 1] + 1].cursor]
  }

  lemma CursorsFollow(run: seq<Kernel>, labels: seq<Label>, calls: seq<nat>, p: nat, j: nat)
    requires |run| == |labels| + 1 && Run(run, labels) && ConsecutiveCalls(run, labels, calls) && j < |calls|
    requires ReadyWaiter(run[calls[j]], p)
    ensures WellFormed(run[calls[j]].table) && Cursor(run[calls[j]].cursor, |run[calls[j]].table.procs|)
    ensures labels[calls[j]].Timer? || labels[calls[j]].Micro?
    ensures CallCursors(run, calls)[j + 1]
            == Pick(run[calls[j]].table, run[calls[j]].cursor, labels[calls[j]].ticks).cursor
  {
    hide Enabled, Apply, Pick, Eligible, WellFormed, Schedules, Run, Waiting;
    CallFacts(run, labels, calls[j], p);
    if j + 1 < |calls| {
      CursorHolds(run, labels, calls[j] + 1, calls[j + 1]);
    }
  }

  /**
   * With `n` processes, a waiter whose semaphore is positive at each of `n` consecutive scheduler
   * calls is resumed by one of them.
   */
  lemma WaiterIsResumed(run: seq<Kernel>, labels: seq<Label>, calls: seq<nat>, p: nat)
    requires |run| == |labels| + 1 && Run(run, labels) && p < |run[0].at| && |calls| == |run[0].at|
    requires ConsecutiveCalls(run, labels, calls)
    requires forall j :: 0 <= j < |calls| ==> ReadyWaiter(run[calls[j]], p)
    ensures exists j :: 0 <= j < |calls| && run[calls[j] + 1].current == Some(p)
  {
    hide Enabled, Apply, Pick, Eligible, WellFormed, Cursor, Schedules, Run, Waiting;
    hide CallTables, CallTicks, CallCursors;
    var n := |calls|;
    forall j | 0 <= j < n
      ensures labels[calls[j]].Timer? || labels[calls[j]].Micro?
      ensures WellFormed(run[calls[j]].table) && |run[calls[j]].table.procs| == n && Cursor(run[calls[j]].cursor, n)
      ensures Eligible(run[calls[j]].table, p, labels[calls[j]].ticks)
    {
      CallFacts(run, labels, calls[j], p);
    }
    var ts, ticks, cursors := CallTables(run, calls), CallTicks(labels, calls), CallCursors(run, calls);
    forall j | 0 <= j < n
      ensures cursors[j + 1] == Pick(ts[j], cursors[j], ticks[j]).cursor
    {
      CursorsFollow(run, labels, calls, p, j);
    }
    PickEffect(ts[n - 1], cursors[n - 1], ticks[n - 1]);
    BoundedBypass(ts, cursors, ticks, n, p);
    var i :| 0 <= i < n && Pick(ts[i], cursors[i], ticks[i]).current == Some(p);
    CallFacts(run, labels, calls[i], p);
  }

  lemma CallFacts(run: seq<Kernel>, labels: seq<Label>, i: nat, p: nat)
    requires Run(run, labels) && i < |labels| && Schedules(run[i], labels[i])
    requires p < |run[i].at| && Waiting(run[i].at[p])
    requires run[i].at[p].sema < |run[i].table.counts|
    requires run[i].table.counts[run[i].at[p].sema] > 0
    ensures labels[i].Timer? || labels[i].Micro?
    ensures WellFormed(run[i].table) && |run[i].table.procs| == |run[0].at|
    ensures Cursor(run[i].cursor, |run[0].at|) && p < |run[0].at|
    ensures Eligible(run[i].table, p, labels[i].ticks)
    ensures run[i + 1].current == Pick(run[i].table, run[i].cursor, labels[i].ticks).current
    ensures run[i + 1].cursor == Pick(run[i].table, run[i].cursor, labels[i].ticks).cursor
  {
    hide Enabled, Apply, Pick, Eligible, WellFormed;
    RunInv(run, labels, i);
    ProcessesStay(run, labels, i);
    NoLostWakeup(run, labels, i, p, labels[i].ticks);
    ScheduleStep(run[i], labels[i]);
  }
}
