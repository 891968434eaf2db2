/** The round-robin scheduler of kernel/proc/sched.c. */
module Sched {
  import opened Machine

  datatype ProcState = Unloaded | Runnable | Blocked | Syscall | SyscallBlocked | Dead

  /**
   * What the scheduler reads of `struct proc`. Semaphores are named by their index in
   * `Table.counts`; `signalSema` is the process's own signal semaphore.
   */
  datatype Proc = Proc(state: ProcState, semaBlocked: Option<nat>, alarmTicks: nat, signalSema: nat)

  /** The process list, which only ever grows at its end, and the semaphore counts. */
  datatype Table = Table(procs: seq<Proc>, counts: seq<int>)

  /** Only the owner of a signal semaphore ever blocks on it. */
  ghost predicate WellFormed(t: Table) {
    && (forall p <- t.procs :: p.signalSema < |t.counts|)
    && (forall p <- t.procs :: p.semaBlocked.Some? ==> p.semaBlocked.value < |t.counts|)
    && (forall i, j :: 0 <= i < |t.procs| && 0 <= j < |t.procs| && i != j ==>
          t.procs[i].semaBlocked != Some(t.procs[j].signalSema))
  }

  /** The code compares the low words of two 32-bit tick counts. */
  predicate AlarmDue(p: Proc, ticks: nat) {
    p.alarmTicks != 0 && U16(p.alarmTicks) <= U16(ticks)
  }

  /** The visit's first half: an expired alarm of a process that is not dead becomes a signal. */
  function FireAlarm(t: Table, i: nat, ticks: nat): Table
    requires WellFormed(t) && i < |t.procs|
  {
    var p := t.procs[i];
    if p.state != Dead && AlarmDue(p, ticks) then
      Table(t.procs[i := p.(alarmTicks := 0)], t.counts[p.signalSema := t.counts[p.signalSema] + 1])
    else
      t
  }

  /** The visit's second half: can process `i` run as things stand? */
  predicate Runs(t: Table, i: nat)
    requires WellFormed(t) && i < |t.procs|
  {
    var p := t.procs[i];
    match p.state
    case Runnable => true
    case Syscall => true
    case Blocked => p.semaBlocked.Some? && t.counts[p.semaBlocked.value] > 0
    case SyscallBlocked => p.semaBlocked.Some? && t.counts[p.semaBlocked.value] > 0
    case Unloaded => false
    case Dead => false
  }

  /** A visit to process `i` would choose it, counting what its own alarm does. */
  predicate Eligible(t: Table, i: nat, ticks: nat)
    requires WellFormed(t) && i < |t.procs|
  {
    FireKeepsWellFormed(t, i, ticks);
    Runs(FireAlarm(t, i, ticks), i)
  }

  /** The chosen process resumes in the mode it blocked in. */
  function Unblock(p: Proc): Proc {
    match p.state
    case Blocked => p.(state := Runnable, semaBlocked := None)
    case SyscallBlocked => p.(state := Syscall, semaBlocked := None)
    case _ => p
  }

  lemma FireKeepsWellFormed(t: Table, i: nat, ticks: nat)
    requires WellFormed(t) && i < |t.procs|
    ensures var f := FireAlarm(t, i, ticks);
            && WellFormed(f) && |f.procs| == |t.procs| && |f.counts| == |t.counts|
            && forall j :: 0 <= j < |t.procs| ==> f.procs[j].state == t.procs[j].state
  {
    var f := FireAlarm(t, i, ticks);
    forall p | p in f.procs
      ensures p.signalSema < |f.counts| && (p.semaBlocked.Some? ==> p.semaBlocked.value < |f.counts|)
    {
      var j :| 0 <= j < |f.procs| && f.procs[j] == p;
      assert t.procs[j] in t.procs;
    }
  }

  /** Nobody else's alarm changes whether a process can be chosen, and its own counts only once. */
  lemma FireKeepsEligibility(t: Table, a: nat, i: nat, ticks: nat)
    requires WellFormed(t) && a < |t.procs| && i < |t.procs|
    ensures WellFormed(FireAlarm(t, a, ticks)) && |FireAlarm(t, a, ticks).procs| == |t.procs|
    ensures Eligible(FireAlarm(t, a, ticks), i, ticks) == Eligible(t, i, ticks)
  {
    FireKeepsWellFormed(t, a, ticks);
    FireKeepsWellFormed(t, i, ticks);
    FireKeepsWellFormed(FireAlarm(t, a, ticks), i, ticks);
    if a != i {
      assert t.procs[i].semaBlocked != Some(t.procs[a].signalSema);
    }
  }

  // ---- The scan ----

  /** The list element after `at`; a null cursor is -1 and the end of the list wraps. */
  function Following(at: int, n: nat): int {
    if at == -1 || at + 1 >= n then 0 else at + 1
  }

  /** The element the scan looks at on its `k`-th iteration. */
  function Position(cursor: int, k: nat, n: nat): int {
    if k == 0 then cursor else Following(Position(cursor, k - 1, n), n)
  }

  ghost predicate Cursor(cursor: int, n: nat) {
    -1 <= cursor < n && n > 0
  }

  lemma {:induction false} PositionIsCyclic(cursor: int, k: nat, n: nat)
    requires Cursor(cursor, n) && 1 <= k <= n
    ensures Position(cursor, k, n) == if cursor + k < n then cursor + k else cursor + k - n
  {
    if k > 1 {
      PositionIsCyclic(cursor, k - 1, n);
    }
  }

  lemma {:induction false} PositionInRange(cursor: int, k: nat, n: nat)
    requires Cursor(cursor, n)
    ensures k > 0 ==> 0 <= Position(cursor, k, n) < n
    ensures -1 <= Position(cursor, k, n) < n
  {
    if k > 0 {
      PositionInRange(cursor, k - 1, n);
    }
  }

  /** How far ahead of the cursor element `i` is, between 1 and `n`. */
  function Distance(cursor: int, i: nat, n: nat): int {
    if i > cursor then i - cursor else i - cursor + n
  }

  lemma DistanceReaches(cursor: int, i: nat, n: nat)
    requires Cursor(cursor, n) && i < n
    ensures 1 <= Distance(cursor, i, n) <= n
    ensures Position(cursor, Distance(cursor, i, n), n) == i
  {
    PositionIsCyclic(cursor, Distance(cursor, i, n), n);
  }

  /** The table after the scan has passed its first `k` elements without stopping. */
  function Passed(t: Table, cursor: int, k: nat, ticks: nat): (r: Table)
    requires WellFormed(t) && Cursor(cursor, |t.procs|)
    ensures WellFormed(r) && |r.procs| == |t.procs| && |r.counts| == |t.counts|
    ensures forall j :: 0 <= j < |t.procs| ==> r.procs[j].state == t.procs[j].state
  {
    if k == 0 then
      t
    else
      var before := Passed(t, cursor, k - 1, ticks);
      var i := Position(cursor, k, |t.procs|);
      PositionInRange(cursor, k, |t.procs|);
      FireKeepsWellFormed(before, i, ticks);
      FireAlarm(before, i, ticks)
  }

  lemma PassedStep(t: Table, cursor: int, k: nat, ticks: nat)
    requires WellFormed(t) && Cursor(cursor, |t.procs|) && k > 0
    ensures 0 <= Position(cursor, k, |t.procs|) < |t.procs|
    ensures Passed(t, cursor, k, ticks)
            == FireAlarm(Passed(t, cursor, k - 1, ticks), Position(cursor, k, |t.procs|), ticks)
  {
    hide FireAlarm, WellFormed;
    PositionInRange(cursor, k, |t.procs|);
  }

  lemma {:induction false} PassingKeepsEligibility(t: Table, cursor: int, k: nat, i: nat, ticks: nat)
    requires WellFormed(t) && Cursor(cursor, |t.procs|) && i < |t.procs|
    ensures Eligible(Passed(t, cursor, k, ticks), i, ticks) == Eligible(t, i, ticks)
  {
    hide FireAlarm, WellFormed, Eligible, Position;
    if k > 0 {
      hide Passed;
      PassingKeepsEligibility(t, cursor, k - 1, i, ticks);
      PassedStep(t, cursor, k, ticks);
      FireKeepsEligibility(Passed(t, cursor, k - 1, ticks), Position(cursor, k, |t.procs|), i, ticks);
    }
  }

  /** The `k`-th iteration leaves the loop, by choosing its process or by settling for idle. */
  ghost predicate Stops(t: Table, cursor: int, k: nat, ticks: nat)
    requires WellFormed(t) && Cursor(cursor, |t.procs|) && k > 0
  {
    PositionInRange(cursor, k, |t.procs|);
    var before := Passed(t, cursor, k - 1, ticks);
    var i := Position(cursor, k, |t.procs|);
    && before.procs[i].state != Dead
    && (Eligible(before, i, ticks) || i == cursor)
  }

  /** What a caller has to check: someone can run, or the element under the cursor is alive. */
  predicate Terminates(t: Table, cursor: int, ticks: nat)
    requires WellFormed(t) && Cursor(cursor, |t.procs|)
  {
    || (exists i :: 0 <= i < |t.procs| && Eligible(t, i, ticks))
    || (cursor >= 0 && t.procs[cursor].state != Dead)
  }

  /** The unbounded loop leaves after some iteration exactly under that condition. */
  lemma ScanTerminatesIff(t: Table, cursor: int, ticks: nat)
    requires WellFormed(t) && Cursor(cursor, |t.procs|)
    ensures (exists k: nat :: k > 0 && Stops(t, cursor, k, ticks)) <==> Terminates(t, cursor, ticks)
    ensures Terminates(t, cursor, ticks) ==> exists k: nat :: 0 < k <= |t.procs| && Stops(t, cursor, k, ticks)
  {
    hide Eligible, WellFormed, Passed;
    var n := |t.procs|;
    forall k: nat | k > 0 && Stops(t, cursor, k, ticks)
      ensures Terminates(t, cursor, ticks)
    {
      PositionInRange(cursor, k, n);
      PassingKeepsEligibility(t, cursor, k - 1, Position(cursor, k, n), ticks);
    }
    if i :| 0 <= i < n && Eligible(t, i, ticks) {
      var k := Distance(cursor, i, n);
      DistanceReaches(cursor, i, n);
      PassingKeepsEligibility(t, cursor, k - 1, i, ticks);
      EligibleIsAlive(t, i, ticks);
      assert Stops(t, cursor, k, ticks);
    } else if cursor >= 0 && t.procs[cursor].state != Dead {
      PositionIsCyclic(cursor, n, n);
      assert Stops(t, cursor, n, ticks);
    }
  }

  lemma EligibleIsAlive(t: Table, i: nat, ticks: nat)
    requires WellFormed(t) && i < |t.procs| && Eligible(t, i, ticks)
    ensures t.procs[i].state != Dead
  {
    FireKeepsWellFormed(t, i, ticks);
  }

  // ---- The choice ----

  /** The first of iterations `k`, `k + 1`, ... of one round that meets an eligible process. */
  function Search(t: Table, cursor: int, k: nat, ticks: nat): (r: Option<nat>)
    requires WellFormed(t) && Cursor(cursor, |t.procs|) && 1 <= k <= |t.procs| + 1
    ensures r.Some? ==> k <= r.value <= |t.procs|
    decreases |t.procs| + 1 - k
  {
    PositionInRange(cursor, k, |t.procs|);
    if k > |t.procs| then None
    else if Eligible(t, Position(cursor, k, |t.procs|), ticks) then Some(k)
    else Search(t, cursor, k + 1, ticks)
  }

  /** The outcome of a call: `current` is `None` for the idle task. */
  datatype Choice = Choice(table: Table, cursor: int, current: Option<nat>)

  function Pick(t: Table, cursor: int, ticks: nat): Choice
    requires WellFormed(t) && Cursor(cursor, |t.procs|)
  {
    var n := |t.procs|;
    match Search(t, cursor, 1, ticks)
    case Some(k) =>
      PositionInRange(cursor, k, n);
      var i := Position(cursor, k, n);
      var passed := Passed(t, cursor, k, ticks);
      Choice(passed.(procs := passed.procs[i := Unblock(passed.procs[i])]), i, Some(i))
    case None => Choice(Passed(t, cursor, n, ticks), cursor, None)
  }

  lemma {:induction false} SearchFindsFirst(t: Table, cursor: int, k: nat, ticks: nat)
    requires WellFormed(t) && Cursor(cursor, |t.procs|) && 1 <= k <= |t.procs| + 1
    ensures match Search(t, cursor, k, ticks)
            case Some(f) =>
              && k <= f <= |t.procs|
              && 0 <= Position(cursor, f, |t.procs|) < |t.procs|
              && Eligible(t, Position(cursor, f, |t.procs|), ticks)
              && forall j :: k <= j < f ==>
                   0 <= Position(cursor, j, |t.procs|) < |t.procs|
                   && !Eligible(t, Position(cursor, j, |t.procs|), ticks)
            case None =>
              forall j :: k <= j <= |t.procs| ==>
                0 <= Position(cursor, j, |t.procs|) < |t.procs|
                && !Eligible(t, Position(cursor, j, |t.procs|), ticks)
    decreases |t.procs| + 1 - k
  {
    hide Eligible, Position, WellFormed;
    if k <= |t.procs| {
      PositionInRange(cursor, k, |t.procs|);
      SearchFindsFirst(t, cursor, k + 1, ticks);
    }
  }

  /** The process chosen is the first eligible one in cyclic order after the cursor. */
  lemma PickIsFirstInCyclicOrder(t: Table, cursor: int, ticks: nat, i: nat)
    requires WellFormed(t) && Cursor(cursor, |t.procs|) && i < |t.procs|
    ensures Pick(t, cursor, ticks).current == Some(i) <==>
            && Eligible(t, i, ticks)
            && forall j :: 0 <= j < |t.procs| && Eligible(t, j, ticks) ==>
                 Distance(cursor, i, |t.procs|) <= Distance(cursor, j, |t.procs|)
  {
    hide Eligible, Passed, Position, WellFormed;
    var n := |t.procs|;
    SearchFindsFirst(t, cursor, 1, ticks);
    forall j | 0 <= j < n
      ensures 1 <= Distance(cursor, j, n) <= n && Position(cursor, Distance(cursor, j, n), n) == j
    {
      DistanceReaches(cursor, j, n);
    }
    match Search(t, cursor, 1, ticks)
    case Some(f) =>
      var c := Position(cursor, f, n);
      assert Distance(cursor, c, n) == f by { PositionIsCyclic(cursor, f, n); }
    case None => NobodyFound(t, cursor, ticks, i);
  }

  lemma NobodyFound(t: Table, cursor: int, ticks: nat, i: nat)
    requires WellFormed(t) && Cursor(cursor, |t.procs|) && i < |t.procs|
    requires Search(t, cursor, 1, ticks) == None
    ensures !Eligible(t, i, ticks)
  {
    hide Eligible, Position, WellFormed;
    SearchFindsFirst(t, cursor, 1, ticks);
    DistanceReaches(cursor, i, |t.procs|);
  }

  /** Idle is chosen, with the cursor left alone, exactly when nobody is eligible. */
  lemma PickIsIdleIff(t: Table, cursor: int, ticks: nat)
    requires WellFormed(t) && Cursor(cursor, |t.procs|)
    ensures Pick(t, cursor, ticks).current == None <==>
            forall i :: 0 <= i < |t.procs| ==> !Eligible(t, i, ticks)
    ensures Pick(t, cursor, ticks).current == None ==> Pick(t, cursor, ticks).cursor == cursor
  {
    hide Eligible, Passed, Position, WellFormed;
    SearchFindsFirst(t, cursor, 1, ticks);
    if Search(t, cursor, 1, ticks) == None {
      forall i | 0 <= i < |t.procs|
        ensures !Eligible(t, i, ticks)
      {
        NobodyFound(t, cursor, ticks, i);
      }
    }
  }

  /** What one call leaves behind, apart from alarms that became signals. */
  lemma PickEffect(t: Table, cursor: int, ticks: nat)
    requires WellFormed(t) && Cursor(cursor, |t.procs|)
    ensures var c := Pick(t, cursor, ticks);
            && |c.table.procs| == |t.procs| && |c.table.counts| == |t.counts|
            && Cursor(c.cursor, |t.procs|)
            && (c.current.Some? ==> c.current.value == c.cursor)
            && (forall i :: 0 <= i < |t.procs| && c.current != Some(i) ==>
                  c.table.procs[i].state == t.procs[i].state)
            && (forall i :: 0 <= i < |t.procs| && c.current == Some(i) ==>
                  c.table.procs[i].state == Unblock(t.procs[i]).state)
  {
    hide Eligible, Position, WellFormed;
    SearchFindsFirst(t, cursor, 1, ticks);
  }

  // ---- Which alarms a call fires ----

  /** The alarm of a live process whose low word has been reached by that of the clock. */
  predicate Elapsed(p: Proc, ticks: nat) {
    p.state != Dead && p.alarmTicks != 0 && p.alarmTicks % 0x1_0000 <= ticks % 0x1_0000
  }

  /** The processes among the next `k` whose alarm has elapsed and whose signal semaphore is `s`. */
  function ElapsedFor(t: Table, cursor: int, k: nat, ticks: nat, s: nat): set<int> {
    set i | 0 <= i < |t.procs| && Distance(cursor, i, |t.procs|) <= k
            && Elapsed(t.procs[i], ticks) && t.procs[i].signalSema == s
  }

  /** How far a call scans: up to its choice, or all round. */
  function Reach(t: Table, cursor: int, ticks: nat): int
    requires WellFormed(t) && Cursor(cursor, |t.procs|)
  {
    match Pick(t, cursor, ticks).current
    case Some(i) => Distance(cursor, i, |t.procs|)
    case None => |t.procs|
  }

  lemma PositionIffDistance(cursor: int, k: nat, n: nat, i: nat)
    requires Cursor(cursor, n) && 1 <= k <= n && i < n
    ensures Position(cursor, k, n) == i <==> Distance(cursor, i, n) == k
  {
    PositionIsCyclic(cursor, k, n);
  }

  lemma {:induction false} PassedProcs(t: Table, cursor: int, k: nat, ticks: nat, i: nat)
    requires WellFormed(t) && Cursor(cursor, |t.procs|) && k <= |t.procs| && i < |t.procs|
    ensures Passed(t, cursor, k, ticks).procs[i]
            == if Distance(cursor, i, |t.procs|) <= k && Elapsed(t.procs[i], ticks)
               then t.procs[i].(alarmTicks := 0) else t.procs[i]
  {
    hide WellFormed, Position;
    if k == 0 {
      DistanceReaches(cursor, i, |t.procs|);
    } else {
      PassedProcs(t, cursor, k - 1, ticks, i);
      PassedStep(t, cursor, k, ticks);
      PositionIffDistance(cursor, k, |t.procs|, i);
    }
  }

  lemma {:induction false} PassedCounts(t: Table, cursor: int, k: nat, ticks: nat, s: nat)
    requires WellFormed(t) && Cursor(cursor, |t.procs|) && k <= |t.procs| && s < |t.counts|
    ensures Passed(t, cursor, k, ticks).counts[s] == t.counts[s] + |ElapsedFor(t, cursor, k, ticks, s)|
  {
    hide WellFormed, Position, Distance;
    var n := |t.procs|;
    if k == 0 {
      forall i | 0 <= i < n
        ensures Distance(cursor, i, n) > 0
      {
        DistanceReaches(cursor, i, n);
      }
      assert ElapsedFor(t, cursor, 0, ticks, s) == {};
    } else {
      PassedCounts(t, cursor, k - 1, ticks, s);
      PassedStep(t, cursor, k, ticks);
      var c := Position(cursor, k, n);
      PassedProcs(t, cursor, k - 1, ticks, c);
      PositionIffDistance(cursor, k, n, c);
      ElapsedGrows(t, cursor, k, ticks, s);
    }
  }

  /** The process at distance `k` joins if it qualifies. */
  lemma ElapsedGrows(t: Table, cursor: int, k: nat, ticks: nat, s: nat)
    requires Cursor(cursor, |t.procs|) && 1 <= k <= |t.procs| && 0 <= Position(cursor, k, |t.procs|) < |t.procs|
    ensures var c := Position(cursor, k, |t.procs|);
            |ElapsedFor(t, cursor, k, ticks, s)|
            == |ElapsedFor(t, cursor, k - 1, ticks, s)|
               + if Elapsed(t.procs[c], ticks) && t.procs[c].signalSema == s then 1 else 0
  {
    hide Position, Distance, Elapsed;
    var n := |t.procs|;
    var c := Position(cursor, k, n);
    forall i | 0 <= i < n
      ensures i == c <==> Distance(cursor, i, n) == k
    {
      PositionIffDistance(cursor, k, n, i);
    }
    var before, after := ElapsedFor(t, cursor, k - 1, ticks, s), ElapsedFor(t, cursor, k, ticks, s);
    if Elapsed(t.procs[c], ticks) && t.procs[c].signalSema == s {
      assert after == before + {c};
    } else {
      assert after == before;
    }
  }

  /** A visited process whose alarm has elapsed loses it, every other process keeps its own. */
  lemma PickAlarms(t: Table, cursor: int, ticks: nat, i: nat)
    requires WellFormed(t) && Cursor(cursor, |t.procs|) && i < |t.procs|
    ensures |Pick(t, cursor, ticks).table.procs| == |t.procs|
    ensures Pick(t, cursor, ticks).table.procs[i].alarmTicks
            == if Distance(cursor, i, |t.procs|) <= Reach(t, cursor, ticks) && Elapsed(t.procs[i], ticks)
               then 0 else t.procs[i].alarmTicks
  {
    hide WellFormed, Position, Eligible, Elapsed, Passed;
    ReachIsSearch(t, cursor, ticks);
    PassedProcs(t, cursor, Reach(t, cursor, ticks), ticks, i);
  }

  /** A call raises each count by one for every such process, and by nothing else. */
  lemma PickCounts(t: Table, cursor: int, ticks: nat, s: nat)
    requires WellFormed(t) && Cursor(cursor, |t.procs|) && s < |t.counts|
    ensures |Pick(t, cursor, ticks).table.counts| == |t.counts| && 0 <= Reach(t, cursor, ticks) <= |t.procs|
    ensures Pick(t, cursor, ticks).table.counts[s]
            == t.counts[s] + |ElapsedFor(t, cursor, Reach(t, cursor, ticks), ticks, s)|
  {
    hide WellFormed, Position, Eligible, ElapsedFor, Passed;
    ReachIsSearch(t, cursor, ticks);
    PassedCounts(t, cursor, Reach(t, cursor, ticks), ticks, s);
  }

  lemma ReachIsSearch(t: Table, cursor: int, ticks: nat)
    requires WellFormed(t) && Cursor(cursor, |t.procs|)
    ensures 1 <= Reach(t, cursor, ticks) <= |t.procs|
    ensures var c, passed := Pick(t, cursor, ticks), Passed(t, cursor, Reach(t, cursor, ticks), ticks);
            && c.table.counts == passed.counts && |c.table.procs| == |t.procs|
            && forall j :: 0 <= j < |t.procs| ==> c.table.procs[j].alarmTicks == passed.procs[j].alarmTicks
  {
    hide WellFormed, Position, Eligible, Passed;
    SearchFindsFirst(t, cursor, 1, ticks);
    match Search(t, cursor, 1, ticks)
    case Some(k) => PositionIffDistance(cursor, k, |t.procs|, Position(cursor, k, |t.procs|));
    case None =>
  }

  /** Who can be chosen: a running process, or a blocked one whose semaphore is positive, its own alarm counted in. */
  lemma EligibleIff(t: Table, i: nat, ticks: nat)
    requires WellFormed(t) && i < |t.procs|
    ensures var p := t.procs[i];
            Eligible(t, i, ticks) <==>
            || p.state == Runnable || p.state == Syscall
            || (&& (p.state == Blocked || p.state == SyscallBlocked) && p.semaBlocked.Some?
                && t.counts[p.semaBlocked.value]
                   + (if p.semaBlocked.value == p.signalSema && Elapsed(p, ticks) then 1 else 0) > 0)
  {
    FireKeepsWellFormed(t, i, ticks);
    assert t.procs[i] in t.procs;
  }

  /** A process asleep on its own signal semaphore wakes exactly when its alarm has elapsed. */
  lemma SleeperWakesIff(t: Table, i: nat, ticks: nat)
    requires WellFormed(t) && i < |t.procs| && t.procs[i].state == SyscallBlocked
    requires t.procs[i].semaBlocked == Some(t.procs[i].signalSema) && t.counts[t.procs[i].signalSema] == 0
    ensures Eligible(t, i, ticks) <==>
            t.procs[i].alarmTicks != 0 && t.procs[i].alarmTicks % 0x1_0000 <= ticks % 0x1_0000
  {
    hide Eligible;
    EligibleIff(t, i, ticks);
  }

  lemma ScanStart(t: Table, cursor: int, ticks: nat)
    requires WellFormed(t) && Cursor(cursor, |t.procs|)
    ensures Position(cursor, 0, |t.procs|) == cursor && Passed(t, cursor, 0, ticks) == t
  {}

  /** What the `k`-th iteration finds, in terms of the table the call started with. */
  lemma VisitFacts(t: Table, cursor: int, k: nat, ticks: nat)
    requires WellFormed(t) && Cursor(cursor, |t.procs|) && 1 <= k
    ensures var before, i := Passed(t, cursor, k - 1, ticks), Position(cursor, k, |t.procs|);
            && 0 <= i < |t.procs|
            && i == Following(Position(cursor, k - 1, |t.procs|), |t.procs|)
            && before.procs[i].signalSema < |before.counts|
            && (before.procs[i].semaBlocked.Some? ==> before.procs[i].semaBlocked.value < |before.counts|)
            && Passed(t, cursor, k, ticks) == FireAlarm(before, i, ticks)
            && WellFormed(FireAlarm(before, i, ticks))
            && Eligible(t, i, ticks) == Runs(FireAlarm(before, i, ticks), i)
            && (before.procs[i].state == Dead ==> FireAlarm(before, i, ticks) == before)
  {
    PositionInRange(cursor, k, |t.procs|);
    var before, i := Passed(t, cursor, k - 1, ticks), Position(cursor, k, |t.procs|);
    PassingKeepsEligibility(t, cursor, k - 1, i, ticks);
    FireKeepsWellFormed(before, i, ticks);
    assert before.procs[i] in before.procs;
  }

  /** A fruitful iteration settles the outcome of the call. */
  lemma SearchOver(t: Table, cursor: int, k: nat, ticks: nat)
    requires WellFormed(t) && Cursor(cursor, |t.procs|) && 1 <= k <= |t.procs|
    requires Search(t, cursor, 1, ticks) == Search(t, cursor, k, ticks)
    requires 0 <= Position(cursor, k, |t.procs|) < |t.procs|
    requires Eligible(t, Position(cursor, k, |t.procs|), ticks)
    ensures var passed, i := Passed(t, cursor, k, ticks), Position(cursor, k, |t.procs|);
            Pick(t, cursor, ticks)
            == Choice(Table(passed.procs[i := Unblock(passed.procs[i])], passed.counts), i, Some(i))
  {
    hide Eligible, Position, Passed, WellFormed;
  }

  /** A fruitless iteration: the search goes on, and a fruitless full round ends at the cursor. */
  lemma StillSearching(t: Table, cursor: int, k: nat, ticks: nat)
    requires WellFormed(t) && Cursor(cursor, |t.procs|) && 1 <= k <= |t.procs|
    requires Terminates(t, cursor, ticks)
    requires Search(t, cursor, 1, ticks) == Search(t, cursor, k, ticks)
    requires 0 <= Position(cursor, k, |t.procs|) < |t.procs|
    requires !Eligible(t, Position(cursor, k, |t.procs|), ticks)
    ensures Search(t, cursor, 1, ticks) == Search(t, cursor, k + 1, ticks)
    ensures k == |t.procs| ==>
              && Pick(t, cursor, ticks) == Choice(Passed(t, cursor, k, ticks), cursor, None)
              && cursor >= 0 && t.procs[cursor].state != Dead && Position(cursor, k, |t.procs|) == cursor
  {
    hide Eligible, Position, Passed, WellFormed;
    if k == |t.procs| {
      if i :| 0 <= i < |t.procs| && Eligible(t, i, ticks) {
        NobodyFound(t, cursor, ticks, i);
        assert false;
      }
      PositionIsCyclic(cursor, k, k);
    }
  }

  // ---- Fairness ----

  /** Passing over an eligible process brings the cursor strictly closer to it. */
  lemma PickComesCloser(t: Table, cursor: int, ticks: nat, p: nat)
    requires WellFormed(t) && Cursor(cursor, |t.procs|) && p < |t.procs| && Eligible(t, p, ticks)
    ensures var c := Pick(t, cursor, ticks);
            && c.current.Some? && Cursor(c.cursor, |t.procs|)
            && (c.current == Some(p)
                || Distance(c.cursor, p, |t.procs|) < Distance(cursor, p, |t.procs|))
  {
    hide Eligible, Pick, WellFormed;
    PickIsIdleIff(t, cursor, ticks);
    PickEffect(t, cursor, ticks);
    PickIsFirstInCyclicOrder(t, cursor, ticks, Pick(t, cursor, ticks).current.value);
  }

  /**
   * Consecutive calls of `sched_pick_next`: between two calls processes, counts and clock may change
   * at will, but the list keeps its length and `p` is eligible whenever a choice is made.
   */
  ghost predicate Calls(ts: seq<Table>, cursors: seq<int>, ticks: seq<nat>, n: nat, p: nat) {
    && |ts| == |ticks| && |cursors| == |ts| + 1 && p < n
    && (forall i :: 0 <= i < |ts| ==> WellFormed(ts[i]) && |ts[i].procs| == n && Eligible(ts[i], p, ticks[i]))
    && (forall i :: 0 <= i < |cursors| ==> Cursor(cursors[i], n))
    && (forall i :: 0 <= i < |ts| ==> cursors[i + 1] == Pick(ts[i], cursors[i], ticks[i]).cursor)
  }

  lemma {:induction false} PassedOverBound(ts: seq<Table>, cursors: seq<int>, ticks: seq<nat>, n: nat, p: nat, k: nat)
    requires Calls(ts, cursors, ticks, n, p) && k <= |ts|
    requires forall i :: 0 <= i < k ==> Pick(ts[i], cursors[i], ticks[i]).current != Some(p)
    ensures Distance(cursors[k], p, n) <= Distance(cursors[0], p, n) - k
  {
    if k > 0 {
      hide Eligible, Pick, WellFormed;
      PassedOverBound(ts, cursors, ticks, n, p, k - 1);
      PickComesCloser(ts[k - 1], cursors[k - 1], ticks[k - 1], p);
    }
  }

  /** Bounded bypass: among any `n` consecutive calls on a list of `n`, one chooses `p`. */
  lemma BoundedBypass(ts: seq<Table>, cursors: seq<int>, ticks: seq<nat>, n: nat, p: nat)
    requires Calls(ts, cursors, ticks, n, p) && |ts| == n
    ensures exists i :: 0 <= i < n && Pick(ts[i], cursors[i], ticks[i]).current == Some(p)
  {
    hide Eligible, Pick, WellFormed;
    if forall i :: 0 <= i < n ==> Pick(ts[i], cursors[i], ticks[i]).current != Some(p) {
      PassedOverBound(ts, cursors, ticks, n, p, n);
      assert false;
    }
  }

  /** `sched.c` keeps the cursor, the current process and the table in globals. */
  class Scheduler {
    var procs: seq<Proc>
    var counts: seq<int>
    var lastElement: int
    var current: Option<nat>

    ghost predicate Valid()
      reads this
    {
      WellFormed(Table(procs, counts)) && Cursor(lastElement, |procs|)
    }

    /** The tests made on one live list element: its alarm, its state, its semaphore. */
    method Visit(i: nat, ticks: nat) returns (runs: bool)
      requires WellFormed(Table(procs, counts)) && i < |procs| && procs[i].state != Dead
      modifies this`procs, this`counts
      ensures var fired := FireAlarm(old(Table(procs, counts)), i, ticks);
              && WellFormed(fired) && i < |fired.procs|
              && runs == Runs(fired, i)
              && counts == fired.counts
              && procs == if runs then fired.procs[i := Unblock(fired.procs[i])] else fired.procs
    {
      FireKeepsWellFormed(Table(procs, counts), i, ticks);
      if AlarmDue(procs[i], ticks) {
        var s := procs[i].signalSema;
        counts := counts[s := counts[s] + 1];
        procs := procs[i := procs[i].(alarmTicks := 0)];
      }
      runs := procs[i].state == Runnable || procs[i].state == Syscall;
      if procs[i].state == Blocked || procs[i].state == SyscallBlocked {
        if procs[i].semaBlocked.Some? && counts[procs[i].semaBlocked.value] > 0 {
          var resumed := if procs[i].state == Blocked then Runnable else Syscall;
          procs := procs[i := procs[i].(state := resumed, semaBlocked := None)];
          runs := true;
        }
      }
    }

    /** `sched_pick_next`, with its `for (;;)` loop and every branch of the visit in place. */
    method PickNext(ticks: nat)
      requires Valid() && Terminates(Table(procs, counts), lastElement, ticks)
      modifies this
      ensures Choice(Table(procs, counts), lastElement, current)
              == Pick(old(Table(procs, counts)), old(lastElement), ticks)
    {
      hide Eligible, WellFormed, Position, Passed, Search, Pick, Terminates, FireAlarm;
      var firstElement := lastElement;
      ghost var t := Table(procs, counts);
      ScanStart(t, firstElement, ticks);
      ghost var n := |procs|;
      ghost var k := 0;
      while true
        invariant 0 <= k < n && |procs| == n && Cursor(firstElement, n)
        invariant Table(procs, counts) == Passed(t, firstElement, k, ticks)
        invariant lastElement == Position(firstElement, k, n)
        invariant Search(t, firstElement, 1, ticks) == Search(t, firstElement, k + 1, ticks)
        decreases n - k
      {
        lastElement := if lastElement == -1 || lastElement + 1 >= |procs| then 0 else lastElement + 1;
        k := k + 1;
        VisitFacts(t, firstElement, k, ticks);
        assert lastElement == Position(firstElement, k, n);
        var i := lastElement;

        if procs[i].state == Dead {
          StillSearching(t, firstElement, k, ticks);
          continue;
        }
        var runs := Visit(i, ticks);
        if runs {
          SearchOver(t, firstElement, k, ticks);
          break;
        }
        StillSearching(t, firstElement, k, ticks);
        if i == firstElement {
          assert k == n by { PositionIsCyclic(firstElement, k, n); }
          current := None;
          return;
        }
      }
      current := Some(lastElement);
    }
  }
}
