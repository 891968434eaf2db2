/**
 * When processes are isolated from each other and from the kernel, and exactly which tables a signal
 * handler may return with so that they stay so (kernel/proc/signal.c, kernel/sys/sysd.c).
 */
module PageIsolation {
  import opened Machine
  import opened Sched
  import opened Virtual
  import opened Pages

  predicate IsProcess(w: World, i: nat) {
    i < |w.procs| && w.procs[i].kind == UserProcess
  }

  /** Above the kernel's own pages, and no stack that the kernel runs on. */
  ghost predicate NoKernelPage(w: World, page: nat) {
    && page >= FIRST_PAGE
    && (forall j :: 0 <= j < |w.procs| && w.procs[j].kind == UserProcess ==> page != w.procs[j].kstack)
    && (forall j :: 0 <= j < |w.procs| && w.procs[j].kind == KernelThread && |w.procs[j].own.mem| == PAGES ==>
          page != w.procs[j].own.mem[STACK_PAGE])
  }

  ghost predicate InTable(w: World, i: nat, page: nat) {
    IsProcess(w, i) && page in UserTables(w.procs[i]).mem
  }

  /** No mapped page of a process is the kernel's or another process's. */
  ghost predicate Isolated(w: World) {
    forall i: nat, page: nat :: InTable(w, i, page) && MapsPage(page) ==>
      NoKernelPage(w, page) && forall j: nat :: InTable(w, j, page) ==> j == i
  }

  /** In terms of bytes, and of the kernel's default table. */
  lemma IsolatedBytes(w: World, i: nat, v: Word, j: nat, u: Word)
    requires Isolated(w) && IsProcess(w, i) && IsProcess(w, j) && i != j
    requires Sized(UserTables(w.procs[i])) && Sized(UserTables(w.procs[j]))
    requires MapsPage(UserTables(w.procs[i]).mem[v / PAGE_SIZE])
    ensures Translate(UserTables(w.procs[i]).mem, v) != Translate(UserTables(w.procs[j]).mem, u)
    ensures UserTables(w.procs[i]).mem[v / PAGE_SIZE] !in KernelTable(0)
  {
    hide UserTables, Translate;
    var a, b := UserTables(w.procs[i]).mem, UserTables(w.procs[j]).mem;
    assert InTable(w, i, a[v / PAGE_SIZE]) && InTable(w, j, b[u / PAGE_SIZE]);
    DifferentBytes(a, v, b, u);
  }

  // ---- What a process may come to hold ----

  /** In its table, or in a frame to which it can still return. */
  ghost predicate MayHold(w: World, i: nat, page: nat) {
    || InTable(w, i, page)
    || (IsProcess(w, i) && w.procs[i].status != Dead && InFrame(w.procs[i], page))
  }

  ghost predicate InFrame(p: Process, page: nat) {
    exists f <- p.frames :: page in f.mem
  }

  /** No mapped page may come to be held by two, or is a kernel stack, or is still to be handed out. */
  ghost predicate Safe(w: World) {
    forall i: nat, page: nat :: MayHold(w, i, page) && MapsPage(page) ==>
      && page < w.nextPage && NoKernelPage(w, page)
      && forall j: nat :: MayHold(w, j, page) ==> j == i
  }

  lemma SafeIsIsolated(w: World)
    requires Safe(w)
    ensures Isolated(w)
  {
    hide NoKernelPage, InTable;
    forall i: nat, page: nat | InTable(w, i, page) && MapsPage(page)
      ensures NoKernelPage(w, page) && forall j: nat :: InTable(w, j, page) ==> j == i
    {
      assert MayHold(w, i, page);
      forall j: nat | InTable(w, j, page)
        ensures j == i
      {
        assert MayHold(w, j, page);
      }
    }
  }

  /** With pages handed to their holders only, a world is safe. */
  lemma TameIsSafe(w: World)
    requires Inv(w, OfProcess)
    ensures Safe(w)
  {
    hide InFrame, InTable;
    forall i: nat, page: nat | MayHold(w, i, page) && MapsPage(page)
      ensures page < w.nextPage && NoKernelPage(w, page) && forall j: nat :: MayHold(w, j, page) ==> j == i
    {
      HeldIsHanded(w, i, page);
      HandedIsNoStack(w, i, page);
      forall j: nat | MayHold(w, j, page)
        ensures j == i
      {
        HeldIsHanded(w, j, page);
      }
    }
  }

  lemma HeldIsHanded(w: World, i: nat, page: nat)
    requires Inv(w, OfProcess) && MayHold(w, i, page) && MapsPage(page)
    ensures IsProcess(w, i) && HandedTo(w.owner, i, page)
  {
    assert ProcInv(w, i, w.procs[i], OfProcess);
  }

  lemma HandedIsNoStack(w: World, i: nat, page: nat)
    requires Inv(w, OfProcess) && HandedTo(w.owner, i, page) && IsProcess(w, i)
    ensures page < w.nextPage && NoKernelPage(w, page)
  {
    hide Owned;
    forall j | 0 <= j < |w.procs|
      ensures w.procs[j].kind == UserProcess ==> page != w.procs[j].kstack
      ensures w.procs[j].kind == KernelThread && |w.procs[j].own.mem| == PAGES ==>
                page != w.procs[j].own.mem[STACK_PAGE]
    {
      assert ProcInv(w, j, w.procs[j], OfProcess);
    }
  }

  /** Over every run whose handlers return with pages of their own process, processes are isolated. */
  lemma Isolation(run: seq<World>, labels: seq<Label>, k: nat)
    requires TameRun(run, labels) && k < |run|
    ensures Isolated(run[k])
  {
    hide TameRun, Inv, Safe, Isolated;
    TameRunInv(run, labels, k);
    TameIsSafe(run[k]);
    SafeIsIsolated(run[k]);
  }

  /** Returning with saved tables is one way to do so. */
  lemma HonestIsTame(run: seq<World>, labels: seq<Label>)
    requires HonestRun(run, labels)
    ensures TameRun(run, labels)
  {
    hide Apply, Enabled, Inv;
    forall k | 0 <= k < |labels|
      ensures Tame(run[k], labels[k])
    {
      assert Saved(run[k], labels[k]);
      RunInv(run, labels, k);
      SavedIsTame(run[k], labels[k]);
    }
  }

  lemma SavedIsTame(w: World, l: Label)
    requires Inv(w, OfSlot) && Enabled(w, l) && Saved(w, l)
    ensures Tame(w, l)
  {
    if l.SignalReturn? {
      assert ProcInv(w, l.i, w.procs[l.i], OfSlot);
    }
  }

  // ---- Every continuation ----

  /** What may follow a world when handlers return with the tables the kernel saved. */
  ghost predicate Continues(w: World, run: seq<World>, labels: seq<Label>) {
    Steps(run, labels) && run[0] == w && forall i :: 0 <= i < |labels| ==> Saved(run[i], labels[i])
  }

  ghost predicate AlwaysIsolated(w: World) {
    forall run, labels, k :: Continues(w, run, labels) && 0 <= k < |run| ==> Isolated(run[k])
  }

  /** A step lets a process hold nothing new, except the next page when the step hands it out. */
  lemma MayHoldStep(w: World, l: Label, k: nat, page: nat)
    requires Inv(w, Anything) && Enabled(w, l) && Saved(w, l)
    requires MayHold(Apply(w, l), k, page) && MapsPage(page)
    ensures MayHold(w, k, page) || (page == w.nextPage < Apply(w, l).nextPage && Receives(w, l, k))
  {
    hide Enabled, Apply, Saved, InTable, InFrame, Inv;
    if InTable(Apply(w, l), k, page) {
      TableStep(w, l, k, page);
    } else {
      FrameStep(w, l, k, page);
    }
  }

  lemma TableStep(w: World, l: Label, k: nat, page: nat)
    requires Inv(w, Anything) && Enabled(w, l) && Saved(w, l) && InTable(Apply(w, l), k, page) && MapsPage(page)
    ensures MayHold(w, k, page) || (page == w.nextPage < Apply(w, l).nextPage && Receives(w, l, k))
  {
    hide Owned, Owns, OwnerInv;
    assert k < |w.procs| ==> ProcInv(w, k, w.procs[k], Anything);
    var q := Apply(w, l).procs[k];
    var s :| 0 <= s < |UserTables(q).mem| && UserTables(q).mem[s] == page;
    if k < |w.procs| && q != w.procs[k] && !l.SignalReturn? {
      assert s < |UserTables(w.procs[k]).mem|;
    }
  }

  lemma FrameStep(w: World, l: Label, k: nat, page: nat)
    requires Inv(w, Anything) && Enabled(w, l)
    requires IsProcess(Apply(w, l), k) && Apply(w, l).procs[k].status != Dead && InFrame(Apply(w, l).procs[k], page)
    ensures MayHold(w, k, page)
  {
    hide Owned, Owns, OwnerInv;
    assert k < |w.procs| ==> ProcInv(w, k, w.procs[k], Anything);
    var q := Apply(w, l).procs[k];
    var f :| f in q.frames && page in f.mem;
    assert f in w.procs[k].frames || f == UserTables(w.procs[k]);
  }

  predicate Receives(w: World, l: Label, k: nat) {
    match l
    case InitUserThread => k == |w.procs|
    case LoadData(i, _) => k == i
    case PgMap(i, _) => k == i
    case _ => false
  }

  /** Stacks stay, and new ones are new pages. */
  lemma NoKernelPageStep(w: World, l: Label, page: nat)
    requires Inv(w, Anything) && Enabled(w, l)
    requires (page < w.nextPage && NoKernelPage(w, page)) || (page == w.nextPage && exists k: nat :: Receives(w, l, k))
    ensures NoKernelPage(Apply(w, l), page)
  {
    hide Owned;
    assert forall j :: 0 <= j < |w.procs| ==> ProcInv(w, j, w.procs[j], Anything);
  }

  lemma SafeStep(w: World, l: Label)
    requires Inv(w, Anything) && Safe(w) && Enabled(w, l) && Saved(w, l)
    ensures Safe(Apply(w, l))
  {
    hide Inv, Enabled, Apply, Saved, MayHold, NoKernelPage;
    var w' := Apply(w, l);
    CounterStep(w, l);
    forall i: nat, page: nat | MayHold(w', i, page) && MapsPage(page)
      ensures page < w'.nextPage && NoKernelPage(w', page) && forall j: nat :: MayHold(w', j, page) ==> j == i
    {
      MayHoldStep(w, l, i, page);
      NoKernelPageStep(w, l, page);
      forall j: nat | MayHold(w', j, page)
        ensures j == i
      {
        MayHoldStep(w, l, j, page);
      }
    }
  }

  lemma CounterStep(w: World, l: Label)
    requires Enabled(w, l)
    ensures w.nextPage <= Apply(w, l).nextPage
  {}

  lemma {:induction false} SafeStays(w: World, run: seq<World>, labels: seq<Label>, k: nat)
    requires Inv(w, Anything) && Safe(w) && Continues(w, run, labels) && k < |run|
    ensures Safe(run[k])
    decreases k
  {
    hide Inv, Enabled, Apply, Saved, Safe;
    if k > 0 {
      SafeStays(w, run, labels, k - 1);
      StepsInv(run, labels, k - 1, Anything);
      SafeStep(run[k - 1], labels[k - 1]);
    }
  }

  // ---- What goes wrong otherwise ----

  lemma Continue(w: World, run: seq<World>, labels: seq<Label>, l: Label)
    returns (run': seq<World>, labels': seq<Label>)
    requires Continues(w, run, labels) && Enabled(run[|labels|], l) && Saved(run[|labels|], l)
    ensures Continues(w, run', labels') && labels' == labels + [l] && run' == run + [Apply(run[|labels|], l)]
  {
    run', labels' := Next(run, labels, l);
  }

  /** The worlds of a continuation in which only process `i` moves. */
  ghost predicate OnlyMoves(w: World, v: World, i: nat) {
    && i < |w.procs| == |v.procs| && v.nextPage == w.nextPage
    && v.procs[i].kind == w.procs[i].kind && v.procs[i].kstack == w.procs[i].kstack
    && forall j :: 0 <= j < |w.procs| && j != i ==> v.procs[j] == w.procs[j]
  }

  /** A process that can still return comes to a system call, its frames unchanged. */
  lemma ReachSyscall(w: World, run: seq<World>, labels: seq<Label>, i: nat)
    returns (run': seq<World>, labels': seq<Label>)
    requires Continues(w, run, labels) && Inv(run[|labels|], Anything)
    requires IsProcess(run[|labels|], i) && run[|labels|].procs[i].status != Dead
    ensures Continues(w, run', labels') && OnlyMoves(run[|labels|], run'[|labels'|], i)
    ensures IsUser(run'[|labels'|], i, Syscall) && run'[|labels'|].procs[i].swapped
    ensures run'[|labels'|].procs[i].frames == run[|labels|].procs[i].frames
  {
    run', labels' := run, labels;
    assert ProcInv(run[|labels|], i, run[|labels|].procs[i], Anything);
    if run'[|labels'|].procs[i].status == Unloaded {
      run', labels' := Continue(w, run', labels', Start(i));
    }
    if run'[|labels'|].procs[i].status == Runnable {
      run', labels' := Continue(w, run', labels', SyscallEntry(i));
    } else if run'[|labels'|].procs[i].status == SyscallBlocked {
      run', labels' := Continue(w, run', labels', Unblock(i));
    }
  }

  /** What a process may hold it can come to hold while all others stand still. */
  lemma ComesToHold(w: World, run: seq<World>, labels: seq<Label>, i: nat, page: nat)
    returns (run': seq<World>, labels': seq<Label>)
    requires Continues(w, run, labels) && Inv(run[|labels|], Anything) && MayHold(run[|labels|], i, page)
    ensures Continues(w, run', labels') && OnlyMoves(run[|labels|], run'[|labels'|], i)
    ensures InTable(run'[|labels'|], i, page)
  {
    run', labels' := run, labels;
    if !InTable(run[|labels|], i, page) {
      var f :| f in run[|labels|].procs[i].frames && page in f.mem;
      assert Sized(f) by {
        assert ProcInv(run[|labels|], i, run[|labels|].procs[i], Anything);
      }
      run', labels' := ReachSyscall(w, run, labels, i);
      var v, n := run'[|labels'|], |labels'|;
      run', labels' := Continue(w, run', labels', SignalReturn(i, f));
      ReturnHolds(v, i, f, page);
      assert run'[n + 1] == Apply(v, SignalReturn(i, f));
    }
  }

  lemma ReturnHolds(v: World, i: nat, f: Tables, page: nat)
    requires IsUser(v, i, Syscall) && v.procs[i].swapped && Sized(f) && page in f.mem
    ensures OnlyMoves(v, Apply(v, SignalReturn(i, f)), i) && InTable(Apply(v, SignalReturn(i, f)), i, page)
  {}

  /** New processes are made until `page` has been handed to one of them. */
  lemma {:induction false} HandOutUntil(w: World, run: seq<World>, labels: seq<Label>, i: nat, page: nat)
    returns (run': seq<World>, labels': seq<Label>)
    requires Continues(w, run, labels) && InTable(run[|labels|], i, page) && page >= run[|labels|].nextPage
    ensures Continues(w, run', labels') && InTable(run'[|labels'|], i, page)
    ensures exists j: nat :: j != i && IsProcess(run'[|labels'|], j)
              && (run'[|labels'|].procs[j].kstack == page || InTable(run'[|labels'|], j, page))
    decreases page - run[|labels|].nextPage
  {
    var v, n := run[|labels|], |run[|labels|].procs|;
    run', labels' := Continue(w, run, labels, InitUserThread);
    var v' := run'[|labels'|];
    assert v'.procs[i] == v.procs[i] && InTable(v', i, page);
    if page >= v'.nextPage {
      run', labels' := HandOutUntil(w, run', labels', i, page);
    } else {
      assert UserTables(v'.procs[n]).mem[STACK_PAGE] == v.nextPage && v'.procs[n].kstack == v.nextPage + 1;
      assert IsProcess(v', n);
    }
  }

  /** From a world that is not safe, some continuation leads to one that is not isolated. */
  lemma UnsafeBreaks(w: World) returns (run: seq<World>, labels: seq<Label>)
    requires Inv(w, Anything) && !Safe(w)
    ensures Continues(w, run, labels) && !Isolated(run[|labels|])
  {
    hide Inv, MayHold, InTable;
    var i: nat, page: nat :| MayHold(w, i, page) && MapsPage(page)
      && !(page < w.nextPage && NoKernelPage(w, page) && forall j: nat :: MayHold(w, j, page) ==> j == i);
    run, labels := [w], [];
    run, labels := ComesToHold(w, run, labels, i, page);
    var v := run[|labels|];
    if page >= w.nextPage {
      run, labels := HandOutUntil(w, run, labels, i, page);
      HolderOrStack(run[|labels|], i, page);
    } else if !NoKernelPage(w, page) {
      HolderIsProcess(w, i, page);
      SameKernelPages(w, v, i, page);
    } else {
      var j: nat :| MayHold(w, j, page) && j != i;
      MayHoldOthers(w, v, i, j, page);
      StepsInv(run, labels, |labels|, Anything);
      run, labels := ComesToHold(w, run, labels, j, page);
      TableOfOther(v, run[|labels|], j, i, page);
    }
  }

  lemma HolderOrStack(v: World, i: nat, page: nat)
    requires InTable(v, i, page) && MapsPage(page)
    requires exists j: nat :: j != i && IsProcess(v, j) && (v.procs[j].kstack == page || InTable(v, j, page))
    ensures !Isolated(v)
  {
    hide UserTables;
  }

  lemma SameKernelPages(w: World, v: World, i: nat, page: nat)
    requires IsProcess(w, i) && OnlyMoves(w, v, i)
    ensures NoKernelPage(v, page) <==> NoKernelPage(w, page)
  {
    forall j | 0 <= j < |w.procs|
      ensures v.procs[j].kind == w.procs[j].kind && v.procs[j].kstack == w.procs[j].kstack
      ensures w.procs[j].kind == KernelThread ==> v.procs[j] == w.procs[j]
    {
    }
  }

  lemma HolderIsProcess(w: World, i: nat, page: nat)
    requires MayHold(w, i, page)
    ensures IsProcess(w, i)
  {}

  lemma MayHoldOthers(w: World, v: World, i: nat, j: nat, page: nat)
    requires OnlyMoves(w, v, i) && j != i && MayHold(w, j, page)
    ensures MayHold(v, j, page)
  {}

  lemma TableOfOther(w: World, v: World, i: nat, j: nat, page: nat)
    requires OnlyMoves(w, v, i) && j != i && InTable(w, j, page)
    ensures InTable(v, j, page)
  {}

  /** A world stays isolated for good if and only if it is safe. */
  lemma AlwaysIsolatedIff(w: World)
    requires Inv(w, Anything)
    ensures AlwaysIsolated(w) <==> Safe(w)
  {
    hide Inv, Safe, Isolated, Continues;
    if Safe(w) {
      forall run, labels, k | Continues(w, run, labels) && 0 <= k < |run|
        ensures Isolated(run[k])
      {
        SafeStays(w, run, labels, k);
        SafeIsIsolated(run[k]);
      }
    } else {
      var run, labels := UnsafeBreaks(w);
      ContinuesLength(w, run, labels);
      assert !Isolated(run[|labels|]);
    }
  }

  lemma ContinuesLength(w: World, run: seq<World>, labels: seq<Label>)
    requires Continues(w, run, labels)
    ensures |run| == |labels| + 1
  {}

  // ---- What a return may install ----

  /**
   * The page was handed to a slot of process `i`, or to one of another process that holds it neither in its
   * table nor in a frame to which it can still return.
   */
  ghost predicate MayInstall(w: World, i: nat, page: nat) {
    && FIRST_PAGE <= page < FIRST_PAGE + |w.owner|
    && var o := w.owner[page - FIRST_PAGE];
    && o.slot < KERNEL_STACK && IsProcess(w, o.i)
    && (o.i == i || !MayHold(w, o.i, page))
  }

  lemma InstallFacts(w: World, i: nat, tables: Tables, page: nat)
    requires Inv(w, OfProcess) && Enabled(w, SignalReturn(i, tables)) && MapsPage(page)
    ensures var w' := Apply(w, SignalReturn(i, tables));
            && w'.nextPage == w.nextPage && (NoKernelPage(w', page) <==> NoKernelPage(w, page))
            && (forall j: nat :: j != i ==> (MayHold(w', j, page) <==> MayHold(w, j, page)))
            && (page in tables.mem ==> MayHold(w', i, page))
            && (MayHold(w', i, page) ==> page in tables.mem || MayHold(w, i, page))
  {
    hide Owned, OwnerInv, NoKernelPage;
    assert ProcInv(w, i, w.procs[i], OfProcess);
    SameKernelPages(w, Apply(w, SignalReturn(i, tables)), i, page);
  }

  /** A page that may be installed is nobody else's to hold, and no stack. */
  lemma MayInstallIff(w: World, i: nat, page: nat)
    requires Inv(w, OfProcess) && IsProcess(w, i) && MapsPage(page)
    ensures MayInstall(w, i, page) <==>
            && page < w.nextPage && NoKernelPage(w, page)
            && forall j: nat :: MayHold(w, j, page) ==> j == i
  {
    hide MayHold, Owned, ProcInv;
    if FIRST_PAGE <= page < w.nextPage {
      var o := w.owner[page - FIRST_PAGE];
      assert OwnerInv(w, page - FIRST_PAGE);
      if o.slot < KERNEL_STACK && IsProcess(w, o.i) {
        HandedIsNoStack(w, o.i, page);
        forall j: nat | MayHold(w, j, page)
          ensures j == o.i
        {
          HeldIsHanded(w, j, page);
        }
      }
    }
  }

  /**
   * After a handler's return at any reachable world, every continuation keeps processes isolated if and only
   * if each mapped entry of the table it installs is one it may install. Nothing in the kernel makes sure.
   */
  lemma ReturnIsolatesIff(run: seq<World>, labels: seq<Label>, k: nat, i: nat, tables: Tables)
    requires TameRun(run, labels) && k < |run| && Enabled(run[k], SignalReturn(i, tables))
    ensures AlwaysIsolated(Apply(run[k], SignalReturn(i, tables)))
            <==> forall page <- tables.mem :: MapsPage(page) ==> MayInstall(run[k], i, page)
  {
    hide TameRun, Inv, Apply, MayHold, NoKernelPage, MayInstall, AlwaysIsolated;
    var w, w' := run[k], Apply(run[k], SignalReturn(i, tables));
    TameRunInv(run, labels, k);
    Weaken(w);
    StepInv(w, SignalReturn(i, tables), Anything);
    AlwaysIsolatedIff(w');
    TameIsSafe(w);
    forall page: nat | MapsPage(page)
      ensures page in tables.mem ==>
                (MayInstall(w, i, page) <==>
                 page < w.nextPage && NoKernelPage(w, page) && forall j: nat :: MayHold(w, j, page) ==> j == i)
    {
      MayInstallIff(w, i, page);
    }
    ReturnSafeIff(w, i, tables);
  }

  lemma Weaken(w: World)
    requires Inv(w, OfProcess)
    ensures Inv(w, Anything)
  {
    forall i | 0 <= i < |w.procs|
      ensures ProcInv(w, i, w.procs[i], Anything)
    {
      assert ProcInv(w, i, w.procs[i], OfProcess);
    }
  }

  lemma ReturnSafeIff(w: World, i: nat, tables: Tables)
    requires Inv(w, OfProcess) && Enabled(w, SignalReturn(i, tables))
    ensures Safe(Apply(w, SignalReturn(i, tables)))
            <==> forall page <- tables.mem :: MapsPage(page) ==>
                   page < w.nextPage && NoKernelPage(w, page) && forall j: nat :: MayHold(w, j, page) ==> j == i
  {
    hide Inv, Apply, MayHold, NoKernelPage;
    var w' := Apply(w, SignalReturn(i, tables));
    TameIsSafe(w);
    forall page: nat | MapsPage(page)
      ensures w'.nextPage == w.nextPage && (NoKernelPage(w', page) <==> NoKernelPage(w, page))
      ensures forall j: nat :: j != i ==> (MayHold(w', j, page) <==> MayHold(w, j, page))
      ensures page in tables.mem ==> MayHold(w', i, page)
      ensures MayHold(w', i, page) ==> page in tables.mem || MayHold(w, i, page)
    {
      InstallFacts(w, i, tables, page);
    }
  }

  /** With another process's page in its table, a process shares a byte with it at once. */
  lemma UnsavedTablesShare() returns (run: seq<World>, labels: seq<Label>)
    ensures Run(run, labels) && |labels| == 5 && labels[4].SignalReturn? && !Tame(run[4], labels[4])
    ensures IsProcess(run[5], 0) && IsProcess(run[5], 1)
    ensures Sized(UserTables(run[5].procs[0])) && Sized(UserTables(run[5].procs[1]))
    ensures MapsPage(UserTables(run[5].procs[0]).mem[STACK_PAGE])
    ensures Translate(UserTables(run[5].procs[0]).mem, 0xf000) == Translate(UserTables(run[5].procs[1]).mem, 0)
  {
    var tables := Tables(Blank()[0 := FIRST_PAGE], Blank());
    run, labels := [Boot()], [];
    run, labels := Next(run, labels, InitUserThread);
    run, labels := Next(run, labels, InitUserThread);
    run, labels := Next(run, labels, Start(1));
    run, labels := Next(run, labels, SyscallEntry(1));
    run, labels := Next(run, labels, SignalReturn(1, tables));
    assert tables.mem[0] == FIRST_PAGE;
  }
}
