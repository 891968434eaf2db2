/** Whole runs of the blocking queue: what holds in every interleaving of any number of threads. */
module BlockQueueRuns {
  import opened Counting
  import opened RingBuff
  import opened BlockQueue

  ghost predicate Run(run: seq<Queue>, labels: seq<Label>) {
    && |run| == |labels| + 1 && Init(run[0])
    && forall i :: 0 <= i < |labels| && Shape(run[i]) ==>
         Enabled(run[i], labels[i]) && run[i + 1] == Apply(run[i], labels[i])
  }

  lemma {:induction false} RunInv(run: seq<Queue>, labels: seq<Label>, k: nat)
    requires Run(run, labels) && k < |run|
    ensures Inv(run[k])
  {
    hide Capacity, Enabled, Apply, Tokens, ThreadInv, Total;
    if k == 0 {
      InitInv(run[0]);
    } else {
      RunInv(run, labels, k - 1);
      StepInv(run[k - 1], labels[k - 1]);
    }
  }

  /** In every interleaving, no ASSERT of push or pop stops a thread and no unlock is refused. */
  lemma NoAssertFails(run: seq<Queue>, labels: seq<Label>, k: nat, i: nat)
    requires Run(run, labels) && k < |run| && i < |run[k].threads|
    ensures run[k].threads[i] != Failed && run[k].threads[i] != Refused
  {
    RunInv(run, labels, k);
    assert ThreadInv(run[k], i);
  }

  /** Tokens are neither made nor lost: free slots, records and operations in flight add up. */
  lemma TokensConserved(run: seq<Queue>, labels: seq<Label>, k: nat)
    requires Run(run, labels) && k < |run|
    ensures var q := run[k];
            && q.notFull >= 0 && q.notEmpty >= 0
            && q.notFull + q.notEmpty
               + (Total(q.threads, PushBefore) + Total(q.threads, PushAfter))
               + (Total(q.threads, PopBefore) + Total(q.threads, PopAfter)) == q.maxSize
  {
    hide Capacity, ThreadInv;
    RunInv(run, labels, k);
  }

  /** Whenever the lock is free the ring holds exactly the waiting records, `size` of them. */
  lemma RingHoldsWholeRecords(run: seq<Queue>, labels: seq<Label>, k: nat)
    requires Run(run, labels) && k < |run| && !run[k].locked
    ensures var q := run[k];
            && Shape(q)
            && q.ring.Contents() == Flatten(Waiting(q))
            && q.size == |Waiting(q)|
            && |q.ring.Contents()| == Capacity(q.size, q.baseSize)
  {
    hide Capacity, Ring.Contents, ThreadInv;
    RunInv(run, labels, k);
    var q := run[k];
    forall t | t in q.threads
      ensures Holds(t) == 0
    {
      var j :| 0 <= j < |q.threads| && q.threads[j] == t;
      TotalBounds(q.threads, j, Holds);
    }
    TotalZero(q.threads, InTransfer);
    TotalZero(q.threads, SizeLag);
    FlattenLength(Waiting(q), q.baseSize);
  }

  /** First in, first out: the records popped so far are a prefix of the records pushed. */
  lemma Fifo(run: seq<Queue>, labels: seq<Label>, k: nat)
    requires Run(run, labels) && k < |run|
    ensures run[k].popped <= run[k].pushed
    ensures |run[k].pushed| - |run[k].popped| <= run[k].maxSize
  {
    hide Capacity, ThreadInv, Ring.Contents;
    RunInv(run, labels, k);
    var q := run[k];
    TotalNonNegative(q.threads, PushBefore);
    TotalNonNegative(q.threads, PopAfter);
  }

  /** The spinlock is exclusive: two threads are never both between acquiring and releasing it. */
  lemma MutualExclusion(run: seq<Queue>, labels: seq<Label>, k: nat, i: nat, j: nat)
    requires Run(run, labels) && k < |run| && i < j < |run[k].threads|
    ensures Holds(run[k].threads[i]) + Holds(run[k].threads[j]) <= 1
  {
    hide Capacity, ThreadInv, Ring.Contents;
    RunInv(run, labels, k);
    TotalPair(run[k].threads, i, j, Holds);
  }

  /** All threads inside an operation are waiting for their first semaphore in operation `op`. */
  ghost predicate AllWaitIn(q: Queue, op: Op) {
    forall t <- q.threads :: t.Busy? ==> t.op == op && t.phase == Down
  }

  /**
   * No deadlock: while any thread is inside an operation some thread can move, unless every active
   * thread is a pusher waiting on a full queue or every one is a popper waiting on an empty queue.
   */
  lemma NoDeadlock(run: seq<Queue>, labels: seq<Label>, k: nat)
    requires Run(run, labels) && k < |run| && run[k].maxSize > 0
    requires exists t <- run[k].threads :: t.Busy?
    ensures var q := run[k];
            && Shape(q)
            && (|| (exists i :: Enabled(q, Go(i)))
                || (AllWaitIn(q, Push) && |Waiting(q)| == q.maxSize)
                || (AllWaitIn(q, Pop) && Waiting(q) == []))
  {
    hide Capacity, Ring.Contents, ThreadInv;
    RunInv(run, labels, k);
    var q := run[k];
    if !exists i :: Enabled(q, Go(i)) {
      forall t | t in q.threads
        ensures t.Busy? ==> t.phase == Down
        ensures PushBefore(t) == PushAfter(t) == PopBefore(t) == PopAfter(t) == 0
      {
        var j :| 0 <= j < |q.threads| && q.threads[j] == t;
        if t.Busy? {
          StuckThread(q, j);
        }
      }
      TotalZero(q.threads, PushBefore);
      TotalZero(q.threads, PushAfter);
      TotalZero(q.threads, PopBefore);
      TotalZero(q.threads, PopAfter);
      forall t | t in q.threads && t.Busy?
        ensures if t.op == Push then q.notFull == 0 else q.notEmpty == 0
      {
        var j :| 0 <= j < |q.threads| && q.threads[j] == t;
        assert !Enabled(q, Go(j));
      }
    }
  }

  /** Whoever has the lock can move. */
  lemma HolderCanMove(q: Queue) returns (h: nat)
    requires Inv(q) && q.locked
    ensures Enabled(q, Go(h))
  {
    hide Capacity, Ring.Contents, Shape;
    h := TotalWitness(q.threads, Holds);
    assert ThreadInv(q, h);
  }

  lemma StuckThread(q: Queue, j: nat)
    requires Inv(q) && j < |q.threads| && q.threads[j].Busy?
    requires forall i :: !Enabled(q, Go(i))
    ensures q.threads[j].phase == Down
  {
    hide Inv;
    assert !Enabled(q, Go(j));
    if q.locked {
      var h := HolderCanMove(q);
      assert false;
    }
  }
}
