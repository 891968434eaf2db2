/** Whole runs of a message queue: what holds in every interleaving of any number of callers. */
module MessageQueueRuns {
  import opened Machine
  import opened Counting
  import opened MessageQueue

  ghost predicate Run(run: seq<Queue>, labels: seq<Label>) {
    && |run| == |labels| + 1 && Init(run[0])
    && forall k :: 0 <= k < |labels| ==> Enabled(run[k], labels[k]) && run[k + 1] == Apply(run[k], labels[k])
  }

  lemma {:induction false} RunInv(run: seq<Queue>, labels: seq<Label>, k: nat)
    requires Run(run, labels) && k < |run|
    ensures Inv(run[k])
  {
    if k == 0 {
      InitInv(run[0]);
    } else {
      hide Inv, Enabled, Apply;
      RunInv(run, labels, k - 1);
      StepInv(run[k - 1], labels[k - 1]);
    }
  }

  /** `mq.first` is never null when a popper reads or removes it. */
  lemma FirstIsNeverNull(run: seq<Queue>, labels: seq<Label>, k: nat, i: nat)
    requires Run(run, labels) && k < |run| && i < |run[k].threads|
    ensures run[k].threads[i] != Crashed
    ensures run[k].threads[i].Busy? && run[k].threads[i].phase in {Read, Remove} ==> run[k].list != []
  {
    hide Run;
    RunInv(run, labels, k);
    assert ThreadInv(run[k], i);
    if Claims(run[k].threads[i]) == 1 {
      PopperFindsMessage(run[k], i);
    }
  }

  /** The list holds what is announced, what poppers have claimed and what a pusher still owes. */
  lemma ListIsAccountedFor(run: seq<Queue>, labels: seq<Label>, k: nat)
    requires Run(run, labels) && k < |run|
    ensures |run[k].list|
            == run[k].dataAvailable + Total(run[k].threads, Claims) + Total(run[k].threads, Owes)
    ensures run[k].dataAvailable >= 0
  {
    hide Run;
    RunInv(run, labels, k);
  }

  /** Whenever the lock is free, `len` is the length of the list. */
  lemma LenIsExact(run: seq<Queue>, labels: seq<Label>, k: nat)
    requires Run(run, labels) && k < |run| && run[k].lock > 0
    ensures run[k].len == |run[k].list|
  {
    hide Run;
    RunInv(run, labels, k);
    var q := run[k];
    forall t | t in q.threads
      ensures Lag(t) == 0
    {
      var j :| 0 <= j < |q.threads| && q.threads[j] == t;
      TotalBounds(q.threads, j, Holds);
    }
    TotalZero(q.threads, Lag);
  }

  /** Messages leave in the order they entered. */
  lemma PushOrder(run: seq<Queue>, labels: seq<Label>, k: nat)
    requires Run(run, labels) && k < |run|
    ensures run[k].removed <= run[k].appended
    ensures run[k].removed + run[k].list == run[k].appended
  {
    hide Run;
    RunInv(run, labels, k);
  }

  /** Some active caller can move, unless all of them are poppers waiting on an empty list. */
  lemma NoDeadlock(run: seq<Queue>, labels: seq<Label>, k: nat)
    requires Run(run, labels) && k < |run|
    requires exists t <- run[k].threads :: t.Busy?
    ensures || (exists i :: Enabled(run[k], Go(i)))
            || (run[k].list == []
                && forall t <- run[k].threads :: t.Busy? ==> t.pop && t.phase == DownData)
  {
    hide Run;
    RunInv(run, labels, k);
    var q := run[k];
    if forall i :: !Enabled(q, Go(i)) {
      hide Inv;
      forall t | t in q.threads && t.Busy?
        ensures t.pop && t.phase == DownData
      {
        var j :| 0 <= j < |q.threads| && q.threads[j] == t;
        StuckThread(q, j);
      }
      NothingWaits(q);
    }
  }

  lemma HolderCanMove(q: Queue) returns (h: nat)
    requires Inv(q) && q.lock == 0
    ensures Enabled(q, Go(h))
  {
    hide Total;
    h := TotalWitness(q.threads, Holds);
    assert ThreadInv(q, h);
  }

  lemma StuckThread(q: Queue, j: nat)
    requires Inv(q) && j < |q.threads| && q.threads[j].Busy?
    requires forall i :: !Enabled(q, Go(i))
    ensures q.threads[j].pop && q.threads[j].phase == DownData && q.dataAvailable == 0
  {
    assert !Enabled(q, Go(j)) && ThreadInv(q, j) && q.lock >= 0 && q.dataAvailable >= 0;
    hide Inv, ThreadInv;
    if q.lock == 0 {
      var h := HolderCanMove(q);
      assert false;
    }
  }

  lemma NothingWaits(q: Queue)
    requires Inv(q)
    requires forall i :: !Enabled(q, Go(i))
    requires exists t <- q.threads :: t.Busy?
    ensures q.list == []
  {
    forall t | t in q.threads
      ensures Claims(t) == 0 && Owes(t) == 0
      ensures t.Busy? ==> q.dataAvailable == 0
    {
      var j :| 0 <= j < |q.threads| && q.threads[j] == t;
      if t.Busy? {
        StuckThread(q, j);
      }
    }
    TotalZero(q.threads, Claims);
    TotalZero(q.threads, Owes);
  }

  // ---- Which messages, told from the labels ----

  /** The messages given to push calls. */
  ghost function Given(labels: seq<Label>): multiset<int> {
    if labels == [] then multiset{} else Given(labels[..|labels| - 1]) + GivenBy(labels[|labels| - 1])
  }

  /** The last call of thread `i`, */
  function LastStart(labels: seq<Label>, i: nat): (l: Option<Label>)
    ensures l.Some? ==> !l.value.Go?
  {
    if labels == [] then None
    else
      var l := labels[|labels| - 1];
      if l.i == i && !l.Go? then Some(l) else LastStart(labels[..|labels| - 1], i)
  }

  /** and the steps it has taken since. */
  function StepsSince(labels: seq<Label>, i: nat): nat {
    if labels == [] then 0
    else
      var l := labels[|labels| - 1];
      if l.i != i then StepsSince(labels[..|labels| - 1], i)
      else if l.Go? then StepsSince(labels[..|labels| - 1], i) + 1
      else 0
  }

  /** The message of a pusher that has not appended it yet. */
  predicate Carries(t: Thread) {
    t.Busy? && !t.pop && (t.phase == DownLock || t.phase == Append)
  }

  function Carried(t: Thread): multiset<int> {
    if Carries(t) then multiset{t.msg} else multiset{}
  }

  /** No message is lost, made up or changed: what was given has been appended or is in a pusher's hand. */
  lemma {:induction false} MessagesConserved(run: seq<Queue>, labels: seq<Label>, k: nat)
    requires Run(run, labels) && k < |run|
    ensures multiset(run[k].appended) + Gather(run[k].threads, Carried) == Given(labels[..k])
  {
    hide Run, Inv, Enabled, Apply, Gather, Carried, GivenBy;
    if k == 0 {
      NothingAtStart(run, labels);
    } else {
      StepOf(run, labels, k - 1);
      MessagesConserved(run, labels, k - 1);
      assert labels[..k][..k - 1] == labels[..k - 1];
      StepConserves(run[k - 1], labels[k - 1]);
    }
  }

  lemma NothingAtStart(run: seq<Queue>, labels: seq<Label>)
    requires Run(run, labels)
    ensures run[0].appended == [] && Gather(run[0].threads, Carried) == multiset{}
  {
    GatherNone(run[0].threads, Carried);
  }

  lemma StepOf(run: seq<Queue>, labels: seq<Label>, k: nat)
    requires Run(run, labels) && k + 1 < |run|
    ensures k < |labels| && Inv(run[k]) && Enabled(run[k], labels[k]) && run[k + 1] == Apply(run[k], labels[k])
  {
    hide Inv, Enabled, Apply;
    RunInv(run, labels, k);
  }

  ghost function GivenBy(l: Label): multiset<int> {
    if l.StartPush? then multiset{l.msg} else multiset{}
  }

  lemma StepConserves(q: Queue, l: Label)
    requires Inv(q) && Enabled(q, l)
    ensures multiset(Apply(q, l).appended) + Gather(Apply(q, l).threads, Carried)
            == multiset(q.appended) + Gather(q.threads, Carried) + GivenBy(l)
  {
    hide Inv, Enabled, Apply, Gather, Carried, GivenBy;
    var n := Apply(q, l);
    ThreadHandsOver(q, l);
    GatherUpdate(q.threads, l.i, n.threads[l.i], Carried);
    Balance(multiset(q.appended), multiset(n.appended), Gather(q.threads, Carried), Gather(n.threads, Carried),
            Carried(q.threads[l.i]), Carried(n.threads[l.i]), GivenBy(l));
  }

  /** What the moving thread lets go of is appended. */
  lemma ThreadHandsOver(q: Queue, l: Label)
    requires Inv(q) && Enabled(q, l)
    ensures var n, i := Apply(q, l), l.i;
            && i < |q.threads| == |n.threads| && n.threads == q.threads[i := n.threads[i]]
            && multiset(n.appended) + Carried(n.threads[i])
               == multiset(q.appended) + Carried(q.threads[i]) + GivenBy(l)
  {
    hide Inv, Enabled, Apply;
    ThreadMoves(q, l);
    if l.Go? && Carries(q.threads[l.i]) != Carries(Apply(q, l).threads[l.i]) {
      assert multiset(Apply(q, l).appended) == multiset(q.appended) + multiset{q.threads[l.i].msg};
    }
  }

  lemma ThreadMoves(q: Queue, l: Label)
    requires Inv(q) && Enabled(q, l)
    ensures var n, i := Apply(q, l), l.i;
            && i < |q.threads| == |n.threads| && n.threads == q.threads[i := n.threads[i]]
            && (l.StartPush? ==>
                  && !Carries(q.threads[i]) && Carries(n.threads[i])
                  && n.threads[i].msg == l.msg && n.appended == q.appended)
            && (l.StartPop? ==> !Carries(q.threads[i]) && !Carries(n.threads[i]) && n.appended == q.appended)
            && (l.Go? ==>
                  || (&& Carries(n.threads[i]) == Carries(q.threads[i]) && n.appended == q.appended
                      && (Carries(q.threads[i]) ==> n.threads[i].msg == q.threads[i].msg))
                  || (&& Carries(q.threads[i]) && !Carries(n.threads[i])
                      && n.appended == q.appended + [q.threads[i].msg]))
  {
    hide Total;
    assert ThreadInv(q, l.i);
  }

  /** The steps of a call: five for a push, six for a pop. */
  function CallSteps(pop: bool): nat {
    if pop then 6 else 5
  }

  /** How many of them thread `t` has still to take. */
  function Left(t: Thread): nat {
    match t
    case Idle => 0
    case Crashed => 0
    case Busy(pop, phase, _) =>
      match phase
      case DownData => 6
      case DownLock => 5
      case Append => 4
      case Read => 4
      case UpData => 3
      case Remove => 3
      case Count => 2
      case UpLock => 1
  }

  /**
   * A thread is inside a call exactly until it has taken the call's steps, and while it is, it is in its last
   * call and, if that is a push, carries its message.
   */
  lemma {:induction false} ThreadFollowsItsCall(run: seq<Queue>, labels: seq<Label>, k: nat, i: nat)
    requires Run(run, labels) && k < |run| && i < |run[k].threads|
    ensures var t, last, steps := run[k].threads[i], LastStart(labels[..k], i), StepsSince(labels[..k], i);
            && (t.Busy? <==> last.Some? && steps < CallSteps(last.value.StartPop?))
            && (t.Busy? ==>
                  && t.pop == last.value.StartPop? && steps + Left(t) == CallSteps(t.pop)
                  && (!t.pop ==> t.msg == last.value.msg))
  {
    if k == 0 {
      IdleAtStart(run[0], i);
    } else {
      hide Inv;
      RunInv(run, labels, k - 1);
      StepKeepsThreads(run[k - 1], labels[k - 1], i);
      ThreadFollowsItsCall(run, labels, k - 1, i);
      assert labels[..k][..k - 1] == labels[..k - 1];
    }
  }

  lemma StepKeepsThreads(q: Queue, l: Label, i: nat)
    requires Inv(q) && Enabled(q, l) && i < |Apply(q, l).threads|
    ensures i < |q.threads|
    ensures l.i != i ==> Apply(q, l).threads[i] == q.threads[i]
    ensures l.i == i && l.Go? ==>
              && q.threads[i].Busy? && Left(Apply(q, l).threads[i]) == Left(q.threads[i]) - 1
              && (Apply(q, l).threads[i].Busy? <==> Left(q.threads[i]) > 1)
              && (Apply(q, l).threads[i].Busy? ==>
                    && Apply(q, l).threads[i].pop == q.threads[i].pop
                    && (!q.threads[i].pop ==> Apply(q, l).threads[i].msg == q.threads[i].msg))
  {
    hide Total;
    if l.i == i {
      assert ThreadInv(q, i);
      if Claims(q.threads[i]) == 1 {
        PopperFindsMessage(q, i);
      }
    }
  }

  /** The message a step appends is the one its thread's last call was given; no other step appends. */
  lemma AppendsWhatWasGiven(run: seq<Queue>, labels: seq<Label>, k: nat)
    requires Run(run, labels) && k < |labels|
    ensures var i := labels[k].i;
            && i < |run[k].threads|
            && if labels[k].Go? && run[k].threads[i].phase == Append then
                 && LastStart(labels[..k], i).Some? && LastStart(labels[..k], i).value.StartPush?
                 && run[k + 1].appended == run[k].appended + [LastStart(labels[..k], i).value.msg]
                 && run[k + 1].list == run[k].list + [LastStart(labels[..k], i).value.msg]
               else
                 run[k + 1].appended == run[k].appended
  {
    hide Inv, Left;
    RunInv(run, labels, k);
    ThreadFollowsItsCall(run, labels, k, labels[k].i);
    ThreadPhase(run[k], labels[k].i);
  }

  lemma ThreadPhase(q: Queue, i: nat)
    requires Inv(q) && i < |q.threads|
    ensures q.threads[i].Busy? && q.threads[i].phase == Append ==> !q.threads[i].pop
  {
    assert ThreadInv(q, i);
  }

  /** A popper that is about to return holds the message that it removed, the front one at that moment. */
  lemma {:induction false} PopReturnsWhatItRemoved(run: seq<Queue>, labels: seq<Label>, k: nat, i: nat)
    requires Run(run, labels) && k < |run| && i < |run[k].threads|
    requires run[k].threads[i].Busy? && run[k].threads[i].pop && run[k].threads[i].phase in {Count, UpLock}
    ensures run[k].removed != [] && run[k].threads[i].msg == run[k].removed[|run[k].removed| - 1]
    decreases k
  {
    if k == 0 {
      IdleAtStart(run[0], i);
      assert false;
    }
    RunInv(run, labels, k - 1);
    RunInv(run, labels, k);
    var q, l := run[k - 1], labels[k - 1];
    hide Inv;
    StepKeepsThreads(q, l, i);
    if l.i != i {
      PopReturnsWhatItRemoved(run, labels, k - 1, i);
      OnlyHolderRemoves(q, l, i);
    } else {
      RemoveStep(q, l, i);
      if run[k].threads[i].phase == UpLock {
        PopReturnsWhatItRemoved(run, labels, k - 1, i);
      }
    }
  }

  lemma IdleAtStart(q: Queue, i: nat)
    requires Init(q) && i < |q.threads|
    ensures q.threads[i] == Idle
  {
    assert q.threads[i] in q.threads;
  }

  lemma RemoveStep(q: Queue, l: Label, i: nat)
    requires Inv(q) && Enabled(q, l) && l.i == i < |q.threads|
    requires var t := Apply(q, l).threads[i]; t.Busy? && t.pop && t.phase in {Count, UpLock}
    ensures var t, n := Apply(q, l).threads[i], Apply(q, l);
            && (t.phase == Count ==> n.removed == q.removed + [t.msg] && q.list != [] && t.msg == q.list[0])
            && (t.phase == UpLock ==>
                  && q.threads[i].Busy? && q.threads[i].pop && q.threads[i].phase == Count
                  && q.threads[i].msg == t.msg && n.removed == q.removed)
  {
    hide Total;
    assert ThreadInv(q, i);
  }

  lemma OnlyHolderRemoves(q: Queue, l: Label, i: nat)
    requires Inv(q) && Enabled(q, l) && l.i != i < |q.threads| && Holds(q.threads[i]) == 1
    ensures Apply(q, l).removed == q.removed
  {
    hide Total;
    if l.Go? && q.threads[l.i].phase == Remove {
      if i < l.i {
        TotalPair(q.threads, i, l.i, Holds);
      } else {
        TotalPair(q.threads, l.i, i, Holds);
      }
      TotalNonNegative(q.threads, Holds);
      assert false;
    }
  }
}
