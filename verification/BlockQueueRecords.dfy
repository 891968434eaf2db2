/** Which records go through the blocking queue, told from the calls alone, and how long a call takes. */
module BlockQueueRecords {
  import opened Machine
  import opened Counting
  import opened RingBuff
  import opened BlockQueue
  import opened BlockQueueRuns

  ghost function GivenBy(l: Label): multiset<Record> {
    if l.Start? && l.op == Push then multiset{l.record} else multiset{}
  }

  /** The records given to push calls. */
  ghost function Given(labels: seq<Label>): multiset<Record> {
    if labels == [] then multiset{} else Given(labels[..|labels| - 1]) + GivenBy(labels[|labels| - 1])
  }

  /** The last call of thread `i`, */
  function LastStart(labels: seq<Label>, i: nat): (l: Option<Label>)
    ensures l.Some? ==> l.value.Start?
  {
    if labels == [] then None
    else
      var l := labels[|labels| - 1];
      if l.i == i && l.Start? then Some(l) else LastStart(labels[..|labels| - 1], i)
  }

  /** and the steps it has taken since. */
  function StepsSince(labels: seq<Label>, i: nat): nat {
    if labels == [] then 0
    else
      var l := labels[|labels| - 1];
      if l.i != i then StepsSince(labels[..|labels| - 1], i)
      else if l.Go? then StepsSince(labels[..|labels| - 1], i) + 1
      else 0
  }

  /** The record of a pusher that has not stored it yet. */
  predicate Carries(t: Thread) {
    t.Busy? && t.op == Push && t.phase in {Down, Lock, Owner, Transfer, Transferred}
  }

  function Carried(t: Thread): multiset<Record> {
    if Carries(t) then multiset{t.buff} else multiset{}
  }

  /** No record is lost, made up or changed: what was given has been stored or is in a pusher's hand. */
  lemma {:induction false} RecordsConserved(run: seq<Queue>, labels: seq<Label>, k: nat)
    requires BlockQueueRuns.Run(run, labels) && k < |run|
    ensures multiset(run[k].pushed) + Gather(run[k].threads, Carried) == Given(labels[..k])
  {
    hide Inv, Enabled, Apply, Gather, Carried, GivenBy, BlockQueueRuns.Run;
    if k == 0 {
      AtStart(run, labels);
    } else {
      StepOf(run, labels, k - 1);
      RecordsConserved(run, labels, k - 1);
      assert labels[..k][..k - 1] == labels[..k - 1];
      StepConserves(run[k - 1], labels[k - 1]);
    }
  }

  lemma AtStart(run: seq<Queue>, labels: seq<Label>)
    requires BlockQueueRuns.Run(run, labels)
    ensures |run| == |labels| + 1 && run[0].pushed == [] && Gather(run[0].threads, Carried) == multiset{}
    ensures forall i :: 0 <= i < |run[0].threads| ==> run[0].threads[i] == Idle
  {
    GatherNone(run[0].threads, Carried);
    assert forall i :: 0 <= i < |run[0].threads| ==> run[0].threads[i] in run[0].threads;
  }

  lemma StepOf(run: seq<Queue>, labels: seq<Label>, k: nat)
    requires BlockQueueRuns.Run(run, labels) && k + 1 < |run|
    ensures |run| == |labels| + 1 && Inv(run[k]) && Inv(run[k + 1]) && Enabled(run[k], labels[k])
    ensures run[k].ring.Valid() && run[k].ring.tail < |run[k].ring.buff| && run[k + 1] == Apply(run[k], labels[k])
  {
    hide Inv, Enabled, Apply, Shape;
    RunInv(run, labels, k);
    RunInv(run, labels, k + 1);
    InvIsShape(run[k]);
  }

  lemma InvIsShape(q: Queue)
    requires Inv(q)
    ensures Shape(q) && q.ring.Valid() && q.ring.tail < |q.ring.buff|
  {}

  lemma StepConserves(q: Queue, l: Label)
    requires Inv(q) && Enabled(q, l) && q.ring.Valid() && q.ring.tail < |q.ring.buff|
    ensures multiset(Apply(q, l).pushed) + Gather(Apply(q, l).threads, Carried)
            == multiset(q.pushed) + Gather(q.threads, Carried) + GivenBy(l)
  {
    hide Inv, Enabled, Apply, Gather, Carried, GivenBy;
    var n := Apply(q, l);
    ThreadHandsOver(q, l);
    GatherUpdate(q.threads, l.i, n.threads[l.i], Carried);
    Balance(multiset(q.pushed), multiset(n.pushed), Gather(q.threads, Carried), Gather(n.threads, Carried),
            Carried(q.threads[l.i]), Carried(n.threads[l.i]), GivenBy(l));
  }

  /** What the moving thread lets go of is stored. */
  lemma ThreadHandsOver(q: Queue, l: Label)
    requires Inv(q) && Enabled(q, l) && q.ring.Valid() && q.ring.tail < |q.ring.buff|
    ensures var n, i := Apply(q, l), l.i;
            && i < |q.threads| == |n.threads| && n.threads == q.threads[i := n.threads[i]]
            && multiset(n.pushed) + Carried(n.threads[i]) == multiset(q.pushed) + Carried(q.threads[i]) + GivenBy(l)
  {
    hide Inv, Enabled, Apply;
    ThreadMoves(q, l);
    if l.Go? && Carries(q.threads[l.i]) != Carries(Apply(q, l).threads[l.i]) {
      assert multiset(Apply(q, l).pushed) == multiset(q.pushed) + multiset{q.threads[l.i].buff};
    }
  }

  /** The next state of a thread whose assertions hold; `byte` is what a popper finds in the ring. */
  function Successor(t: Thread, base: nat, byte: Byte): Thread
    requires t.Busy?
  {
    match t.phase
    case Down => t.(phase := Lock)
    case Lock => t.(phase := Owner)
    case Owner => t.(phase := if t.op == Push then Transfer else NonEmpty)
    case NonEmpty => t.(phase := Transfer)
    case Transfer =>
      if t.done == base then t.(phase := Transferred)
      else if t.op == Push then t.(done := t.done + 1)
      else t.(done := t.done + 1, buff := t.buff + [byte])
    case Transferred => t.(phase := Resize)
    case Resize => t.(phase := if t.op == Push then Bound else Up)
    case Bound => t.(phase := Up)
    case Up => t.(phase := UnlockTest)
    case UnlockTest => t.(phase := UnlockStore)
    case UnlockStore => Idle
  }

  /** Nothing stops thread `i` at its next step. */
  ghost predicate Clear(q: Queue, i: nat) {
    && q.ring.Valid() && q.ring.tail < |q.ring.buff| && i < |q.threads| && q.threads[i].Busy?
    && var t := q.threads[i];
    && t.done <= q.baseSize && (t.op == Push ==> |t.buff| == q.baseSize && t.phase != NonEmpty)
    && (t.op == Pop ==> t.phase != Bound)
    && (t.phase == NonEmpty ==> q.size > 0) && (t.phase == Bound ==> q.size <= q.maxSize)
    && (t.phase == Transferred ==> t.done == q.baseSize)
    && (t.phase == Transfer && t.done < q.baseSize ==> if t.op == Push then !q.ring.Full() else !q.ring.Empty())
    && (t.phase == UnlockTest ==> q.owner == i && q.locked)
  }

  lemma AlwaysClear(q: Queue, i: nat)
    requires Inv(q) && Enabled(q, Go(i))
    ensures Clear(q, i)
  {
    hide Inv, Apply, Ring.Contents, Ring.Full, Ring.Empty, Total, Tokens, Flatten, Capacity, Waiting;
    InvIsShape(q);
    OwnFacts(q, i);
    StepInv(q, Go(i));
    InvIsShape(Apply(q, Go(i)));
    var t := q.threads[i];
    if t.phase == Transfer && t.done < q.baseSize {
      if t.op == Push {
        PusherHasRoom(q, i);
      } else {
        PopperHasByte(q, i);
      }
    } else if t.phase in {NonEmpty, Bound, UnlockTest} {
      Unfailed(Apply(q, Go(i)), i);
      Tests(q, i);
    }
  }

  lemma OwnFacts(q: Queue, i: nat)
    requires Inv(q) && i < |q.threads| && q.threads[i].Busy?
    ensures var t := q.threads[i];
            && t.done <= q.baseSize && (t.op == Push ==> |t.buff| == q.baseSize && t.phase != NonEmpty)
            && (t.op == Pop ==> t.phase != Bound) && (t.phase == Transferred ==> t.done == q.baseSize)
            && (t.phase in {Down, Lock, Owner, NonEmpty} ==> t.done == 0)
  {
    assert ThreadInv(q, i);
  }

  lemma Unfailed(q: Queue, i: nat)
    requires Inv(q)
    ensures i < |q.threads| ==> q.threads[i] != Failed && q.threads[i] != Refused
  {
    if i < |q.threads| {
      assert ThreadInv(q, i);
    }
  }

  /** A test that did not stop the thread held. */
  lemma Tests(q: Queue, i: nat)
    requires q.ring.Valid() && q.ring.tail < |q.ring.buff| && Enabled(q, Go(i))
    requires q.threads[i].phase in {NonEmpty, Bound, UnlockTest}
    requires i < |Apply(q, Go(i)).threads| ==>
               Apply(q, Go(i)).threads[i] != Failed && Apply(q, Go(i)).threads[i] != Refused
    ensures q.threads[i].phase == NonEmpty ==> q.size > 0
    ensures q.threads[i].phase == Bound ==> q.size <= q.maxSize
    ensures q.threads[i].phase == UnlockTest ==> q.owner == i && q.locked
  {}

  /** What one step does to threads and records. */
  lemma GoStep(q: Queue, i: nat)
    requires Clear(q, i) && Enabled(q, Go(i))
    ensures var t, n := q.threads[i], Apply(q, Go(i));
            && n.threads == q.threads[i := Successor(t, q.baseSize, q.ring.buff[q.ring.tail])]
            && n.baseSize == q.baseSize
            && n.pushed == (if t.phase == Transferred && t.op == Push then q.pushed + [t.buff] else q.pushed)
            && n.popped == (if t.phase == Transferred && t.op == Pop then q.popped + [t.buff] else q.popped)
  {
    hide Ring.Contents, Ring.Full, Ring.Empty, Ring.WriteOne, Ring.ReadOne;
  }

  lemma StartStep(q: Queue, l: Label)
    requires q.ring.Valid() && q.ring.tail < |q.ring.buff| && Enabled(q, l) && l.Start?
    ensures var n := Apply(q, l);
            && n.threads == q.threads[l.i := Busy(l.op, Down, if l.op == Push then l.record else [], 0)]
            && n.baseSize == q.baseSize && n.pushed == q.pushed && n.popped == q.popped
  {}

  lemma ThreadMoves(q: Queue, l: Label)
    requires Inv(q) && Enabled(q, l) && q.ring.Valid() && q.ring.tail < |q.ring.buff|
    ensures var n, i := Apply(q, l), l.i;
            && i < |q.threads| == |n.threads| && n.threads == q.threads[i := n.threads[i]]
            && (l.Start? ==>
                  && !Carries(q.threads[i]) && (Carries(n.threads[i]) <==> l.op == Push) && n.pushed == q.pushed
                  && (l.op == Push ==> n.threads[i].buff == l.record))
            && (l.Go? ==>
                  || (&& Carries(n.threads[i]) == Carries(q.threads[i]) && n.pushed == q.pushed
                      && (Carries(q.threads[i]) ==> n.threads[i].buff == q.threads[i].buff))
                  || (&& Carries(q.threads[i]) && !Carries(n.threads[i])
                      && n.pushed == q.pushed + [q.threads[i].buff]))
  {
    hide Inv, Apply;
    if l.Start? {
      StartStep(q, l);
    } else {
      AlwaysClear(q, l.i);
      hide Clear;
      GoStep(q, l.i);
      OwnFacts(q, l.i);
    }
  }

  // ---- The course of a call ----

  /** A call takes ten steps of its thread, and one for every byte of a record. */
  function CallSteps(base: nat): nat {
    base + 10
  }

  /** How many of them thread `t` has still to take. */
  function Left(t: Thread, base: nat): int {
    if !t.Busy? then 0
    else
      var assertion := if t.op == Push then 1 else 0;
      match t.phase
      case Down => base + 10
      case Lock => base + 9
      case Owner => base + 8
      case NonEmpty => base + 7
      case Transfer => base - t.done + 6 + assertion
      case Transferred => 5 + assertion
      case Resize => 4 + assertion
      case Bound => 4
      case Up => 3
      case UnlockTest => 2
      case UnlockStore => 1
  }

  lemma ThreadAdvances(q: Queue, l: Label, i: nat)
    requires Inv(q) && Enabled(q, l) && q.ring.Valid() && q.ring.tail < |q.ring.buff| && i < |q.threads|
    ensures var t, n, base := q.threads[i], Apply(q, l), q.baseSize;
            && i < |n.threads| && n.baseSize == base
            && (l.i != i ==> n.threads[i] == t)
            && (l.i == i && l.Start? ==>
                  n.threads[i].Busy? && n.threads[i].op == l.op && Left(n.threads[i], base) == CallSteps(base)
                  && (l.op == Push ==> n.threads[i].buff == l.record))
            && (l.i == i && l.Go? ==>
                  && t.Busy? && Left(n.threads[i], base) == Left(t, base) - 1
                  && (n.threads[i].Busy? <==> Left(t, base) > 1)
                  && (n.threads[i].Busy? ==>
                        n.threads[i].op == t.op && (t.op == Push ==> n.threads[i].buff == t.buff)))
  {
    hide Inv, Apply;
    if l.Start? {
      StartStep(q, l);
    } else {
      AlwaysClear(q, l.i);
      hide Clear;
      GoStep(q, l.i);
      OwnFacts(q, l.i);
    }
  }

  /**
   * A thread is inside a call exactly until it has taken the call's steps, and while it is, it is in its last
   * call and, if that is a push, carries its record.
   */
  lemma {:induction false} ThreadFollowsItsCall(run: seq<Queue>, labels: seq<Label>, k: nat, i: nat)
    requires BlockQueueRuns.Run(run, labels) && k < |run| && i < |run[k].threads|
    ensures var t, last, steps := run[k].threads[i], LastStart(labels[..k], i), StepsSince(labels[..k], i);
            && (t.Busy? <==> last.Some? && steps < CallSteps(run[k].baseSize))
            && (t.Busy? ==>
                  && t.op == last.value.op && steps + Left(t, run[k].baseSize) == CallSteps(run[k].baseSize)
                  && (t.op == Push ==> t.buff == last.value.record))
  {
    hide Inv, Enabled, Apply, Left, CallSteps, BlockQueueRuns.Run;
    if k == 0 {
      AtStart(run, labels);
    } else {
      StepOf(run, labels, k - 1);
      var q, l := run[k - 1], labels[k - 1];
      ThreadMoves(q, l);
      ThreadAdvances(q, l, i);
      ThreadFollowsItsCall(run, labels, k - 1, i);
      SomeSteps(q.baseSize);
      assert labels[..k][..k - 1] == labels[..k - 1];
    }
  }

  lemma SomeSteps(base: nat)
    ensures CallSteps(base) > 0
  {}

  /** The record a step stores is the one its thread's last call was given; no other step stores one. */
  lemma StoresWhatWasGiven(run: seq<Queue>, labels: seq<Label>, k: nat)
    requires BlockQueueRuns.Run(run, labels) && k < |labels|
    ensures var i := labels[k].i;
            && i < |run[k].threads|
            && if labels[k].Go? && run[k].threads[i].Busy? && run[k].threads[i].phase == Transferred
                  && run[k].threads[i].op == Push
               then
                 && LastStart(labels[..k], i).Some? && LastStart(labels[..k], i).value.op == Push
                 && run[k + 1].pushed == run[k].pushed + [LastStart(labels[..k], i).value.record]
               else
                 run[k + 1].pushed == run[k].pushed
  {
    hide Inv, Left, CallSteps, Apply, BlockQueueRuns.Run;
    AtStart(run, labels);
    StepOf(run, labels, k);
    if labels[k].Start? {
      StartStep(run[k], labels[k]);
    } else {
      AlwaysClear(run[k], labels[k].i);
      hide Clear;
      GoStep(run[k], labels[k].i);
    }
    ThreadFollowsItsCall(run, labels, k, labels[k].i);
  }

  /** The record was moved and the thread still has the lock. */
  predicate Done(t: Thread) {
    t.Busy? && t.phase in {Resize, Bound, Up, UnlockTest, UnlockStore}
  }

  /** Until it gives the lock back, a popper has in its buffer the record that it took off the queue, */
  lemma {:induction false} PopDeliversTheFront(run: seq<Queue>, labels: seq<Label>, k: nat, i: nat)
    requires BlockQueueRuns.Run(run, labels) && k < |run| && i < |run[k].threads|
    requires Done(run[k].threads[i]) && run[k].threads[i].op == Pop
    ensures run[k].popped != [] && run[k].threads[i].buff == run[k].popped[|run[k].popped| - 1]
    ensures |run[k].popped| <= |run[k].pushed| && run[k].threads[i].buff == run[k].pushed[|run[k].popped| - 1]
    decreases k
  {
    hide Inv, Enabled, Apply, BlockQueueRuns.Run;
    if k == 0 {
      AtStart(run, labels);
      assert false;
    }
    hide Done;
    StepOf(run, labels, k - 1);
    var q, l := run[k - 1], labels[k - 1];
    PrefixOf(run[k]);
    ThreadMoves(q, l);
    if l.i != i {
      PopDeliversTheFront(run, labels, k - 1, i);
      OnlyHolderMoves(q, l, i);
    } else {
      DoneStep(q, l, i);
      if Done(q.threads[i]) {
        PopDeliversTheFront(run, labels, k - 1, i);
      }
    }
  }

  lemma PrefixOf(q: Queue)
    requires Inv(q)
    ensures |q.popped| <= |q.pushed| && q.popped == q.pushed[..|q.popped|]
  {}

  lemma DoneStep(q: Queue, l: Label, i: nat)
    requires Inv(q) && Enabled(q, l) && q.ring.Valid() && q.ring.tail < |q.ring.buff| && l.i == i < |q.threads|
    requires i < |Apply(q, l).threads| && Done(Apply(q, l).threads[i])
    ensures var t, n := Apply(q, l).threads[i], Apply(q, l);
            && q.threads[i].Busy? && q.threads[i].op == t.op && q.threads[i].buff == t.buff
            && (Done(q.threads[i]) ==> n.popped == q.popped)
            && (!Done(q.threads[i]) && t.op == Pop ==> n.popped == q.popped + [t.buff])
  {
    hide Inv, Apply;
    if l.Start? {
      StartStep(q, l);
    } else {
      AlwaysClear(q, l.i);
      hide Clear;
      GoStep(q, l.i);
    }
  }

  lemma OnlyHolderMoves(q: Queue, l: Label, i: nat)
    requires Inv(q) && Enabled(q, l) && q.ring.Valid() && q.ring.tail < |q.ring.buff| && l.i != i < |q.threads|
    requires Done(q.threads[i])
    ensures Apply(q, l).popped == q.popped && Apply(q, l).pushed == q.pushed
  {
    hide Inv, Apply;
    if l.Start? {
      StartStep(q, l);
    } else {
      AlwaysClear(q, l.i);
      hide Clear;
      GoStep(q, l.i);
      if q.threads[l.i].phase == Transferred {
        HoldsOnce(q);
        OneHolder(q.threads, i, l.i);
        assert false;
      }
    }
  }

  lemma HoldsOnce(q: Queue)
    requires Inv(q)
    ensures Total(q.threads, Holds) <= 1
  {}
}
