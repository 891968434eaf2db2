/**
 * One message queue of kernel/sys/mq.c under any number of `mq_push` and blocking `mq_pop` callers.
 * Both the queue lock and `data_available` are semaphores; each down is one step (see
 * SemaphoreRuns.StepRefinesCounter), and a caller can be preempted between any two steps.
 */
module MessageQueue {
  import opened Counting

  datatype Phase =
    | DownData  // pop: semaphore_down(data_available)
    | DownLock  // semaphore_down(lock)
    | Append    // push: list_append
    | UpData    // push: semaphore_up(data_available)
    | Read      // pop: m = mq.first->val
    | Remove    // pop: list_remove(mq.first)
    | Count     // len++ or len--
    | UpLock    // semaphore_up(lock)

  /** `msg` is the message being pushed, or the one read by a popper. `Crashed` read a null `first`. */
  datatype Thread = Idle | Crashed | Busy(pop: bool, phase: Phase, msg: int)

  /** `appended` and `removed` are the messages that entered and left the list, in order. */
  datatype Queue = Queue(
    list: seq<int>,
    len: int,
    lock: int,
    dataAvailable: int,
    threads: seq<Thread>,
    appended: seq<int>,
    removed: seq<int>)

  datatype Label = StartPush(i: nat, msg: int) | StartPop(i: nat) | Go(i: nat)

  ghost predicate Enabled(q: Queue, l: Label) {
    && l.i < |q.threads|
    && match l
       case StartPush(i, _) => q.threads[i] == Idle
       case StartPop(i) => q.threads[i] == Idle
       case Go(i) =>
         && q.threads[i].Busy?
         && (q.threads[i].phase == DownData ==> q.dataAvailable > 0)
         && (q.threads[i].phase == DownLock ==> q.lock > 0)
  }

  function Move(q: Queue, i: nat, t: Thread): Queue
    requires i < |q.threads|
  {
    q.(threads := q.threads[i := t])
  }

  function Apply(q: Queue, l: Label): Queue
    requires Enabled(q, l)
  {
    match l
    case StartPush(i, msg) => Move(q, i, Busy(false, DownLock, msg))
    case StartPop(i) => Move(q, i, Busy(true, DownData, 0))
    case Go(i) =>
      var t := q.threads[i];
      match t.phase
      case DownData => Move(q, i, t.(phase := DownLock)).(dataAvailable := q.dataAvailable - 1)
      case DownLock => Move(q, i, t.(phase := if t.pop then Read else Append)).(lock := q.lock - 1)
      case Append => Move(q, i, t.(phase := UpData)).(list := q.list + [t.msg], appended := q.appended + [t.msg])
      case UpData => Move(q, i, t.(phase := Count)).(dataAvailable := q.dataAvailable + 1)
      case Read => Move(q, i, if q.list == [] then Crashed else t.(phase := Remove, msg := q.list[0]))
      case Remove =>
        if q.list == [] then Move(q, i, Crashed)
        else Move(q, i, t.(phase := Count)).(list := q.list[1..], removed := q.removed + [t.msg])
      case Count => Move(q, i, t.(phase := UpLock)).(len := if t.pop then q.len - 1 else q.len + 1)
      case UpLock => Move(q, i, Idle).(lock := q.lock + 1)
  }

  // ---- Head counts ----

  function Holds(t: Thread): int {
    if t == Crashed || (t.Busy? && t.phase !in {DownData, DownLock}) then 1 else 0
  }

  /** A popper that has claimed a message still in the list. */
  function Claims(t: Thread): int {
    if t.Busy? && t.pop && t.phase in {DownLock, Read, Remove} then 1 else 0
  }

  /** A pusher whose message is in the list but not yet announced. */
  function Owes(t: Thread): int {
    if t.Busy? && !t.pop && t.phase == UpData then 1 else 0
  }

  /** The change of the list not yet reflected in `len`. */
  function Lag(t: Thread): int {
    if t.Busy? && !t.pop && t.phase in {UpData, Count} then 1
    else if t.Busy? && t.pop && t.phase == Count then -1
    else 0
  }

  lemma TotalsAfter(ts: seq<Thread>, i: nat, t: Thread)
    requires i < |ts|
    ensures var us := ts[i := t];
            && Total(us, Holds) == Total(ts, Holds) - Holds(ts[i]) + Holds(t)
            && Total(us, Claims) == Total(ts, Claims) - Claims(ts[i]) + Claims(t)
            && Total(us, Owes) == Total(ts, Owes) - Owes(ts[i]) + Owes(t)
            && Total(us, Lag) == Total(ts, Lag) - Lag(ts[i]) + Lag(t)
  {
    TotalUpdate(ts, i, t, Holds);
    TotalUpdate(ts, i, t, Claims);
    TotalUpdate(ts, i, t, Owes);
    TotalUpdate(ts, i, t, Lag);
  }

  // ---- Invariant ----

  ghost predicate ThreadInv(q: Queue, i: nat)
    requires i < |q.threads|
  {
    var t := q.threads[i];
    && t != Crashed
    && (t.Busy? ==>
          && (t.pop ==> t.phase !in {Append, UpData})
          && (!t.pop ==> t.phase !in {DownData, Read, Remove})
          && (t.phase == Remove ==> q.list != [] && t.msg == q.list[0]))
  }

  ghost predicate Inv(q: Queue) {
    && q.lock >= 0 && q.lock + Total(q.threads, Holds) == 1
    && q.dataAvailable >= 0
    && |q.list| == q.dataAvailable + Total(q.threads, Claims) + Total(q.threads, Owes)
    && q.len == |q.list| - Total(q.threads, Lag)
    && q.removed + q.list == q.appended
    && (forall i :: 0 <= i < |q.threads| ==> ThreadInv(q, i))
  }

  /** `mqs_create`. */
  ghost predicate Init(q: Queue) {
    && q.list == [] && q.len == 0 && q.lock == 1 && q.dataAvailable == 0
    && (forall t <- q.threads :: t == Idle)
    && q.appended == [] && q.removed == []
  }

  lemma InitInv(q: Queue)
    requires Init(q)
    ensures Inv(q)
  {
    TotalZero(q.threads, Holds);
    TotalZero(q.threads, Claims);
    TotalZero(q.threads, Owes);
    TotalZero(q.threads, Lag);
    assert forall i :: 0 <= i < |q.threads| ==> q.threads[i] in q.threads;
  }

  lemma OthersInv(q: Queue, n: Queue, i: nat, j: nat)
    requires Inv(q) && i < |q.threads| == |n.threads| && j < |q.threads| && j != i
    requires n.threads == q.threads[i := n.threads[i]]
    requires n.list == q.list || Holds(q.threads[i]) == 1
    ensures ThreadInv(n, j)
  {
    hide Total;
    assert ThreadInv(q, j) && n.threads[j] == q.threads[j];
    if Holds(q.threads[i]) == 1 && Holds(q.threads[j]) == 1 {
      if i < j {
        TotalPair(q.threads, i, j, Holds);
      } else {
        TotalPair(q.threads, j, i, Holds);
      }
      assert false;
    }
  }

  /** A popper holding the lock finds a message: the list is never empty when `first` is read. */
  lemma PopperFindsMessage(q: Queue, i: nat)
    requires Inv(q) && i < |q.threads| && Claims(q.threads[i]) == 1
    ensures q.list != []
  {
    TotalBounds(q.threads, i, Claims);
    TotalNonNegative(q.threads, Owes);
  }

  lemma StepInv(q: Queue, l: Label)
    requires Inv(q) && Enabled(q, l)
    ensures Inv(Apply(q, l))
  {
    hide Total;
    var n := Apply(q, l);
    var i := l.i;
    assert ThreadInv(q, i);
    if Claims(q.threads[i]) == 1 {
      PopperFindsMessage(q, i);
    }
    TotalBounds(q.threads, i, Holds);
    TotalsAfter(q.threads, i, n.threads[i]);
    forall j | 0 <= j < |n.threads|
      ensures ThreadInv(n, j)
    {
      if j != i {
        OthersInv(q, n, i, j);
      }
    }
    StepKeepsOrder(q, l);
  }

  lemma StepKeepsOrder(q: Queue, l: Label)
    requires Inv(q) && Enabled(q, l)
    ensures Apply(q, l).removed + Apply(q, l).list == Apply(q, l).appended
  {
    hide Total;
    var n := Apply(q, l);
    assert ThreadInv(q, l.i);
    if l.Go? && q.threads[l.i].phase == Append {
      assert q.removed + (q.list + [q.threads[l.i].msg]) == (q.removed + q.list) + [q.threads[l.i].msg];
    } else if l.Go? && q.threads[l.i].phase == Remove {
      assert q.list == [q.list[0]] + q.list[1..];
      assert n.removed + n.list == q.removed + ([q.list[0]] + q.list[1..]);
    }
  }
}
