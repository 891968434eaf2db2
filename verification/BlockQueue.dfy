/**
 * The bounded blocking queue of kernel/libk/con/blockq.c: two counting semaphores, the spinlock of
 * kernel/libk/con/spinlock.c and a byte ring, used by any number of pushing and popping threads.
 *
 * A thread can be preempted between any two of the phases below. `semaphore_down` is one step, as
 * SemaphoreRuns.StepRefinesCounter justifies; a compare-and-swap that finds the lock taken only
 * yields and is not a step.
 */
module BlockQueue {
  import opened Machine
  import opened Counting
  import opened RingBuff

  datatype Op = Push | Pop

  datatype Phase =
    | Down         // semaphore_down of not_full (push) or not_empty (pop)
    | Lock         // compare-and-swap on `locked`
    | Owner        // record the lock owner
    | NonEmpty     // pop only: ASSERT(size > 0)
    | Transfer         // the ring loop, one byte an iteration
    | Transferred       // ASSERT(bytes copied == base_size)
    | Resize       // size++ or size--
    | Bound        // push only: ASSERT(size <= max_size)
    | Up           // semaphore_up of the other semaphore
    | UnlockTest   // spinlock_unlock compares the owner
    | UnlockStore  // locked = 0

  /**
   * `buff` is the record to push, or the bytes popped so far; `done` counts bytes copied. `Failed` is
   * a thread stopped by an ASSERT, `Refused` one whose unlock returned an error.
   */
  datatype Thread = Idle | Failed | Refused | Busy(op: Op, phase: Phase, buff: seq<Byte>, done: nat)

  type Record = seq<Byte>

  /** `pushed` and `popped` are the records moved in and out of the ring so far. */
  datatype Queue = Queue(
    maxSize: nat,
    baseSize: nat,
    ring: Ring,
    notEmpty: int,
    notFull: int,
    size: int,
    locked: bool,
    owner: int,
    threads: seq<Thread>,
    pushed: seq<Record>,
    popped: seq<Record>)

  datatype Label = Start(i: nat, op: Op, record: Record) | Go(i: nat)

  // ---- Steps ----

  ghost predicate Enabled(q: Queue, l: Label) {
    && l.i < |q.threads|
    && match l
       case Start(i, op, record) => q.threads[i] == Idle && |record| == q.baseSize
       case Go(i) =>
         && q.threads[i].Busy?
         && (q.threads[i].phase == Down ==> if q.threads[i].op == Push then q.notFull > 0 else q.notEmpty > 0)
         && (q.threads[i].phase == Lock ==> !q.locked)
  }

  /** The thread moves on and nothing else happens. */
  function Move(q: Queue, i: nat, t: Thread): Queue
    requires i < |q.threads|
  {
    q.(threads := q.threads[i := t])
  }

  ghost function Apply(q: Queue, l: Label): Queue
    requires q.ring.Valid() && q.ring.tail < |q.ring.buff| && Enabled(q, l)
  {
    match l
    case Start(i, op, record) => Move(q, i, Busy(op, Down, if op == Push then record else [], 0))
    case Go(i) =>
      var t := q.threads[i];
      match t.phase
      case Down =>
        var n := Move(q, i, t.(phase := Lock));
        if t.op == Push then n.(notFull := n.notFull - 1) else n.(notEmpty := n.notEmpty - 1)
      case Lock => Move(q, i, t.(phase := Owner)).(locked := true)
      case Owner => Move(q, i, t.(phase := if t.op == Push then Transfer else NonEmpty)).(owner := i)
      case NonEmpty => Move(q, i, if q.size > 0 then t.(phase := Transfer) else Failed)
      case Transfer => CopyByte(q, i)
      case Transferred =>
        if t.done != q.baseSize then
          Move(q, i, Failed)
        else
          var n := Move(q, i, t.(phase := Resize));
          if t.op == Push then n.(pushed := n.pushed + [t.buff]) else n.(popped := n.popped + [t.buff])
      case Resize =>
        if t.op == Push
        then Move(q, i, t.(phase := Bound)).(size := q.size + 1)
        else Move(q, i, t.(phase := Up)).(size := q.size - 1)
      case Bound => Move(q, i, if q.size <= q.maxSize then t.(phase := Up) else Failed)
      case Up =>
        var n := Move(q, i, t.(phase := UnlockTest));
        if t.op == Push then n.(notEmpty := n.notEmpty + 1) else n.(notFull := n.notFull + 1)
      case UnlockTest => Move(q, i, if q.owner == i && q.locked then t.(phase := UnlockStore) else Refused)
      case UnlockStore => Move(q, i, Idle).(locked := false)
  }

  /** One iteration of the loop in `ringbuff_write` or `ringbuff_read`. */
  ghost function CopyByte(q: Queue, i: nat): Queue
    requires i < |q.threads| && q.threads[i].Busy? && q.ring.Valid() && q.ring.tail < |q.ring.buff|
  {
    var t := q.threads[i];
    if t.op == Push then
      if t.done < q.baseSize && t.done < |t.buff| && !q.ring.Full()
      then Move(q, i, t.(done := t.done + 1)).(ring := q.ring.WriteOne(t.buff[t.done]))
      else Move(q, i, t.(phase := Transferred))
    else
      if t.done < q.baseSize && !q.ring.Empty()
      then Move(q, i, t.(done := t.done + 1, buff := t.buff + [q.ring.buff[q.ring.tail]])).(ring := q.ring.ReadOne())
      else Move(q, i, t.(phase := Transferred))
  }

  // ---- Head counts ----

  /** A pusher that has taken room but not yet stored its record, and one that has. */
  function PushBefore(t: Thread): int {
    if t.Busy? && t.op == Push && t.phase in {Lock, Owner, NonEmpty, Transfer, Transferred} then 1 else 0
  }

  function PushAfter(t: Thread): int {
    if t.Busy? && t.op == Push && t.phase in {Resize, Bound, Up} then 1 else 0
  }

  /** A popper that has claimed a record but not yet removed it, and one that has. */
  function PopBefore(t: Thread): int {
    if t.Busy? && t.op == Pop && t.phase in {Lock, Owner, NonEmpty, Transfer, Transferred} then 1 else 0
  }

  function PopAfter(t: Thread): int {
    if t.Busy? && t.op == Pop && t.phase in {Resize, Bound, Up} then 1 else 0
  }

  function Holds(t: Thread): int {
    if t == Refused || (t.Busy? && t.phase !in {Down, Lock}) then 1 else 0
  }

  function InTransfer(t: Thread): int {
    if t.Busy? && t.phase in {Transfer, Transferred} then 1 else 0
  }

  /** The record count not yet reflected in `size`. */
  function SizeLag(t: Thread): int {
    if t.Busy? && t.phase == Resize then (if t.op == Push then 1 else -1) else 0
  }

  /** Every total after thread `i` becomes `t`. */
  lemma TotalsAfter(ts: seq<Thread>, i: nat, t: Thread)
    requires i < |ts|
    ensures var us := ts[i := t];
            && Total(us, PushBefore) == Total(ts, PushBefore) - PushBefore(ts[i]) + PushBefore(t)
            && Total(us, PushAfter) == Total(ts, PushAfter) - PushAfter(ts[i]) + PushAfter(t)
            && Total(us, PopBefore) == Total(ts, PopBefore) - PopBefore(ts[i]) + PopBefore(t)
            && Total(us, PopAfter) == Total(ts, PopAfter) - PopAfter(ts[i]) + PopAfter(t)
            && Total(us, Holds) == Total(ts, Holds) - Holds(ts[i]) + Holds(t)
            && Total(us, InTransfer) == Total(ts, InTransfer) - InTransfer(ts[i]) + InTransfer(t)
            && Total(us, SizeLag) == Total(ts, SizeLag) - SizeLag(ts[i]) + SizeLag(t)
  {
    TotalUpdate(ts, i, t, PushBefore);
    TotalUpdate(ts, i, t, PushAfter);
    TotalUpdate(ts, i, t, PopBefore);
    TotalUpdate(ts, i, t, PopAfter);
    TotalUpdate(ts, i, t, Holds);
    TotalUpdate(ts, i, t, InTransfer);
    TotalUpdate(ts, i, t, SizeLag);
  }

  lemma TotalsBound(ts: seq<Thread>, i: nat)
    requires i < |ts|
    ensures PushBefore(ts[i]) <= Total(ts, PushBefore) && PushAfter(ts[i]) <= Total(ts, PushAfter)
    ensures PopBefore(ts[i]) <= Total(ts, PopBefore) && PopAfter(ts[i]) <= Total(ts, PopAfter)
    ensures Holds(ts[i]) <= Total(ts, Holds) && InTransfer(ts[i]) <= Total(ts, InTransfer)
  {
    TotalBounds(ts, i, PushBefore);
    TotalBounds(ts, i, PushAfter);
    TotalBounds(ts, i, PopBefore);
    TotalBounds(ts, i, PopAfter);
    TotalBounds(ts, i, Holds);
    TotalBounds(ts, i, InTransfer);
  }

  lemma OneHolder(ts: seq<Thread>, i: nat, j: nat)
    requires i < |ts| && j < |ts| && i != j && Total(ts, Holds) <= 1
    requires Holds(ts[i]) == 1
    ensures Holds(ts[j]) == 0
  {
    if i < j {
      TotalPair(ts, i, j, Holds);
    } else {
      TotalPair(ts, j, i, Holds);
    }
  }

  // ---- Records and bytes ----

  function Flatten(rs: seq<Record>): seq<Byte> {
    if rs == [] then [] else rs[0] + Flatten(rs[1..])
  }

  lemma {:induction false} FlattenAppend(rs: seq<Record>, r: Record)
    ensures Flatten(rs + [r]) == Flatten(rs) + r
  {
    if rs == [] {
      assert rs + [r] == [r];
    } else {
      FlattenAppend(rs[1..], r);
      assert (rs + [r])[1..] == rs[1..] + [r];
      assert rs[0] + (Flatten(rs[1..]) + r) == (rs[0] + Flatten(rs[1..])) + r;
    }
  }

  /** The bytes of `n` records. */
  function Capacity(n: nat, base: nat): nat {
    n * base
  }

  lemma {:induction false} FlattenLength(rs: seq<Record>, base: nat)
    requires forall r <- rs :: |r| == base
    ensures |Flatten(rs)| == Capacity(|rs|, base)
  {
    if rs != [] {
      hide Capacity;
      FlattenLength(rs[1..], base);
      CapacityOfOneMore(|rs| - 1, base);
    }
  }

  lemma CapacityOfOneMore(n: nat, base: nat)
    ensures Capacity(n + 1, base) == Capacity(n, base) + base
  {
    assert (n + 1) * base == n * base + base;
  }

  /** Room for one more record is room for its bytes. */
  lemma RoomForOne(n: nat, max: nat, base: nat)
    requires n < max
    ensures Capacity(n, base) + base <= Capacity(max, base)
  {
    CapacityOfOneMore(n, base);
    assert (n + 1) * base <= max * base;
  }

  // ---- Invariant ----

  /** The records in the queue, oldest first. */
  ghost function Waiting(q: Queue): seq<Record>
    requires |q.popped| <= |q.pushed|
  {
    q.pushed[|q.popped|..]
  }

  ghost predicate Shape(q: Queue) {
    && q.ring.Valid() && q.ring.tail < |q.ring.buff|
    && |q.ring.buff| == Capacity(q.maxSize, q.baseSize) + 1
    && |q.popped| <= |q.pushed| && q.popped == q.pushed[..|q.popped|]
    && (forall r <- q.pushed :: |r| == q.baseSize)
  }

  /** The token laws. */
  ghost predicate Tokens(q: Queue)
    requires |q.popped| <= |q.pushed|
  {
    && q.notFull >= 0 && q.notEmpty >= 0
    && q.notFull + q.notEmpty
       + Total(q.threads, PushBefore) + Total(q.threads, PushAfter)
       + Total(q.threads, PopBefore) + Total(q.threads, PopAfter) == q.maxSize
    && |q.pushed| - |q.popped|
       == q.notEmpty + Total(q.threads, PopBefore) + Total(q.threads, PushAfter)
    && q.size == |q.pushed| - |q.popped| - Total(q.threads, SizeLag)
    && Total(q.threads, Holds) == (if q.locked then 1 else 0)
  }

  /** One thread's own facts: its buffer, its ownership and, while it copies, the ring. */
  ghost predicate ThreadInv(q: Queue, i: nat)
    requires Shape(q) && i < |q.threads|
  {
    var t := q.threads[i];
    && !t.Failed? && !t.Refused?
    && (t.Busy? ==>
          && (t.op == Push ==> |t.buff| == q.baseSize && t.phase != NonEmpty)
          && (t.op == Pop ==> |t.buff| == t.done && t.phase != Bound)
          && t.done <= q.baseSize
          && (t.phase in {Down, Lock, Owner, NonEmpty} ==> t.done == 0)
          && (t.phase == Transferred ==> t.done == q.baseSize)
          && (t.phase !in {Down, Lock, Owner} ==> q.owner == i)
          && (InTransfer(t) == 1 && t.op == Push ==>
                q.ring.Contents() == Flatten(Waiting(q)) + t.buff[..t.done])
          && (InTransfer(t) == 1 && t.op == Pop ==>
                && Waiting(q) != [] && t.done <= |Flatten(Waiting(q))|
                && t.buff == Waiting(q)[0][..t.done]
                && q.ring.Contents() == Flatten(Waiting(q))[t.done..]))
  }

  ghost predicate Inv(q: Queue) {
    && Shape(q) && Tokens(q)
    && (forall i :: 0 <= i < |q.threads| ==> ThreadInv(q, i))
    && (Total(q.threads, InTransfer) == 0 ==> q.ring.Contents() == Flatten(Waiting(q)))
  }

  /** `blockq_init`, for sizes whose product leaves a word for the spare ring index. */
  ghost predicate Init(q: Queue) {
    && Capacity(q.maxSize, q.baseSize) + 1 < WORD
    && |q.ring.buff| == Capacity(q.maxSize, q.baseSize) + 1 && q.ring.head == 0 && q.ring.tail == 0
    && q.notEmpty == 0 && q.notFull == q.maxSize && q.size == 0 && !q.locked && q.owner == -1
    && (forall t <- q.threads :: t == Idle)
    && q.pushed == [] && q.popped == []
  }

  lemma InitInv(q: Queue)
    requires Init(q)
    ensures Inv(q)
  {
    TotalZero(q.threads, PushBefore);
    TotalZero(q.threads, PushAfter);
    TotalZero(q.threads, PopBefore);
    TotalZero(q.threads, PopAfter);
    TotalZero(q.threads, Holds);
    TotalZero(q.threads, InTransfer);
    TotalZero(q.threads, SizeLag);
    assert forall i :: 0 <= i < |q.threads| ==> q.threads[i] in q.threads;
  }

  // ---- Every step keeps the invariant ----

  /** Threads other than `i` keep their facts: either nothing they see changed, or `i` has the lock. */
  lemma OthersInv(q: Queue, n: Queue, i: nat, j: nat)
    requires Inv(q) && Shape(n) && i < |q.threads| && j < |q.threads| && j != i
    requires |n.threads| == |q.threads| && n.threads == q.threads[i := n.threads[i]] && n.baseSize == q.baseSize
    requires || Holds(q.threads[i]) == 1
             || (n.ring == q.ring && n.pushed == q.pushed && n.popped == q.popped && n.owner == q.owner)
    ensures ThreadInv(n, j)
  {
    hide Capacity, Ring.Contents, Flatten, Total;
    assert ThreadInv(q, j);
    assert n.threads[j] == q.threads[j];
    if Holds(q.threads[i]) == 1 {
      OneHolder(q.threads, i, j);
    }
  }

  /** Steps that change neither ring nor records: only thread `i`, the counters and the lock move. */
  lemma QuietStep(q: Queue, n: Queue, i: nat)
    requires Inv(q) && i < |q.threads| == |n.threads| && n.threads == q.threads[i := n.threads[i]]
    requires n.ring == q.ring && n.pushed == q.pushed && n.popped == q.popped
    requires n.baseSize == q.baseSize && n.maxSize == q.maxSize
    requires n.owner == q.owner || Holds(q.threads[i]) == 1
    requires Tokens(n) && ThreadInv(n, i)
    requires Total(n.threads, InTransfer) == 0 ==> q.ring.Contents() == Flatten(Waiting(q))
    ensures Inv(n)
  {
    hide Capacity, Ring.Contents, Flatten, Total, Tokens;
    forall j | 0 <= j < |n.threads|
      ensures ThreadInv(n, j)
    {
      if j != i {
        OthersInv(q, n, i, j);
      }
    }
  }

  lemma StartStep(q: Queue, l: Label)
    requires Inv(q) && Enabled(q, l) && l.Start?
    ensures Inv(Apply(q, l))
  {
    hide Capacity, Ring.Contents, Flatten, Total;
    var n := Apply(q, l);
    assert ThreadInv(q, l.i);
    TotalsAfter(q.threads, l.i, n.threads[l.i]);
    QuietStep(q, n, l.i);
  }

  /** The lock holder is the only thread that can be transferring or behind on `size`. */
  lemma HolderTotals(q: Queue, i: nat)
    requires Total(q.threads, Holds) == (if q.locked then 1 else 0) && i < |q.threads| && Holds(q.threads[i]) == 1
    ensures q.locked
    ensures Total(q.threads, InTransfer) == InTransfer(q.threads[i])
    ensures Total(q.threads, SizeLag) == SizeLag(q.threads[i])
  {
    TotalBounds(q.threads, i, Holds);
    var rest := q.threads[i := Idle];
    forall t | t in rest
      ensures Holds(t) == 0
    {
      var j :| 0 <= j < |rest| && rest[j] == t;
      if j != i {
        OneHolder(q.threads, i, j);
      }
    }
    TotalUpdate(q.threads, i, Idle, InTransfer);
    TotalUpdate(q.threads, i, Idle, SizeLag);
    TotalZero(rest, InTransfer);
    TotalZero(rest, SizeLag);
  }

  lemma AcquireStep(q: Queue, i: nat)
    requires Inv(q) && Enabled(q, Go(i)) && q.threads[i].phase in {Down, Lock}
    ensures Inv(Apply(q, Go(i)))
  {
    hide Capacity, Ring.Contents, Flatten, Total;
    var n := Apply(q, Go(i));
    assert ThreadInv(q, i);
    TotalsAfter(q.threads, i, n.threads[i]);
    QuietStep(q, n, i);
  }

  lemma OwnerStep(q: Queue, i: nat)
    requires Inv(q) && Enabled(q, Go(i)) && q.threads[i].phase == Owner
    ensures Inv(Apply(q, Go(i)))
  {
    hide Capacity, Ring.Contents, Flatten, Total;
    var n := Apply(q, Go(i));
    assert ThreadInv(q, i);
    TotalsAfter(q.threads, i, n.threads[i]);
    HolderTotals(q, i);
    assert q.threads[i].buff[..0] == [];
    assert Flatten(Waiting(q)) + [] == Flatten(Waiting(q));
    QuietStep(q, n, i);
  }

  /** The first assertion of `blockq_pop` holds and the front record is in the ring. */
  lemma NonEmptyStep(q: Queue, i: nat)
    requires Inv(q) && Enabled(q, Go(i)) && q.threads[i].phase == NonEmpty
    ensures Inv(Apply(q, Go(i)))
  {
    hide Capacity, Ring.Contents, Flatten, Total;
    var n := Apply(q, Go(i));
    assert ThreadInv(q, i);
    HolderTotals(q, i);
    TotalsBound(q.threads, i);
    TotalNonNegative(q.threads, PushAfter);
    assert |Waiting(q)| > 0 && q.size > 0;
    TotalsAfter(q.threads, i, n.threads[i]);
    assert q.threads[i].buff == Waiting(q)[0][..0];
    assert Flatten(Waiting(q))[0..] == Flatten(Waiting(q));
    QuietStep(q, n, i);
  }

  /** `size` tracks the records, so the push bound holds too. */
  lemma CountStep(q: Queue, i: nat)
    requires Inv(q) && Enabled(q, Go(i)) && q.threads[i].phase in {Resize, Bound, Up}
    ensures Inv(Apply(q, Go(i)))
  {
    hide Capacity, Ring.Contents, Flatten, Total;
    var n := Apply(q, Go(i));
    assert ThreadInv(q, i);
    HolderTotals(q, i);
    TotalNonNegative(q.threads, PushBefore);
    TotalNonNegative(q.threads, PopAfter);
    TotalsAfter(q.threads, i, n.threads[i]);
    QuietStep(q, n, i);
  }

  /** The holder's unlock is never refused. */
  lemma UnlockStep(q: Queue, i: nat)
    requires Inv(q) && Enabled(q, Go(i)) && q.threads[i].phase in {UnlockTest, UnlockStore}
    ensures Inv(Apply(q, Go(i)))
  {
    hide Capacity, Ring.Contents, Flatten, Total;
    var n := Apply(q, Go(i));
    assert ThreadInv(q, i);
    HolderTotals(q, i);
    TotalsAfter(q.threads, i, n.threads[i]);
    QuietStep(q, n, i);
  }

  /** The others keep their facts while the holder changes the ring or the records. */
  lemma OthersKept(q: Queue, n: Queue, i: nat)
    requires Inv(q) && Shape(n) && i < |q.threads| && Holds(q.threads[i]) == 1
    requires |n.threads| == |q.threads| && n.threads == q.threads[i := n.threads[i]] && n.baseSize == q.baseSize
    ensures forall j :: 0 <= j < |n.threads| && j != i ==> ThreadInv(n, j)
  {
    hide Inv, Shape, ThreadInv;
    forall j | 0 <= j < |n.threads| && j != i
      ensures ThreadInv(n, j)
    {
      OthersInv(q, n, i, j);
    }
  }

  /** A pusher in the copy loop always finds room: the ring can still take its remaining bytes. */
  lemma PusherHasRoom(q: Queue, i: nat)
    requires Inv(q) && i < |q.threads| && q.threads[i].Busy?
    requires q.threads[i].op == Push && q.threads[i].phase == Transfer
    ensures q.threads[i].done < q.baseSize ==> !q.ring.Full()
  {
    hide Capacity, Ring.Contents, Flatten, Total;
    var t := q.threads[i];
    assert ThreadInv(q, i);
    TotalsBound(q.threads, i);
    TotalNonNegative(q.threads, PopAfter);
    assert |Waiting(q)| < q.maxSize;
    FlattenLength(Waiting(q), q.baseSize);
    RoomForOne(|Waiting(q)|, q.maxSize, q.baseSize);
  }

  lemma PushTransferStep(q: Queue, i: nat)
    requires Inv(q) && Enabled(q, Go(i)) && q.threads[i].phase == Transfer && q.threads[i].op == Push
    ensures Inv(Apply(q, Go(i)))
  {
    hide Capacity, Ring.Contents, Ring.WriteOne, Flatten, Total, Waiting;
    var n := Apply(q, Go(i));
    var t := q.threads[i];
    assert ThreadInv(q, i);
    PusherHasRoom(q, i);
    HolderTotals(q, i);
    TotalsAfter(q.threads, i, n.threads[i]);
    if t.done < q.baseSize {
      assert t.buff[..t.done + 1] == t.buff[..t.done] + [t.buff[t.done]];
      calc {
        n.ring.Contents();
        (Flatten(Waiting(q)) + t.buff[..t.done]) + [t.buff[t.done]];
        Flatten(Waiting(q)) + t.buff[..t.done + 1];
      }
      assert Waiting(n) == Waiting(q) by { WaitingSame(q, n); }
      OthersKept(q, n, i);
    } else {
      WaitingSame(q, n);
      QuietStep(q, n, i);
    }
  }

  lemma WaitingSame(q: Queue, n: Queue)
    requires |q.popped| <= |q.pushed| && n.pushed == q.pushed && n.popped == q.popped
    ensures Waiting(n) == Waiting(q)
  {}

  /** A popper in the copy loop finds the next byte of the front record. */
  lemma PopperHasByte(q: Queue, i: nat)
    requires Inv(q) && i < |q.threads| && q.threads[i].Busy?
    requires q.threads[i].op == Pop && q.threads[i].phase == Transfer && q.threads[i].done < q.baseSize
    ensures !q.ring.Empty() && Waiting(q) != [] && |Waiting(q)[0]| == q.baseSize
    ensures q.ring.buff[q.ring.tail] == Waiting(q)[0][q.threads[i].done]
  {
    hide Capacity, Ring.Contents, Total;
    assert ThreadInv(q, i);
    var w, t := Waiting(q), q.threads[i];
    assert w[0] in q.pushed;
    assert Flatten(w) == w[0] + Flatten(w[1..]);
    assert q.ring.Contents()[0] == w[0][t.done];
    OldestByte(q.ring);
  }

  lemma PopTransferStep(q: Queue, i: nat)
    requires Inv(q) && Enabled(q, Go(i)) && q.threads[i].phase == Transfer && q.threads[i].op == Pop
    ensures Inv(Apply(q, Go(i)))
  {
    hide Capacity, Ring.Contents, Ring.ReadOne, Flatten, Total, Waiting;
    var n := Apply(q, Go(i));
    var t := q.threads[i];
    assert ThreadInv(q, i);
    HolderTotals(q, i);
    TotalsAfter(q.threads, i, n.threads[i]);
    if t.done < q.baseSize {
      PopperHasByte(q, i);
      WaitingSame(q, n);
      var w := Waiting(q);
      assert w[0][..t.done + 1] == w[0][..t.done] + [w[0][t.done]];
      assert Flatten(w)[t.done..] == [w[0][t.done]] + n.ring.Contents();
      assert n.ring.Contents() == Flatten(w)[t.done + 1..];
      OthersKept(q, n, i);
    } else {
      WaitingSame(q, n);
      QuietStep(q, n, i);
    }
  }

  lemma AppendRecord(q: Queue, n: Queue, r: Record)
    requires Shape(q) && |r| == q.baseSize
    requires n.pushed == q.pushed + [r] && n.popped == q.popped && n.ring == q.ring
    requires n.maxSize == q.maxSize && n.baseSize == q.baseSize
    ensures Shape(n) && Waiting(n) == Waiting(q) + [r]
    ensures Flatten(Waiting(n)) == Flatten(Waiting(q)) + r
  {
    hide Capacity, Ring.Valid, Flatten;
    assert Waiting(n) == Waiting(q) + [r];
    assert n.pushed[..|n.popped|] == q.pushed[..|q.popped|];
    FlattenAppend(Waiting(q), r);
  }

  /** The record moves from the pusher's hands to the queue. */
  lemma PushedStep(q: Queue, i: nat)
    requires Inv(q) && Enabled(q, Go(i)) && q.threads[i].phase == Transferred && q.threads[i].op == Push
    ensures Inv(Apply(q, Go(i)))
  {
    hide Capacity, Ring.Contents, Flatten, Total, Waiting;
    var n := Apply(q, Go(i));
    var t := q.threads[i];
    assert ThreadInv(q, i);
    assert t.buff[..t.done] == t.buff;
    AppendRecord(q, n, t.buff);
    HolderTotals(q, i);
    TotalsAfter(q.threads, i, n.threads[i]);
    OthersKept(q, n, i);
  }

  /** The front record moves from the queue to the popper's hands. */
  lemma PoppedStep(q: Queue, i: nat)
    requires Inv(q) && Enabled(q, Go(i)) && q.threads[i].phase == Transferred && q.threads[i].op == Pop
    ensures Inv(Apply(q, Go(i)))
  {
    hide Capacity, Ring.Contents, Total;
    var n := Apply(q, Go(i));
    var t := q.threads[i];
    assert ThreadInv(q, i);
    HolderTotals(q, i);
    TotalsAfter(q.threads, i, n.threads[i]);
    var w := Waiting(q);
    assert w[0] in q.pushed;
    assert t.buff == w[0] == q.pushed[|q.popped|];
    assert n.popped == n.pushed[..|n.popped|];
    assert Waiting(n) == w[1..];
    assert Flatten(w)[|w[0]|..] == Flatten(w[1..]);
    OthersKept(q, n, i);
  }

  lemma StepInv(q: Queue, l: Label)
    requires Inv(q) && Enabled(q, l)
    ensures Inv(Apply(q, l))
  {
    hide Capacity, Apply, Ring.Contents, Total, Tokens, ThreadInv;
    match l
    case Start(_, _, _) => StartStep(q, l);
    case Go(i) =>
      var t := q.threads[i];
      match t.phase
      case Down => AcquireStep(q, i);
      case Lock => AcquireStep(q, i);
      case Owner => OwnerStep(q, i);
      case NonEmpty => NonEmptyStep(q, i);
      case Transfer => if t.op == Push { PushTransferStep(q, i); } else { PopTransferStep(q, i); }
      case Transferred => if t.op == Push { PushedStep(q, i); } else { PoppedStep(q, i); }
      case Resize => CountStep(q, i);
      case Bound => CountStep(q, i);
      case Up => CountStep(q, i);
      case UnlockTest => UnlockStep(q, i);
      case UnlockStore => UnlockStep(q, i);
  }
}
