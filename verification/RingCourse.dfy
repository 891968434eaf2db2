/**
 * What the events of a run alone say about a ring buffer whose reader is preempted by writers: which bytes
 * were accepted, how far the reader is in which call, and when that call returns.
 */
module RingCourse {
  import opened Machine
  import opened RingBuff

  /** Written and not yet read. */
  ghost function Unread(s: Reading): int {
    |s.accepted| - |Delivered(s)|
  }

  /** Every write puts in as many of its bytes as `size - 1` leaves room for. */
  ghost function AcceptedBy(run: seq<Reading>, events: seq<Event>, k: nat): seq<Byte>
    requires |run| == |events| + 1 && k < |run|
  {
    if k == 0 then []
    else
      var s, e := run[k - 1], events[k - 1];
      AcceptedBy(run, events, k - 1) +
      if e.Interrupt? then e.data[..Max(0, Min(|e.data|, |run[0].ring.buff| - 1 - Unread(s)))] else []
  }

  lemma StepOf(run: seq<Reading>, events: seq<Event>, k: nat)
    requires Run(run, events) && k < |events|
    ensures |run| == |events| + 1 && Intact(run[k]) && run[k + 1] == Step(run[k], events[k])
    ensures run[k].pc == Check ==> (run[k].ring.Empty() <==> Unread(run[k]) == 0)
  {
    hide Step, ReaderStep, WriterStep;
    RunKeepsIntact(run, events, k);
  }

  lemma {:induction false} AcceptedLaw(run: seq<Reading>, events: seq<Event>, k: nat)
    requires Run(run, events) && k < |run|
    ensures run[k].accepted == AcceptedBy(run, events, k)
  {
    if k > 0 {
      hide Ring.Write, Ring.Contents, Unread, Run, Intact;
      RunLength(run, events);
      AcceptedLaw(run, events, k - 1);
      StepOf(run, events, k - 1);
      if events[k - 1].Interrupt? {
        CapacityIsExact(run, events, k - 1, events[k - 1].data);
        UnreadFits(run, events, k - 1);
      }
    } else {
      hide Ring.Write, Ring.Contents;
    }
  }

  lemma RunLength(run: seq<Reading>, events: seq<Event>)
    requires Run(run, events)
    ensures |run| == |events| + 1
  {}

  lemma UnreadFits(run: seq<Reading>, events: seq<Event>, k: nat)
    requires Run(run, events) && k < |run|
    ensures 0 <= Unread(run[k]) < |run[0].ring.buff|
  {
    hide Step;
    RunKeepsIntact(run, events, k);
    NoByteLost(run, events, k);
  }

  // ---- The reader ----

  /** A reader between two calls, or `steps` steps into its iterations of one that asked for `n` bytes. */
  datatype Course = Idle | Active(n: nat, steps: nat)

  /** Where the events lead the reader. Before each byte it returns if it has `n` bytes or none is unread. */
  ghost function CourseBy(run: seq<Reading>, events: seq<Event>, k: nat): Course
    requires |run| == |events| + 1 && k < |run|
  {
    if k == 0 then Idle
    else
      var before := CourseBy(run, events, k - 1);
      match events[k - 1]
      case Interrupt(_) => before
      case Reader(n) =>
        match before
        case Idle => Active(n, 0)
        case Active(n, steps) =>
          if steps % 4 == 0 && (steps / 4 == n || Unread(run[k - 1]) == 0) then Idle else Active(n, steps + 1)
  }

  function PcOf(c: Course): ReaderPc {
    match c
    case Idle => Outside
    case Active(_, steps) =>
      if steps % 4 == 0 then Check else if steps % 4 == 1 then Copy else if steps % 4 == 2 then Advance else WrapTail
  }

  /** The reader is where the events lead it, with `n` less the bytes it has read still to go. */
  ghost predicate Follows(s: Reading, c: Course) {
    && s.pc == PcOf(c)
    && (c.Active? ==> s.left == c.n - c.steps / 4)
  }

  lemma {:induction false} ReaderFollowsItsCall(run: seq<Reading>, events: seq<Event>, k: nat)
    requires Run(run, events) && k < |run|
    ensures |run| == |events| + 1 && Follows(run[k], CourseBy(run, events, k))
  {
    if k > 0 {
      hide Ring.Write, Ring.Contents, Unread, Run, Ring.Empty;
      RunLength(run, events);
      ReaderFollowsItsCall(run, events, k - 1);
      StepOf(run, events, k - 1);
    } else {
      hide Ring.Write, Ring.Contents;
    }
  }

  /** One byte is stored at the second step of every round and at no other, and it is the next byte accepted. */
  lemma StoresInOrder(run: seq<Reading>, events: seq<Event>, k: nat)
    requires Run(run, events) && k < |events|
    ensures |run| == |events| + 1 && |run[k].out| <= |run[k].accepted|
    ensures var c := CourseBy(run, events, k);
            if events[k].Reader? && c.Active? && c.steps % 4 == 1 then
              |run[k].out| < |run[k].accepted| && run[k + 1].out == run[k].out + [run[k].accepted[|run[k].out|]]
            else
              run[k + 1].out == run[k].out
  {
    hide Ring.Write, Run;
    RunLength(run, events);
    ReaderFollowsItsCall(run, events, k);
    StepOf(run, events, k);
    var s := run[k];
    if s.pc == Copy {
      assert s.ring.buff[s.ring.tail] == s.ring.Contents()[0];
    }
  }
}
