/**
 * What the steps of a run alone say about its signals: which have been sent, when one is delivered and to
 * which handler, what a system call returns, and which bytes it changes.
 */
module SignalCourse {
  import opened Machine
  import opened Virtual
  import opened Signals
  import opened SignalRuns

  /** The signals sent, in order. */
  function SentBy(labels: seq<Label>): seq<Signal> {
    if labels == [] then []
    else
      var last := labels[|labels| - 1];
      SentBy(labels[..|labels| - 1]) + if last.Send? then [last.sig] else []
  }

  /** The handler registered last. */
  function HandlerBy(labels: seq<Label>): Word {
    if labels == [] then 0
    else
      var last := labels[|labels| - 1];
      if last.SigAction? then last.handler else HandlerBy(labels[..|labels| - 1])
  }

  lemma StepOf(run: seq<SignalRuns.Process>, labels: seq<Label>, k: nat)
    requires Run(run, labels) && Init(run[0]) && k < |labels|
    ensures |run| == |labels| + 1 && Inv(run[k]) && Step(run[k], labels[k], run[k + 1])
  {
    hide Step, Init, Inv;
    RunInv(run, labels, k);
  }

  /** Every signal sent is sent once and kept; the handler changes with SYS_SIGACTION and nothing else. */
  lemma {:induction false} SentLaw(run: seq<SignalRuns.Process>, labels: seq<Label>, k: nat)
    requires Run(run, labels) && Init(run[0]) && k < |run|
    ensures run[k].sent == SentBy(labels[..k]) && run[k].handler == HandlerBy(labels[..k])
  {
    hide Run, Inv, Memories;
    if k > 0 {
      hide HandlerState, Pushed, Restored, WriteThrough, FrameBytesKept, StackRoom, Init;
      RunLength(run, labels);
      StepOf(run, labels, k - 1);
      SentLaw(run, labels, k - 1);
      assert labels[..k][..k - 1] == labels[..k - 1];
    }
  }

  lemma RunLength(run: seq<SignalRuns.Process>, labels: seq<Label>)
    requires Run(run, labels)
    ensures |run| == |labels| + 1
  {}

  /** A call is about to end with no handler active, one registered, and a signal that nobody took. */
  ghost predicate Delivered(run: seq<SignalRuns.Process>, labels: seq<Label>, k: nat)
    requires k < |labels| && k < |run|
  {
    && !labels[k].User? && !labels[k].Send?
    && (run[k].hold ==> labels[k].HandlerReturn?)
    && HandlerBy(labels[..k + 1]) != 0
    && |SentBy(labels[..k + 1])| > |run[k].taken|
  }

  /** Exactly then a handler is entered, and it is given the oldest signal not taken. */
  lemma DeliveredIff(run: seq<SignalRuns.Process>, labels: seq<Label>, k: nat)
    requires Run(run, labels) && Init(run[0]) && k < |labels|
    ensures |run| == |labels| + 1
    ensures run[k + 1].hold <==> Delivered(run, labels, k) || (run[k].hold && !labels[k].HandlerReturn?)
    ensures if Delivered(run, labels, k) || labels[k].SigWait? then
              && |run[k].taken| < |SentBy(labels[..k + 1])|
              && run[k + 1].taken == run[k].taken + [SentBy(labels[..k + 1])[|run[k].taken|]]
            else
              run[k + 1].taken == run[k].taken
  {
    hide Run, Memories, Held, Init, HandlerState, Pushed, Restored, WriteThrough, FrameBytesKept, StackRoom;
    StepOf(run, labels, k);
    SentLaw(run, labels, k);
    SentLaw(run, labels, k + 1);
    assert labels[..k + 1][..k] == labels[..k];
  }

  // ---- What a call returns ----

  /** The value of r0 after the call. */
  function ResultOf(labels: seq<Label>, k: nat): Word
    requires k < |labels|
  {
    match labels[k]
    case Call(result) => result
    case SigAction(_) => HandlerBy(labels[..k])
    case _ => 0
  }

  /**
   * A system call gives its caller r0 and, if it maps one, a page. Whether a signal is delivered at its end
   * makes no difference to the state the caller goes on in.
   */
  lemma CallIsTransparent(run: seq<SignalRuns.Process>, labels: seq<Label>, k: nat)
    requires Run(run, labels) && Init(run[0]) && k < |labels|
    requires !labels[k].User? && !labels[k].Send? && !labels[k].HandlerReturn?
    ensures |run| == |labels| + 1 && |run[k].user.regs| == 8 && |run[k].user.memPages| == 16
    ensures labels[k].PgMap? ==> labels[k].slot < 16
    ensures var p := run[k].user;
            var q := if run[k].hold then run[k + 1].user else Resume(run[k + 1]);
            && q.regs == p.regs[0 := ResultOf(labels, k)] && q.pc == p.pc && q.flags == p.flags
            && q.progPages == p.progPages
            && q.memPages == if labels[k].PgMap? then p.memPages[labels[k].slot := labels[k].page] else p.memPages
  {
    hide Run, Held, Init, HandlerState, Pushed, Restored, WriteThrough, FrameBytesKept, StackRoom, Fits;
    StepOf(run, labels, k);
    SentLaw(run, labels, k);
  }

  /** User code goes on as it likes; a signal sent meanwhile changes nothing that it can see. */
  lemma OutsideCalls(run: seq<SignalRuns.Process>, labels: seq<Label>, k: nat)
    requires Run(run, labels) && Init(run[0]) && k < |labels|
    ensures |run| == |labels| + 1
    ensures labels[k].Send? ==> run[k + 1].user == run[k].user && run[k + 1].mem == run[k].mem
    ensures labels[k].User? ==>
              && run[k + 1].user == run[k].user.(regs := labels[k].regs, pc := labels[k].pc, flags := labels[k].flags)
              && run[k + 1].mem == labels[k].mem
  {
    hide Run, Inv, Memories, Init, HandlerState, Pushed, Restored, WriteThrough, FrameBytesKept, StackRoom;
    StepOf(run, labels, k);
  }

  // ---- Which bytes a call changes ----

  /** One of the four bytes at `buff`, seen through the caller's table. */
  ghost predicate IsBuffer(p: SignalRuns.Process, buff: Word, x: nat)
    requires |p.user.memPages| == 16
  {
    exists i :: 0 <= i < 4 && Place(p.user.memPages, buff, i) == x
  }

  /** One of the 88 bytes that end two below the stack pointer. */
  ghost predicate IsFrame(s: State, x: nat) {
    && Shaped(s)
    && var sp: int := s.regs[7];
    exists v: Word :: sp - 90 <= v < sp - 2 && Translate(s.memPages, v) == x
  }

  /** No byte of the frame is one of the buffer. */
  ghost predicate Away(p: SignalRuns.Process, buff: Word)
    requires |p.user.memPages| == 16
  {
    forall x: nat :: IsFrame(p.saved, x) ==> !IsBuffer(p, buff, x)
  }

  lemma AwayKeepsFrame(p: SignalRuns.Process, buff: Word, data: seq<Byte>)
    requires SignalRuns.Inv(p) && p.hold && Away(p, buff) && |data| == 4
    ensures FrameBytesKept(p, WriteThrough(p.mem, p.user.memPages, buff, data))
  {
    hide Framed, WriteThrough, Place, Translate, Fits, IsBuffer, IsFrame;
    FrameFits(p);
    var a := FrameAt(p.user.memPages, p.saved.regs[7]);
    var mem := WriteThrough(p.mem, p.user.memPages, buff, data);
    forall x | a <= x < a + STATE_SIZE
      ensures mem[x] == p.mem[x]
    {
      InFrame(p, x);
      NotBuffer(p, buff, x);
      WriteFrame(p.mem, p.user.memPages, buff, data, x);
    }
    assert mem[a..a + STATE_SIZE] == p.mem[a..a + STATE_SIZE];
  }

  lemma InFrame(p: SignalRuns.Process, x: nat)
    requires SignalRuns.Inv(p) && p.hold
    requires var a := FrameAt(p.user.memPages, p.saved.regs[7]); a <= x < a + STATE_SIZE
    ensures IsFrame(p.saved, x)
  {
    hide Framed, Translate, Fits;
    var a := FrameAt(p.user.memPages, p.saved.regs[7]);
    var v: Word := p.saved.regs[7] - 86 + (x - a);
    StackTranslate(p.saved.memPages, v);
  }

  lemma NotBuffer(p: SignalRuns.Process, buff: Word, x: nat)
    requires |p.user.memPages| == 16 && !IsBuffer(p, buff, x)
    ensures forall i :: 0 <= i < 4 ==> Place(p.user.memPages, buff, i) != x
  {}

  /**
   * SYS_SIGWAIT can be served exactly when a signal is pending and no handler is about to get it. Inside a
   * handler the buffer must be away from the frame.
   */
  lemma WaitServedIff(run: seq<SignalRuns.Process>, labels: seq<Label>, k: nat, buff: Word)
    requires Run(run, labels) && Init(run[0]) && k < |run| && |run[k].user.memPages| == 16
    requires run[k].hold ==> Away(run[k], buff)
    ensures Memories(run[k])
    ensures Enabled(run[k], SigWait(buff)) <==>
            |SentBy(labels[..k])| > |run[k].taken| && (HandlerBy(labels[..k]) == 0 || run[k].hold)
  {
    hide Run, Init, Framed, WriteThrough, StackRoom, Fits, SignalBytes, Away;
    RunInv(run, labels, k);
    SentLaw(run, labels, k);
    var p := run[k];
    if p.hold && p.queue != [] {
      AwayKeepsFrame(p, buff, SignalBytes(p.queue[0]));
    }
  }

  /** SYS_SIGWAIT stores the oldest signal not taken, provided its four bytes have four places. */
  lemma WaitStoresSignal(run: seq<SignalRuns.Process>, labels: seq<Label>, k: nat)
    requires Run(run, labels) && Init(run[0]) && k < |labels| && labels[k].SigWait?
    requires |run[k].user.memPages| == PAGES && Distinct(run[k].user.memPages, labels[k].buff, 4)
    ensures |run| == |labels| + 1 && |run[k].taken| < |SentBy(labels[..k])|
    ensures Fits(run[k + 1].mem, run[k + 1].user.memPages)
    ensures ReadThrough(run[k + 1].mem, run[k + 1].user.memPages, labels[k].buff, 4)
            == SignalBytes(SentBy(labels[..k])[|run[k].taken|])
  {
    hide Run, Held, Init, HandlerState, Pushed, Restored, WriteThrough, ReadThrough, FrameBytesKept, StackRoom;
    hide SignalBytes, Distinct, Fits;
    StepOf(run, labels, k);
    SentLaw(run, labels, k);
    var p := run[k];
    WriteThenRead(p.mem, p.user.memPages, labels[k].buff, SignalBytes(p.queue[0]));
    PageFits(p.mem, p.user.memPages, labels[k].buff);
  }

  /** Nothing else changes: a call writes only that buffer, and the 88 bytes of a frame if it delivers a signal. */
  lemma CallKeepsBytes(run: seq<SignalRuns.Process>, labels: seq<Label>, k: nat, x: nat)
    requires Run(run, labels) && Init(run[0]) && k < |labels| && x < |run[k].mem|
    requires !labels[k].User? && !labels[k].Send? && |run[k].user.memPages| == PAGES
    requires labels[k].SigWait? ==> !IsBuffer(run[k], labels[k].buff, x)
    requires Delivered(run, labels, k) ==> !IsFrame(run[k + 1].saved, x)
    ensures x < |run[k + 1].mem| && run[k + 1].mem[x] == run[k].mem[x]
  {
    hide Run, Held, Init, HandlerState, Pushed, Restored, WriteThrough, FrameBytesKept, StackRoom, Fits;
    hide SignalBytes, Translate, Place;
    StepOf(run, labels, k);
    DeliveredIff(run, labels, k);
    var p := run[k];
    if labels[k].SigWait? {
      WriteFrame(p.mem, p.user.memPages, labels[k].buff, SignalBytes(p.queue[0]), x);
    }
    var s := Served(p, labels[k]);
    if Delivers(s) {
      EnterFrame(s.mem, s.user, s.queue[0], x);
    }
  }
}
